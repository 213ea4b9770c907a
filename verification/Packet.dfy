/** internal/model/packet.go: addresses, protocol names and the packet-level records. */
module Packet {
  import opened Base
  import opened Text

  // ---------------------------------------------------------------- addresses

  /** net.IP: a byte slice, 4 or 16 bytes long (nil and other lengths are possible too). */
  type IP = Octets

  const V4_IN_V6_PREFIX: IP := [0, 0, 0, 0, 0, 0, 0, 0, 0, 0, 0xff, 0xff]

  /** net.IP.To4, with the empty slice for nil. */
  function To4(ip: IP): IP {
    if |ip| == 4 then ip
    else if |ip| == 16 && ip[..12] == V4_IN_V6_PREFIX then ip[12..]
    else []
  }

  /** What net.IPv4 returns: the 16-byte form of an IPv4 address. */
  type IPv4 = ip: IP | |ip| == 16 && ip[..12] == V4_IN_V6_PREFIX witness V4_IN_V6_PREFIX + [0, 0, 0, 0]

  /** Go's byte() conversion keeps the low eight bits. */
  function Byte(x: nat): uint8 {
    (x % TWO_8) as uint8
  }

  /** Shifts and byte() truncations of a uint32, written as division and remainder. */
  function IPFromUint32(x: uint32): (ip: IPv4)
    ensures |ip| == 16 && To4(ip) == ip[12..]
  {
    V4_IN_V6_PREFIX + [Byte(x / 0x100_0000), Byte(x / 0x1_0000), Byte(x / 0x100), Byte(x)]
  }

  function IPToUint32(ip: IP): uint32 {
    var ip4 := To4(ip);
    if |ip4| != 4 then 0 else
      var a, b, c, d := ip4[0] as int, ip4[1] as int, ip4[2] as int, ip4[3] as int;
      a * 0x100_0000 + b * 0x1_0000 + c * 0x100 + d
  }

  lemma IPRoundTrip(x: uint32)
    ensures IPToUint32(IPFromUint32(x)) == x
  {
    var ip := IPFromUint32(x);
    assert ip[12..] == [Byte(x / 0x100_0000), Byte(x / 0x1_0000), Byte(x / 0x100), Byte(x)];
    assert x / 0x1_0000 == x / 0x100_0000 * TWO_8 + x / 0x1_0000 % TWO_8;
    assert x / 0x100 == x / 0x1_0000 * TWO_8 + x / 0x100 % TWO_8;
    assert x == x / 0x100 * TWO_8 + x % TWO_8;
  }

  /** The address bytes behind the IPv4-in-IPv6 prefix, most significant first. */
  lemma AddressBytes(x: uint32)
    ensures IPFromUint32(x)[..12] == [0, 0, 0, 0, 0, 0, 0, 0, 0, 0, 255, 255]
    ensures IPFromUint32(x)[12] as int == x / 16777216 && IPFromUint32(x)[13] as int == x / 65536 % 256
    ensures IPFromUint32(x)[14] as int == x / 256 % 256 && IPFromUint32(x)[15] as int == x % 256
  {
  }

  /** net.IP.String for an address that holds an IPv4 value. */
  function IPString(ip: IPv4): string {
    var b := To4(ip);
    Decimal(b[0] as int) + ("." + Quad1(b))
  }

  /** The last three numbers of the quad, and the last two. */
  function Quad1(b: IP): string
    requires |b| == 4
  {
    Decimal(b[1] as int) + ("." + Quad2(b))
  }

  function Quad2(b: IP): string
    requires |b| == 4
  {
    Decimal(b[2] as int) + ("." + Decimal(b[3] as int))
  }

  lemma IPStringAlphabet(ip: IPv4)
    ensures forall c <- IPString(ip) :: c in DIGITS || c == '.'
  {
    var b := To4(ip);
    forall k | 0 <= k < 4
      ensures forall c <- Decimal(b[k] as int) :: c in DIGITS
    {
      DecimalOnlyDigits(b[k] as int);
    }
  }

  /** One dot: the number before it and the text behind it are determined. */
  lemma SplitAtDot(m: nat, a: string, n: nat, b: string)
    requires Decimal(m) + ("." + a) == Decimal(n) + ("." + b)
    ensures m == n && a == b
  {
    DecimalOnlyDigits(m);
    DecimalOnlyDigits(n);
    hide Decimal;
    var s, s' := Decimal(m), Decimal(n);
    assert s + "." + a == s + ("." + a);
    assert s' + "." + b == s' + ("." + b);
    SplitAtSeparator(Decimal(m), a, Decimal(n), b, '.');
    DecimalInjective(m, n);
  }

  /** The dotted quad determines the address. */
  lemma IPStringInjective(p: IPv4, q: IPv4)
    requires IPString(p) == IPString(q)
    ensures p == q
  {
    hide Decimal;
    var a, b := To4(p), To4(q);
    SplitAtDot(a[0] as int, Quad1(a), b[0] as int, Quad1(b));
    SplitAtDot(a[1] as int, Quad2(a), b[1] as int, Quad2(b));
    SplitAtDot(a[2] as int, Decimal(a[3] as int), b[2] as int, Decimal(b[3] as int));
    DecimalInjective(a[3] as int, b[3] as int);
    assert a == b && p == V4_IN_V6_PREFIX + a && q == V4_IN_V6_PREFIX + b;
  }

  lemma AddressTextInjective(x: uint32, y: uint32)
    requires IPString(IPFromUint32(x)) == IPString(IPFromUint32(y))
    ensures x == y
  {
    IPStringInjective(IPFromUint32(x), IPFromUint32(y));
    IPRoundTrip(x);
    IPRoundTrip(y);
  }

  /** The dotted quad of the four bytes behind the prefix. */
  lemma IPStringSpelled(ip: IPv4)
    ensures IPString(ip) == Decimal(ip[12] as int) + "." + Decimal(ip[13] as int) + "." + Decimal(ip[14] as int) + "."
                            + Decimal(ip[15] as int)
  {
    hide Decimal;
    var a, b, c, d := Decimal(ip[12] as int), Decimal(ip[13] as int), Decimal(ip[14] as int), Decimal(ip[15] as int);
    assert a + ("." + (b + ("." + (c + ("." + d))))) == a + "." + b + "." + c + "." + d;
  }

  // ---------------------------------------------------------------- protocols

  const TCP: uint8 := 6
  const UDP: uint8 := 17

  function ProtocolName(proto: uint8): string {
    match proto
    case 1 => "icmp"
    case 2 => "igmp"
    case 6 => "tcp"
    case 17 => "udp"
    case 41 => "ipv6"
    case 47 => "gre"
    case 50 => "esp"
    case 51 => "ah"
    case 88 => "eigrp"
    case 89 => "ospf"
    case 132 => "sctp"
    case _ => "other"
  }

  predicate Named(proto: uint8) {
    proto in {1, 2, 6, 17, 41, 47, 50, 51, 88, 89, 132}
  }

  /** Names are equal exactly for equal numbers and for any two numbers outside the table. */
  lemma ProtocolNameEqual(p: uint8, q: uint8)
    ensures ProtocolName(p) == ProtocolName(q) <==> p == q || (!Named(p) && !Named(q))
  {
    var a, b := ProtocolName(p), ProtocolName(q);
    if |a| == |b| && a != b {
      assert a[0] != b[0] || a[1] != b[1] || a[|a| - 1] != b[|b| - 1];
    }
  }

  /** The table of names, number by number. */
  lemma ProtocolNames(proto: uint8)
    ensures ProtocolName(proto) == "icmp" <==> proto == 1
    ensures ProtocolName(proto) == "igmp" <==> proto == 2
    ensures ProtocolName(proto) == "tcp" <==> proto == 6
    ensures ProtocolName(proto) == "udp" <==> proto == 17
    ensures ProtocolName(proto) == "ipv6" <==> proto == 41
    ensures ProtocolName(proto) == "gre" <==> proto == 47
    ensures ProtocolName(proto) == "esp" <==> proto == 50
    ensures ProtocolName(proto) == "ah" <==> proto == 51
    ensures ProtocolName(proto) == "eigrp" <==> proto == 88
    ensures ProtocolName(proto) == "ospf" <==> proto == 89
    ensures ProtocolName(proto) == "sctp" <==> proto == 132
    ensures ProtocolName(proto) == "other" <==>
            proto != 1 && proto != 2 && proto != 6 && proto != 17 && proto != 41 && proto != 47 &&
            proto != 50 && proto != 51 && proto != 88 && proto != 89 && proto != 132
  {
    var named: seq<uint8> := [1, 2, 6, 17, 41, 47, 50, 51, 88, 89, 132, 0];
    forall i | 0 <= i < |named|
      ensures ProtocolName(proto) == ProtocolName(named[i]) <==>
              proto == named[i] || (!Named(proto) && !Named(named[i]))
    {
      ProtocolNameEqual(proto, named[i]);
    }
    assert named[0] == 1 && named[1] == 2 && named[2] == 6 && named[3] == 17 && named[4] == 41 && named[5] == 47;
    assert named[6] == 50 && named[7] == 51 && named[8] == 88 && named[9] == 89 && named[10] == 132 && named[11] == 0;
  }

  // ------------------------------------------------------------------ packets

  /** The fields of model.PacketEvent that the capture path fills, plus the optional payload. */
  datatype PacketEvent = PacketEvent(
    timestampNs: uint64,
    saddr: uint32,
    daddr: uint32,
    sport: Port,
    dport: Port,
    protocol: uint8,
    len: uint32,
    cpuId: uint32,
    queueMapping: uint16,
    payload: Octets)

  datatype Direction = Forward | Reverse

  /** A Go string holding raw name bytes. */
  type Domain = Octets

  datatype DNSQuery = DNSQuery(
    timestamp: Time,
    domain: Domain,
    queryType: string,
    isResponse: bool,
    responseCode: string,
    direction: Direction)

  datatype PacketRecord = PacketRecord(
    timestamp: Time,
    srcIP: IP,
    srcPort: Port,
    dstIP: IP,
    dstPort: Port,
    length: uint32,
    direction: Direction,
    tcpFlags: uint8,
    dnsQuery: Option<DNSQuery>)

  datatype FlowState = New | Syn | SynAck | Established | Closed

  function StateName(s: FlowState): string {
    match s
    case New => "new"
    case Syn => "syn"
    case SynAck => "syn-ack"
    case Established => "established"
    case Closed => "closed"
  }

  datatype TCPStateChange = TCPStateChange(
    timestamp: Time,
    oldState: FlowState,
    newState: FlowState,
    description: string)
}
