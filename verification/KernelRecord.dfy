/**
 * bpf/packet.c and parsePacketEvent of internal/monitor/monitor.go: from a frame to the record the
 * kernel writes into the ring buffer, and from those bytes back to a PacketEvent.
 * The host is little-endian, as in the generated bpfel bindings.
 */
module KernelRecord {
  import opened Base
  import opened Packet
  import opened Text

  // ------------------------------------------------------------ integer bytes

  function Pow256(n: nat): nat {
    if n == 0 then 1 else TWO_8 * Pow256(n - 1)
  }

  /** n bytes, least significant first. */
  function Little(x: nat, n: nat): (s: Octets)
    ensures |s| == n
    decreases n
  {
    if n == 0 then [] else [(x % TWO_8) as uint8] + Little(x / TWO_8, n - 1)
  }

  function FromLittle(s: Octets): nat {
    if s == [] then 0 else s[0] as nat + TWO_8 * FromLittle(s[1..])
  }

  lemma {:induction false} FromLittleBound(s: Octets)
    ensures FromLittle(s) < Pow256(|s|)
  {
    if s != [] {
      FromLittleBound(s[1..]);
    }
  }

  lemma {:induction false} LittleRoundTrip(x: nat, n: nat)
    requires x < Pow256(n)
    ensures FromLittle(Little(x, n)) == x
    decreases n
  {
    if n > 0 {
      LittleRoundTrip(x / TWO_8, n - 1);
      assert Little(x, n)[1..] == Little(x / TWO_8, n - 1);
    }
  }

  lemma Widths()
    ensures Pow256(1) == TWO_8 && Pow256(2) == TWO_16 && Pow256(4) == TWO_32 && Pow256(8) == TWO_64
  {
    assert Pow256(2) == TWO_8 * Pow256(1);
    assert Pow256(3) == TWO_8 * Pow256(2);
    assert Pow256(4) == TWO_8 * Pow256(3);
    assert Pow256(5) == TWO_8 * Pow256(4);
    assert Pow256(6) == TWO_8 * Pow256(5);
    assert Pow256(7) == TWO_8 * Pow256(6);
  }

  /** A 32-bit field copied as it lies in memory. */
  function MemoryWord(p: Octets, i: nat): uint32
    requires i + 4 <= |p|
  {
    FromLittleBound(p[i..i + 4]);
    Widths();
    FromLittle(p[i..i + 4])
  }

  // ---------------------------------------------------------------- XDP probe

  const ETH_HEADER: nat := 14
  const ETH_P_IP: int := 0x0800
  const IP_HEADER: nat := 20
  const TCP_HEADER: nat := 20
  const UDP_HEADER: nat := 8

  /** struct packet_event without its constant-zero padding fields. */
  datatype KernelEvent = KernelEvent(
    timestampNs: uint64,
    saddr: uint32,
    daddr: uint32,
    sport: uint16,
    dport: uint16,
    protocol: uint8,
    len: uint32,
    cpuId: uint32,
    queueMapping: uint16)

  /** Internet header length in bytes (RFC 791 section 3.1): the low nibble of the first IP byte. */
  function HeaderLength(frame: Octets): nat
    requires |frame| > ETH_HEADER
  {
    4 * (frame[ETH_HEADER] as int % 16)
  }

  /** The frame is IPv4 with a complete header of at least five words. */
  predicate IsIPv4Frame(frame: Octets) {
    && |frame| >= ETH_HEADER + IP_HEADER
    && BigEndian16(frame, 12) == ETH_P_IP
    && HeaderLength(frame) >= IP_HEADER
    && ETH_HEADER + HeaderLength(frame) <= |frame|
  }

  /** The full TCP or UDP header follows the IP header. */
  predicate HasPorts(frame: Octets)
    requires IsIPv4Frame(frame)
  {
    var end := ETH_HEADER + HeaderLength(frame);
    var protocol := frame[ETH_HEADER + 9];
    || (protocol == TCP && end + TCP_HEADER <= |frame|)
    || (protocol == UDP && end + UDP_HEADER <= |frame|)
  }

  /** IsIPv4Frame, byte by byte. */
  lemma FrameBytes(frame: Octets)
    ensures IsIPv4Frame(frame) <==>
            && |frame| >= 34 && frame[12] == 8 && frame[13] == 0
            && frame[14] as int % 16 >= 5 && 14 + 4 * (frame[14] as int % 16) <= |frame|
  {
  }

  /** What the emitted record must contain, field by field, by position in the frame. */
  predicate Describes(e: KernelEvent, frame: Octets, ktime: uint64, cpu: uint32, rxQueue: uint32)
    requires IsIPv4Frame(frame)
  {
    var ports := ETH_HEADER + HeaderLength(frame);
    && e.timestampNs == ktime && e.cpuId == cpu && e.queueMapping == rxQueue % TWO_16
    && e.len == BigEndian16(frame, 16)
    && e.protocol == frame[23]
    && e.saddr == MemoryWord(frame, 26)
    && e.daddr == MemoryWord(frame, 30)
    && (HasPorts(frame) ==> e.sport == BigEndian16(frame, ports) && e.dport == BigEndian16(frame, ports + 2))
    && (!HasPorts(frame) ==> e.sport == 0 && e.dport == 0)
  }

  class XdpProbe {
    /** packet_count_map and the submitted records. */
    var packets: uint64
    var bytes: uint64
    var submitted: seq<KernelEvent>

    constructor ()
      ensures packets == 0 && bytes == 0 && submitted == []
    {
      packets, bytes, submitted := 0, 0, [];
    }

    /**
     * xdp_probe_func. The map lookup and the ring-buffer reservation may fail. All reads of the
     * frame are bounds-checked by the verifier.
     */
    method Run(frame: Octets, statsFound: bool, reserved: bool, ktime: uint64, cpu: uint32, rxQueue: uint32)
      modifies this
      ensures packets == (if statsFound then (old(packets) + 1) % 18446744073709551616 else old(packets))
      ensures bytes == (if statsFound then (old(bytes) + |frame|) % 18446744073709551616 else old(bytes))
      ensures submitted != old(submitted) <==>
              && reserved && |frame| >= 34 && frame[12] == 8 && frame[13] == 0
              && frame[14] as int % 16 >= 5 && 14 + 4 * (frame[14] as int % 16) <= |frame|
      ensures IsIPv4Frame(frame) && reserved ==>
                |submitted| == |old(submitted)| + 1
                && Front(submitted) == old(submitted)
                && Describes(Last(submitted), frame, ktime, cpu, rxQueue)
      ensures !(IsIPv4Frame(frame) && reserved) ==> submitted == old(submitted)
    {
      hide MemoryWord;
      FrameBytes(frame);
      var dataEnd := |frame|;
      if statsFound {
        packets := U64(packets + 1);
        bytes := U64(bytes + dataEnd);
      }
      var eth := 0;
      if eth + ETH_HEADER > dataEnd {
        return;
      }
      if BigEndian16(frame, eth + 12) != ETH_P_IP {
        return;
      }
      var ip := eth + ETH_HEADER;
      if ip + IP_HEADER > dataEnd {
        return;
      }
      var ihl := frame[ip] as int % 16;
      if ihl < 5 {
        return;
      }
      var ipEnd := ip + ihl * 4;
      if ipEnd > dataEnd {
        return;
      }
      if !reserved {
        return;
      }
      var evt := KernelEvent(ktime, MemoryWord(frame, ip + 12), MemoryWord(frame, ip + 16), 0, 0,
                             frame[ip + 9], BigEndian16(frame, ip + 2), cpu, rxQueue % TWO_16);
      if frame[ip + 9] == TCP {
        if ipEnd + TCP_HEADER <= dataEnd {
          evt := evt.(sport := BigEndian16(frame, ipEnd));
          evt := evt.(dport := BigEndian16(frame, ipEnd + 2));
        }
      } else if frame[ip + 9] == UDP {
        if ipEnd + UDP_HEADER <= dataEnd {
          evt := evt.(sport := BigEndian16(frame, ipEnd));
          evt := evt.(dport := BigEndian16(frame, ipEnd + 2));
        }
      }
      submitted := submitted + [evt];
    }
  }

  /** Position determines content: at most one record describes a frame. */
  lemma DescribesUnique(e: KernelEvent, e': KernelEvent, frame: Octets, ktime: uint64, cpu: uint32, rxQueue: uint32)
    requires IsIPv4Frame(frame)
    requires Describes(e, frame, ktime, cpu, rxQueue) && Describes(e', frame, ktime, cpu, rxQueue)
    ensures e == e'
  {
    hide MemoryWord, BigEndian16;
  }

  // ------------------------------------------------------------ record layout

  const RECORD_SIZE: nat := 36

  /** struct packet_event in memory, in field order, with pad1, pad2 and pad3 zero. */
  function Layout(e: KernelEvent): Octets {
    Little(e.timestampNs, 8) + (Little(e.saddr, 4) + (Little(e.daddr, 4) + (Little(e.sport, 2) + (Little(e.dport, 2)
    + ([e.protocol] + ([0] + (Little(0, 2) + (Little(e.len, 4) + (Little(e.cpuId, 4)
    + (Little(e.queueMapping, 2) + Little(0, 2)))))))))))
  }

  datatype ParseResult = Parsed(evt: PacketEvent) | ShortSample(got: nat)

  /** binary.Read of one little-endian field, and the bytes behind it. */
  function ReadField(s: Octets, n: nat): (r: (nat, Octets))
    requires n <= |s|
    ensures r.0 < Pow256(n) && |r.1| == |s| - n
  {
    FromLittleBound(s[..n]);
    (FromLittle(s[..n]), s[n..])
  }

  function ParsePacketEvent(data: Octets): ParseResult {
    if |data| < RECORD_SIZE then ShortSample(|data|)
    else
      Widths();
      var (timestampNs, r1) := ReadField(data, 8);
      var (saddr, r2) := ReadField(r1, 4);
      var (daddr, r3) := ReadField(r2, 4);
      var (sport, r4) := ReadField(r3, 2);
      var (dport, r5) := ReadField(r4, 2);
      var (protocol, r6) := ReadField(r5, 1);
      var (pad1, r7) := ReadField(r6, 1);
      var (pad2, r8) := ReadField(r7, 2);
      var (len, r9) := ReadField(r8, 4);
      var (cpuId, r10) := ReadField(r9, 4);
      var (queueMapping, r11) := ReadField(r10, 2);
      var (pad3, _) := ReadField(r11, 2);
      Parsed(PacketEvent(timestampNs, saddr, daddr, sport as Port, dport as Port, protocol as uint8, len, cpuId,
                         queueMapping, []))
  }

  lemma ReadBack(x: nat, n: nat, rest: Octets)
    requires x < Pow256(n)
    ensures ReadField(Little(x, n) + rest, n) == (x, rest)
  {
    LittleRoundTrip(x, n);
    assert (Little(x, n) + rest)[..n] == Little(x, n);
    assert (Little(x, n) + rest)[n..] == rest;
  }

  function EventOf(e: KernelEvent): PacketEvent {
    PacketEvent(e.timestampNs, e.saddr, e.daddr, e.sport as Port, e.dport as Port, e.protocol, e.len, e.cpuId,
                e.queueMapping, [])
  }

  /** The tail of Layout from each field on, so that every field is read back at its own place. */
  lemma LayoutTails(e: KernelEvent, padding: Octets)
    ensures var t12 := Little(0, 2) + padding;
            var t11 := Little(e.queueMapping, 2) + t12;
            var t10 := Little(e.cpuId, 4) + t11;
            var t9 := Little(e.len, 4) + t10;
            var t8 := Little(0, 2) + t9;
            var t7 := [0] + t8;
            var t6 := [e.protocol] + t7;
            var t5 := Little(e.dport, 2) + t6;
            var t4 := Little(e.sport, 2) + t5;
            var t3 := Little(e.daddr, 4) + t4;
            var t2 := Little(e.saddr, 4) + t3;
            Layout(e) + padding == Little(e.timestampNs, 8) + t2
    ensures |Layout(e)| == RECORD_SIZE
  {
    hide Little;
  }

  /** Decoding the record, with whatever padding the struct ends in, recovers every field. */
  lemma LayoutParseRoundTrip(e: KernelEvent, padding: Octets)
    ensures ParsePacketEvent(Layout(e) + padding) == Parsed(EventOf(e))
  {
    hide Pow256, Little, FromLittle, ReadField, Layout;
    Widths();
    LayoutTails(e, padding);
    OneByte(e.protocol);
    OneByte(0);
    var t12 := Little(0, 2) + padding;
    var t11 := Little(e.queueMapping, 2) + t12;
    var t10 := Little(e.cpuId, 4) + t11;
    var t9 := Little(e.len, 4) + t10;
    var t8 := Little(0, 2) + t9;
    var t7 := [0] + t8;
    var t6 := [e.protocol] + t7;
    var t5 := Little(e.dport, 2) + t6;
    var t4 := Little(e.sport, 2) + t5;
    var t3 := Little(e.daddr, 4) + t4;
    var t2 := Little(e.saddr, 4) + t3;
    ReadBack(e.timestampNs, 8, t2);
    ReadBack(e.saddr, 4, t3);
    ReadBack(e.daddr, 4, t4);
    ReadBack(e.sport, 2, t5);
    ReadBack(e.dport, 2, t6);
    ReadBack(e.protocol as nat, 1, t7);
    ReadBack(0, 1, t8);
    ReadBack(0, 2, t9);
    ReadBack(e.len, 4, t10);
    ReadBack(e.cpuId, 4, t11);
    ReadBack(e.queueMapping, 2, t12);
  }

  lemma OneByte(b: uint8)
    ensures Little(b as nat, 1) == [b]
  {
    assert Little(b as nat / TWO_8, 0) == [];
  }

  /** A record is rejected exactly when it is shorter than the 36 bytes of fields. */
  lemma ParseRejectsIffShort(data: Octets)
    ensures ParsePacketEvent(data).ShortSample? <==> |data| < RECORD_SIZE == 36
    ensures ParsePacketEvent(data).Parsed? ==> ParsePacketEvent(data).evt.payload == []
  {
  }

  /**
   * End to end: the event decoded from the record the probe submits carries the frame's own
   * fields, with the ports at 14 + 4 * ihl when the full transport header is present and 0 otherwise;
   * no other record describes the frame.
   */
  lemma FrameToEvent(frame: Octets, e: KernelEvent, padding: Octets, ktime: uint64, cpu: uint32, rxQueue: uint32)
    requires IsIPv4Frame(frame) && Describes(e, frame, ktime, cpu, rxQueue)
    ensures ParsePacketEvent(Layout(e) + padding).Parsed?
    ensures var evt := ParsePacketEvent(Layout(e) + padding).evt;
            && evt.timestampNs == ktime && evt.cpuId == cpu && evt.queueMapping == rxQueue % 65536
            && evt.len == 256 * frame[16] as int + frame[17] as int && evt.protocol == frame[23]
            && evt.saddr == frame[26] as int + 256 * frame[27] as int + 65536 * frame[28] as int
                            + 16777216 * frame[29] as int
            && evt.daddr == frame[30] as int + 256 * frame[31] as int + 65536 * frame[32] as int
                            + 16777216 * frame[33] as int
            && evt.payload == []
    ensures var evt := ParsePacketEvent(Layout(e) + padding).evt;
            var o := 14 + 4 * (frame[14] as int % 16);
            if (frame[23] == 6 && o + 20 <= |frame|) || (frame[23] == 17 && o + 8 <= |frame|) then
              && evt.sport as int == 256 * frame[o] as int + frame[o + 1] as int
              && evt.dport as int == 256 * frame[o + 2] as int + frame[o + 3] as int
            else evt.sport == 0 && evt.dport == 0
    ensures forall e' | Describes(e', frame, ktime, cpu, rxQueue) :: e' == e
  {
    hide Layout, MemoryWord;
    forall e' | Describes(e', frame, ktime, cpu, rxQueue)
      ensures e' == e
    {
      DescribesUnique(e, e', frame, ktime, cpu, rxQueue);
    }
    LayoutParseRoundTrip(e, padding);
    MemoryWordBytes(frame, 26);
    MemoryWordBytes(frame, 30);
  }

  lemma LittlePairs(s: Octets)
    requires |s| >= 2
    ensures FromLittle(s[..2]) == s[0] as nat + 256 * s[1] as nat
    ensures FromLittle(s[..1]) == s[0] as nat
  {
    assert FromLittle([]) == 0 && s[..2][1..][1..] == [] && s[..1][1..] == [];
    assert FromLittle(s[..2][1..]) == s[1] as nat;
  }

  lemma LittleQuad(s: Octets)
    requires |s| >= 4
    ensures FromLittle(s[..4]) == s[0] as nat + 256 * s[1] as nat + 65536 * s[2] as nat + 16777216 * s[3] as nat
  {
    MemoryWordBytes(s, 0);
    assert s[0..4] == s[..4];
  }

  lemma {:induction false} LittleSplit(s: Octets, n: nat)
    requires n <= |s|
    ensures FromLittle(s) == FromLittle(s[..n]) + Pow256(n) * FromLittle(s[n..])
    decreases n
  {
    if n == 0 {
      assert s[0..] == s;
    } else {
      LittleSplit(s[1..], n - 1);
      assert s[..n][1..] == s[1..][..n - 1] && s[1..][n - 1..] == s[n..];
    }
  }

  /** parsePacketEvent, byte by byte. */
  lemma EventBytes(data: Octets)
    requires |data| >= 36
    ensures ParsePacketEvent(data).Parsed?
    ensures var evt := ParsePacketEvent(data).evt;
            && evt.saddr == data[8] as int + 256 * data[9] as int + 65536 * data[10] as int
                            + 16777216 * data[11] as int
            && evt.daddr == data[12] as int + 256 * data[13] as int + 65536 * data[14] as int
                            + 16777216 * data[15] as int
            && evt.sport as int == data[16] as int + 256 * data[17] as int
            && evt.dport as int == data[18] as int + 256 * data[19] as int
            && evt.protocol == data[20] && evt.payload == []
    ensures var evt := ParsePacketEvent(data).evt;
            && evt.timestampNs == data[0] as int + 256 * data[1] as int + 65536 * data[2] as int
                                  + 16777216 * data[3] as int + 4294967296 * data[4] as int
                                  + 1099511627776 * data[5] as int + 281474976710656 * data[6] as int
                                  + 72057594037927936 * data[7] as int
            && evt.len == data[24] as int + 256 * data[25] as int + 65536 * data[26] as int
                          + 16777216 * data[27] as int
            && evt.cpuId == data[28] as int + 256 * data[29] as int + 65536 * data[30] as int
                            + 16777216 * data[31] as int
            && evt.queueMapping == data[32] as int + 256 * data[33] as int
  {
    hide FromLittle, Pow256;
    var r1, r2, r3, r4, r5 := data[8..], data[12..], data[16..], data[18..], data[20..];
    assert data[8..][4..] == r2 && r2[4..] == r3 && r3[2..] == r4 && r4[2..] == r5;
    var r6, r7, r8, r9, r10 := data[21..], data[22..], data[24..], data[28..], data[32..];
    assert r5[1..] == r6 && r6[1..] == r7 && r7[2..] == r8 && r8[4..] == r9 && r9[4..] == r10;
    LittleQuad(r1);
    LittleQuad(r2);
    LittlePairs(r3);
    LittlePairs(r4);
    LittlePairs(r5);
    LittleQuad(r8);
    LittleQuad(r9);
    LittlePairs(r10);
    LittleEight(data);
  }

  lemma LittleEight(s: Octets)
    requires |s| >= 8
    ensures FromLittle(s[..8]) == s[0] as nat + 256 * s[1] as nat + 65536 * s[2] as nat + 16777216 * s[3] as nat
                                  + 4294967296 * s[4] as nat + 1099511627776 * s[5] as nat
                                  + 281474976710656 * s[6] as nat + 72057594037927936 * s[7] as nat
  {
    LittleSplit(s[..8], 4);
    Widths();
    assert s[..8][..4] == s[..4] && s[..8][4..] == s[4..][..4];
    LittleQuad(s);
    LittleQuad(s[4..]);
  }

  /**
   * The addresses lie in the frame in network order but are read as a little-endian word, so the
   * displayed quad lists the frame's address bytes in reverse: it is the frame's own address
   * exactly when that address reads the same backwards.
   */
  lemma DisplayedAddressIsReversed(frame: Octets, i: nat)
    requires i + 4 <= |frame|
    ensures To4(IPFromUint32(MemoryWord(frame, i))) == [frame[i + 3], frame[i + 2], frame[i + 1], frame[i]]
    ensures To4(IPFromUint32(MemoryWord(frame, i))) == frame[i..i + 4] <==>
            frame[i] == frame[i + 3] && frame[i + 1] == frame[i + 2]
  {
    MemoryWordBytes(frame, i);
    hide MemoryWord, Byte;
    WordBytes(frame[i] as int, frame[i + 1] as int, frame[i + 2] as int, frame[i + 3] as int);
  }

  lemma MemoryWordBytes(frame: Octets, i: nat)
    requires i + 4 <= |frame|
    ensures MemoryWord(frame, i) == frame[i] as int + TWO_8 * frame[i + 1] as int + TWO_16 * frame[i + 2] as int
                                    + 0x100_0000 * frame[i + 3] as int
  {
    var s := frame[i..i + 4];
    assert FromLittle(s[4..]) == 0;
    assert s[1..][1..] == s[2..] && s[2..][1..] == s[3..] && s[3..][1..] == s[4..];
    var a, b, c, d := frame[i] as int, frame[i + 1] as int, frame[i + 2] as int, frame[i + 3] as int;
    assert FromLittle(s[3..]) == d;
    assert FromLittle(s[2..]) == c + TWO_8 * d;
    assert FromLittle(s[1..]) == b + TWO_8 * c + TWO_16 * d;
    assert FromLittle(s) == a + TWO_8 * b + TWO_16 * c + 0x100_0000 * d;
  }

  /** The four bytes of a word, by shifting. */
  lemma WordBytes(a: int, b: int, c: int, d: int)
    requires 0 <= a < TWO_8 && 0 <= b < TWO_8 && 0 <= c < TWO_8 && 0 <= d < TWO_8
    ensures var x := a + TWO_8 * b + TWO_16 * c + 0x100_0000 * d;
            && 0 <= x < TWO_32
            && Byte(x / 0x100_0000) as int == d && Byte(x / 0x1_0000) as int == c
            && Byte(x / 0x100) as int == b && Byte(x) as int == a
  {
    var x := a + TWO_8 * b + TWO_16 * c + 0x100_0000 * d;
    assert x / 0x100_0000 == d && x / 0x1_0000 == c + TWO_8 * d && x / 0x100 == b + TWO_8 * c + TWO_16 * d;
  }

  /** The text of the loopback address 127.0.0.1 on the dashboard. */
  lemma LoopbackShownReversed()
    ensures IPString(IPFromUint32(MemoryWord([127, 0, 0, 1], 0))) == "1.0.0.127"
  {
    DisplayedAddressIsReversed([127, 0, 0, 1], 0);
    hide MemoryWord, IPFromUint32;
    assert Decimal(12) == "12" && Decimal(127) == "127" && Decimal(0) == "0" && Decimal(1) == "1";
  }
}
