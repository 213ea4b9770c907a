/** internal/monitor/aggregator.go, getFlowKey: conversation keys as real strings. */
module FlowKeys {
  import opened Text
  import opened Packet

  /** fmt.Sprintf("%s-%s-%s") after putting the lexicographically smaller address first. */
  function KeyText(src: string, dst: string, proto: string): string {
    if Less(dst, src) then dst + "-" + (src + "-" + proto) else src + "-" + (dst + "-" + proto)
  }

  function FlowKey(evt: PacketEvent): string {
    KeyText(IPString(IPFromUint32(evt.saddr)), IPString(IPFromUint32(evt.daddr)), ProtocolName(evt.protocol))
  }

  /** A key is the two address texts, the smaller first, and the protocol name, joined by dashes. */
  lemma FlowKeySpelled(evt: PacketEvent) returns (low: string, high: string)
    ensures var s, d := IPString(IPFromUint32(evt.saddr)), IPString(IPFromUint32(evt.daddr));
            (low == s && high == d) || (low == d && high == s)
    ensures !Less(high, low)
    ensures FlowKey(evt) == low + "-" + high + "-" + ProtocolName(evt.protocol)
  {
    hide IPString, IPFromUint32, ProtocolName, Less;
    var s, d := IPString(IPFromUint32(evt.saddr)), IPString(IPFromUint32(evt.daddr));
    LessIsTotal(s, d);
    low, high := if Less(d, s) then d else s, if Less(d, s) then s else d;
    var n := ProtocolName(evt.protocol);
    assert low + ("-" + (high + ("-" + n))) == low + "-" + high + "-" + n;
    assert high + "-" + n == high + ("-" + n);
  }

  predicate SameDirection(e: PacketEvent, e': PacketEvent) {
    e.saddr == e'.saddr && e.daddr == e'.daddr
  }

  predicate OppositeDirection(e: PacketEvent, e': PacketEvent) {
    e.saddr == e'.daddr && e.daddr == e'.saddr
  }

  /** Same unordered address pair and same protocol name. */
  predicate SameConversation(e: PacketEvent, e': PacketEvent) {
    && (SameDirection(e, e') || OppositeDirection(e, e'))
    && ProtocolName(e.protocol) == ProtocolName(e'.protocol)
  }

  lemma SplitKey(a: string, b: string, p: string, a': string, b': string, p': string)
    requires '-' !in a && '-' !in b && '-' !in a' && '-' !in b'
    requires a + "-" + (b + "-" + p) == a' + "-" + (b' + "-" + p')
    ensures a == a' && b == b' && p == p'
  {
    SplitAtSeparator(a, b + "-" + p, a', b' + "-" + p', '-');
    SplitAtSeparator(b, p, b', p', '-');
  }

  lemma KeyTextEqual(a: string, b: string, p: string, a': string, b': string, p': string)
    requires '-' !in a && '-' !in b && '-' !in a' && '-' !in b'
    ensures KeyText(a, b, p) == KeyText(a', b', p') <==>
            p == p' && ((a == a' && b == b') || (a == b' && b == a'))
  {
    LessIsTotal(a, b);
    LessIsTotal(a', b');
    if KeyText(a, b, p) == KeyText(a', b', p') {
      var (x, y) := if Less(b, a) then (b, a) else (a, b);
      var (x', y') := if Less(b', a') then (b', a') else (a', b');
      SplitKey(x, y, p, x', y', p');
    }
  }

  /** Two events share a key iff they belong to the same conversation. */
  lemma FlowKeyEqual(e: PacketEvent, e': PacketEvent)
    ensures FlowKey(e) == FlowKey(e') <==> SameConversation(e, e')
  {
    var s, d := IPFromUint32(e.saddr), IPFromUint32(e.daddr);
    var s', d' := IPFromUint32(e'.saddr), IPFromUint32(e'.daddr);
    IPStringAlphabet(s);
    IPStringAlphabet(d);
    IPStringAlphabet(s');
    IPStringAlphabet(d');
    KeyTextEqual(IPString(s), IPString(d), ProtocolName(e.protocol),
                   IPString(s'), IPString(d'), ProtocolName(e'.protocol));
    if FlowKey(e) == FlowKey(e') {
      if IPString(s) == IPString(s') && IPString(d) == IPString(d') {
        AddressTextInjective(e.saddr, e'.saddr);
        AddressTextInjective(e.daddr, e'.daddr);
      } else {
        AddressTextInjective(e.saddr, e'.daddr);
        AddressTextInjective(e.daddr, e'.saddr);
      }
    }
  }

  /** The direction test of processEvent compares the event with the flow's stored addresses. */
  lemma DirectionTest(e: PacketEvent, first: PacketEvent)
    ensures (e.saddr == IPToUint32(IPFromUint32(first.saddr)) && e.daddr == IPToUint32(IPFromUint32(first.daddr)))
            <==> SameDirection(e, first)
  {
    IPRoundTrip(first.saddr);
    IPRoundTrip(first.daddr);
  }

  /** In one conversation, a packet that is not forward is a true reverse packet. */
  lemma NotForwardIsReverse(e: PacketEvent, first: PacketEvent)
    requires FlowKey(e) == FlowKey(first)
    ensures !SameDirection(e, first) ==> OppositeDirection(e, first)
    ensures first.saddr == first.daddr ==> SameDirection(e, first)
  {
    FlowKeyEqual(e, first);
  }
}
