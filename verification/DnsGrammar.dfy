/**
 * The payloads ParseDNS accepts, described by their wire form instead of by the parser: a
 * 12-byte header (RFC 1035 section 4.1.1), then QDCOUNT questions (section 4.1.2), then anything.
 */
module DnsGrammar {
  import opened Base
  import opened Dns

  /** A question on the wire; the terminator is the root label or the first byte of a pointer. */
  datatype WireQuestion = WireQuestion(labels: seq<Octets>, terminator: uint8, qtype: uint16, qclass: uint16)

  /** Length bytes 0x40..0xBF are reserved by RFC 1035 section 3.1 but accepted by the code. */
  predicate AcceptedLabel(part: Octets) {
    1 <= |part| < COMPRESSION
  }

  predicate AcceptedLabels(labels: seq<Octets>) {
    forall i | 0 <= i < |labels| :: AcceptedLabel(labels[i])
  }

  predicate Accepted(w: WireQuestion) {
    && AcceptedLabels(w.labels)
    && (w.terminator == 0 || w.terminator as int >= COMPRESSION)
  }

  predicate AllAccepted(ws: seq<WireQuestion>) {
    forall i | 0 <= i < |ws| :: Accepted(ws[i])
  }

  function LabelBytes(labels: seq<Octets>): Octets
    requires AcceptedLabels(labels)
  {
    if labels == [] then [] else [|labels[0]| as uint8] + labels[0] + LabelBytes(labels[1..])
  }

  function Word(x: uint16): Octets {
    [(x / TWO_8) as uint8, (x % TWO_8) as uint8]
  }

  function NameBytes(w: WireQuestion): Octets
    requires Accepted(w)
  {
    LabelBytes(w.labels) + [w.terminator]
  }

  function QuestionBytes(w: WireQuestion): Octets
    requires Accepted(w)
  {
    NameBytes(w) + (Word(w.qtype) + Word(w.qclass))
  }

  function SectionBytes(ws: seq<WireQuestion>): Octets
    requires AllAccepted(ws)
  {
    if ws == [] then [] else QuestionBytes(ws[0]) + SectionBytes(ws[1..])
  }

  /** s occurs in p at offset. */
  predicate At(p: Octets, offset: nat, s: Octets) {
    offset + |s| <= |p| && p[offset..offset + |s|] == s
  }

  /** p is a header announcing |ws| > 0 questions, the wire form of ws, and arbitrary further bytes. */
  predicate Decomposes(p: Octets, ws: seq<WireQuestion>) {
    && |p| >= HEADER_LENGTH
    && |ws| == QuestionCount(p) > 0
    && AllAccepted(ws)
    && At(p, HEADER_LENGTH, SectionBytes(ws))
  }

  function Meaning(w: WireQuestion): DNSQuestion {
    DNSQuestion(Join(w.labels), w.qtype, w.qclass)
  }

  function Meanings(ws: seq<WireQuestion>): seq<DNSQuestion> {
    seq(|ws|, i requires 0 <= i < |ws| => Meaning(ws[i]))
  }

  // ------------------------------------------------------------- completeness

  lemma AtSplit(p: Octets, offset: nat, a: Octets, b: Octets)
    ensures At(p, offset, a + b) <==> At(p, offset, a) && At(p, offset + |a|, b)
  {
    if At(p, offset, a + b) {
      assert p[offset..offset + |a|] == (a + b)[..|a|] == a;
      assert p[offset + |a|..offset + |a| + |b|] == (a + b)[|a|..] == b;
    }
    if At(p, offset, a) && At(p, offset + |a|, b) {
      assert p[offset..offset + |a + b|] == p[offset..offset + |a|] + p[offset + |a|..offset + |a| + |b|];
    }
  }

  lemma AtFirst(p: Octets, offset: nat, b: uint8, rest: Octets)
    requires At(p, offset, [b] + rest)
    ensures offset < |p| && p[offset] == b && At(p, offset + 1, rest)
  {
    AtSplit(p, offset, [b], rest);
    assert p[offset..offset + 1][0] == b;
  }

  lemma AtByte(p: Octets, offset: nat)
    requires offset < |p|
    ensures At(p, offset, [p[offset]])
  {
    assert p[offset..offset + 1] == [p[offset]];
  }

  lemma AtMeans(p: Octets, offset: nat, s: Octets)
    requires At(p, offset, s)
    ensures offset + |s| <= |p| && p[offset..offset + |s|] == s
  {
  }

  lemma AtSlice(p: Octets, i: nat, j: nat)
    requires i <= j <= |p|
    ensures At(p, i, p[i..j])
  {
  }

  lemma WordRead(p: Octets, offset: nat, x: uint16)
    ensures At(p, offset, Word(x)) <==> offset + 2 <= |p| && BigEndian16(p, offset) == x
  {
    if offset + 2 <= |p| {
      assert p[offset..offset + 2] == [p[offset], p[offset + 1]];
    }
  }

  lemma {:induction false} ScanComplete(p: Octets, offset: nat, labels: seq<Octets>, terminator: uint8)
    requires AcceptedLabels(labels)
    requires terminator == 0 || terminator as int >= COMPRESSION
    requires At(p, offset, LabelBytes(labels) + [terminator])
    requires offset + |LabelBytes(labels)| + 1 < |p|
    ensures ScanName(p, offset) == Scanned(labels, offset + |LabelBytes(labels)| + 1)
    decreases |labels|
  {
    hide At;
    if labels == [] {
      assert LabelBytes(labels) + [terminator] == [terminator] + [];
      AtFirst(p, offset, terminator, []);
    } else {
      var n, part, rest := |labels[0]|, labels[0], LabelBytes(labels[1..]) + [terminator];
      assert LabelBytes(labels) + [terminator] == [n as uint8] + (part + rest);
      AtFirst(p, offset, n as uint8, part + rest);
      AtSplit(p, offset + 1, part, rest);
      AtMeans(p, offset + 1, part);
      ScanComplete(p, offset + 1 + n, labels[1..], terminator);
      assert labels == [part] + labels[1..];
    }
  }

  /** A question read at offset: the name scan, then the two words behind it. */
  lemma QuestionAt(p: Octets, offset: nat, w: WireQuestion)
    requires Accepted(w) && At(p, offset, QuestionBytes(w))
    ensures var next := offset + |NameBytes(w)|;
            && ScanName(p, offset) == Scanned(w.labels, next)
            && next + 4 == offset + |QuestionBytes(w)| <= |p|
            && p[next - 1] == w.terminator
            && BigEndian16(p, next) == w.qtype
            && BigEndian16(p, next + 2) == w.qclass
  {
    hide ScanName, LabelBytes, BigEndian16;
    var next := offset + |NameBytes(w)|;
    AtSplit(p, offset, NameBytes(w), Word(w.qtype) + Word(w.qclass));
    AtSplit(p, next, Word(w.qtype), Word(w.qclass));
    WordRead(p, next, w.qtype);
    WordRead(p, next + 2, w.qclass);
    ScanComplete(p, offset, w.labels, w.terminator);
    assert p[next - 1] == p[offset..next][|NameBytes(w)| - 1];
  }

  lemma {:induction false} QuestionsComplete(p: Octets, offset: nat, ws: seq<WireQuestion>)
    requires AllAccepted(ws)
    requires At(p, offset, SectionBytes(ws))
    ensures ScanQuestions(p, offset, |ws|) == Some(Meanings(ws))
    ensures ScanEnd(p, offset, |ws|) == offset + |SectionBytes(ws)|
    decreases |ws|
  {
    hide At, QuestionBytes, NameBytes, ScanName, ScanQuestions, ScanEnd, BigEndian16, Join;
    ScanOne(p, offset, |ws|);
    if ws != [] {
      var w := ws[0];
      AtSplit(p, offset, QuestionBytes(w), SectionBytes(ws[1..]));
      QuestionAt(p, offset, w);
      QuestionsComplete(p, offset + |QuestionBytes(w)|, ws[1..]);
      assert Meanings(ws) == [Meaning(w)] + Meanings(ws[1..]);
    }
  }

  // ---------------------------------------------------------------- soundness

  lemma {:induction false} ScanSound(p: Octets, offset: nat)
    requires ScanName(p, offset).Scanned? && ScanName(p, offset).next < |p|
    ensures var s := ScanName(p, offset);
            && s.next > offset
            && AcceptedLabels(s.labels)
            && (p[s.next - 1] == 0 || p[s.next - 1] as int >= COMPRESSION)
            && At(p, offset, LabelBytes(s.labels) + [p[s.next - 1]])
            && s.next == offset + |LabelBytes(s.labels)| + 1
    decreases |p| - offset
  {
    hide At;
    var n := p[offset] as int;
    if 0 < n < COMPRESSION {
      ScanSound(p, offset + 1 + n);
      SoundStep(p, offset, ScanName(p, offset + 1 + n));
    } else {
      AtByte(p, offset);
      assert LabelBytes([]) + [p[offset]] == [p[offset]];
    }
  }

  /** Putting one more label in front of a name that is already read. */
  lemma SoundStep(p: Octets, offset: nat, t: NameScan)
    requires offset < |p| && 0 < p[offset] as int < COMPRESSION && offset + 1 + p[offset] as int <= |p|
    requires t.Scanned? && 0 < t.next <= |p| && AcceptedLabels(t.labels)
    requires At(p, offset + 1 + p[offset] as int, LabelBytes(t.labels) + [p[t.next - 1]])
    ensures var n := p[offset] as int;
            var labels := [p[offset + 1..offset + 1 + n]] + t.labels;
            && AcceptedLabels(labels)
            && |LabelBytes(labels)| == 1 + n + |LabelBytes(t.labels)|
            && At(p, offset, LabelBytes(labels) + [p[t.next - 1]])
  {
    hide At;
    var n := p[offset] as int;
    var part := p[offset + 1..offset + 1 + n];
    var labels, rest := [part] + t.labels, LabelBytes(t.labels) + [p[t.next - 1]];
    assert labels[1..] == t.labels;
    AtByte(p, offset);
    AtSlice(p, offset + 1, offset + 1 + n);
    AtSplit(p, offset + 1, part, rest);
    AtSplit(p, offset, [p[offset]], part + rest);
    assert LabelBytes(labels) + [p[t.next - 1]] == [p[offset]] + (part + rest);
  }

  function WireQuestionAt(p: Octets, s: NameScan): WireQuestion
    requires s.Scanned? && 0 < s.next && s.next + 4 <= |p|
  {
    WireQuestion(s.labels, p[s.next - 1], BigEndian16(p, s.next), BigEndian16(p, s.next + 2))
  }

  lemma QuestionSound(p: Octets, offset: nat)
    requires ScanName(p, offset).Scanned? && ScanName(p, offset).next + 4 <= |p|
    ensures var s := ScanName(p, offset);
            && 0 < s.next
            && var w := WireQuestionAt(p, s);
            && Accepted(w)
            && At(p, offset, QuestionBytes(w))
            && s.next + 4 == offset + |QuestionBytes(w)|
  {
    ScanSound(p, offset);
    hide At, LabelBytes;
    var s := ScanName(p, offset);
    var w := WireQuestionAt(p, s);
    WordRead(p, s.next, w.qtype);
    WordRead(p, s.next + 2, w.qclass);
    AtSplit(p, s.next, Word(w.qtype), Word(w.qclass));
    AtSplit(p, offset, NameBytes(w), Word(w.qtype) + Word(w.qclass));
  }

  lemma SectionCons(w: WireQuestion, tail: seq<WireQuestion>)
    requires Accepted(w) && AllAccepted(tail)
    ensures AllAccepted([w] + tail)
    ensures SectionBytes([w] + tail) == QuestionBytes(w) + SectionBytes(tail)
  {
    hide QuestionBytes, Accepted;
    assert ([w] + tail)[1..] == tail;
  }

  /** The decomposition read off a successful parse. */
  lemma {:induction false} QuestionsSound(p: Octets, offset: nat, n: nat) returns (ws: seq<WireQuestion>)
    requires offset <= |p|
    requires ScanQuestions(p, offset, n).Some?
    ensures |ws| == n && AllAccepted(ws) && At(p, offset, SectionBytes(ws))
    decreases n
  {
    if n == 0 {
      ws := [];
    } else {
      hide At, QuestionBytes, WireQuestionAt, Accepted, AllAccepted, SectionBytes, ScanName, Join;
      QuestionSound(p, offset);
      var s := ScanName(p, offset);
      var w := WireQuestionAt(p, s);
      var tail := QuestionsSound(p, s.next + 4, n - 1);
      SectionCons(w, tail);
      AtSplit(p, offset, QuestionBytes(w), SectionBytes(tail));
      ws := [w] + tail;
    }
  }

  // ------------------------------------------------------------ main theorems

  /** Every decomposition is what the parser returns, so a result is never ambiguous. */
  lemma ParseReturnsDecomposition(p: Octets, ws: seq<WireQuestion>)
    requires Decomposes(p, ws)
    ensures Parse(p) == Some(DNSResponse(Meanings(ws), ResponseCode(p), IsResponse(p)))
  {
    QuestionsComplete(p, HEADER_LENGTH, ws);
  }

  /** ParseDNS accepts exactly the payloads that decompose. */
  lemma ParseAcceptsIffDecomposes(p: Octets)
    ensures Parse(p).Some? <==> exists ws :: Decomposes(p, ws)
  {
    if Parse(p).Some? {
      var ws := QuestionsSound(p, HEADER_LENGTH, QuestionCount(p));
      assert Decomposes(p, ws);
    }
    if ws :| Decomposes(p, ws) {
      ParseReturnsDecomposition(p, ws);
    }
  }

  lemma {:induction false} SectionUnique(p: Octets, offset: nat, ws: seq<WireQuestion>, ws': seq<WireQuestion>)
    requires |ws| == |ws'|
    requires AllAccepted(ws) && AllAccepted(ws')
    requires At(p, offset, SectionBytes(ws)) && At(p, offset, SectionBytes(ws'))
    ensures ws == ws'
    decreases |ws|
  {
    hide At, QuestionBytes, NameBytes;
    if ws != [] {
      AtSplit(p, offset, QuestionBytes(ws[0]), SectionBytes(ws[1..]));
      AtSplit(p, offset, QuestionBytes(ws'[0]), SectionBytes(ws'[1..]));
      QuestionAt(p, offset, ws[0]);
      QuestionAt(p, offset, ws'[0]);
      SectionUnique(p, offset + |QuestionBytes(ws[0])|, ws[1..], ws'[1..]);
      assert ws == [ws[0]] + ws[1..] && ws' == [ws'[0]] + ws'[1..];
    }
  }

  lemma DecompositionUnique(p: Octets, ws: seq<WireQuestion>, ws': seq<WireQuestion>)
    requires Decomposes(p, ws) && Decomposes(p, ws')
    ensures ws == ws'
  {
    SectionUnique(p, HEADER_LENGTH, ws, ws');
  }

  /** Appending bytes to an accepted payload changes nothing. */
  lemma ParseStableUnderExtension(p: Octets, more: Octets)
    requires Parse(p).Some?
    ensures Parse(p + more) == Parse(p)
  {
    ParseAcceptsIffDecomposes(p);
    var ws :| Decomposes(p, ws);
    var q := p + more;
    assert q[..|p|] == p;
    assert BigEndian16(q, 2) == BigEndian16(p, 2) && BigEndian16(q, 4) == BigEndian16(p, 4);
    var end := HEADER_LENGTH + |SectionBytes(ws)|;
    assert q[HEADER_LENGTH..end] == p[HEADER_LENGTH..end];
    ParseReturnsDecomposition(p, ws);
    ParseReturnsDecomposition(q, ws);
  }

  /** Where the question section of an accepted payload ends. */
  function SectionEnd(p: Octets): nat
    requires |p| >= HEADER_LENGTH
  {
    ScanEnd(p, HEADER_LENGTH, QuestionCount(p))
  }

  /** Of an accepted payload exactly the prefixes that reach the end of the section are accepted. */
  lemma ParsePrefixIff(p: Octets, n: nat)
    requires Parse(p).Some? && n <= |p|
    ensures Parse(p[..n]).Some? <==> n >= SectionEnd(p)
    ensures n >= SectionEnd(p) ==> Parse(p[..n]) == Parse(p)
  {
    ParseAcceptsIffDecomposes(p);
    var ws :| Decomposes(p, ws);
    QuestionsComplete(p, HEADER_LENGTH, ws);
    var q := p[..n];
    var end := HEADER_LENGTH + |SectionBytes(ws)|;
    if n >= end {
      assert BigEndian16(q, 2) == BigEndian16(p, 2) && BigEndian16(q, 4) == BigEndian16(p, 4);
      assert q[HEADER_LENGTH..end] == p[HEADER_LENGTH..end];
      ParseReturnsDecomposition(p, ws);
      ParseReturnsDecomposition(q, ws);
    }
    if Parse(q).Some? {
      ParseAcceptsIffDecomposes(q);
      var ws' :| Decomposes(q, ws');
      PrefixDecomposition(p, n, ws');
      DecompositionUnique(p, ws, ws');
    }
  }

  lemma PrefixDecomposition(p: Octets, n: nat, ws: seq<WireQuestion>)
    requires n <= |p| && Decomposes(p[..n], ws)
    ensures Decomposes(p, ws)
  {
    var end := HEADER_LENGTH + |SectionBytes(ws)|;
    assert p[..n][4] == p[4] && p[..n][5] == p[5];
    hide SectionBytes, AllAccepted;
    assert p[..n][HEADER_LENGTH..end] == SectionBytes(ws);
    assert p[HEADER_LENGTH..end] == p[..n][HEADER_LENGTH..end];
  }

  // ---------------------------------------------------------- byte accounting

  /** Wire size of a question, computed from the name the parser reports. */
  function QuestionSize(q: DNSQuestion): nat {
    (if q.name == [] then 1 else |q.name| + 2) + 4
  }

  function TotalSize(qs: seq<DNSQuestion>): nat {
    if qs == [] then 0 else QuestionSize(qs[0]) + TotalSize(qs[1..])
  }

  lemma {:induction false} LabelBytesSnoc(labels: seq<Octets>, part: Octets)
    requires AcceptedLabels(labels) && AcceptedLabel(part)
    ensures AcceptedLabels(labels + [part])
    ensures LabelBytes(labels + [part]) == LabelBytes(labels) + [|part| as uint8] + part
    decreases |labels|
  {
    if labels == [] {
      assert ([] + [part])[1..] == [];
    } else {
      assert (labels + [part])[1..] == labels[1..] + [part];
      LabelBytesSnoc(labels[1..], part);
    }
  }

  lemma {:induction false} JoinLength(labels: seq<Octets>)
    requires labels != [] && AcceptedLabels(labels)
    ensures |LabelBytes(labels)| == |Join(labels)| + 1
    decreases |labels|
  {
    assert labels == Front(labels) + [Last(labels)];
    LabelBytesSnoc(Front(labels), Last(labels));
    if |labels| > 1 {
      JoinLength(Front(labels));
    }
  }

  lemma {:induction false} ScanEndIsTotalSize(p: Octets, offset: nat, n: nat)
    requires offset <= |p| && ScanQuestions(p, offset, n).Some?
    ensures |ScanQuestions(p, offset, n).value| == n
    ensures ScanEnd(p, offset, n) == offset + TotalSize(ScanQuestions(p, offset, n).value) <= |p|
    ensures TotalSize(ScanQuestions(p, offset, n).value) >= 5 * n
    decreases n
  {
    if n > 0 {
      var s := ScanName(p, offset);
      var q := DNSQuestion(Join(s.labels), BigEndian16(p, s.next), BigEndian16(p, s.next + 2));
      NameSize(p, offset);
      hide ScanName, Join, BigEndian16, At, LabelBytes;
      ScanEndIsTotalSize(p, s.next + 4, n - 1);
      var rest := ScanQuestions(p, s.next + 4, n - 1).value;
      assert ScanQuestions(p, offset, n) == Some([q] + rest);
      hide ScanQuestions, TotalSize;
      TotalSizeCons(q, rest);
    }
  }

  lemma TotalSizeCons(q: DNSQuestion, rest: seq<DNSQuestion>)
    ensures TotalSize([q] + rest) == QuestionSize(q) + TotalSize(rest)
  {
    assert ([q] + rest)[1..] == rest;
  }

  /** A name occupies its text plus two bytes, or one byte when it has no label. */
  lemma NameSize(p: Octets, offset: nat)
    requires ScanName(p, offset).Scanned? && ScanName(p, offset).next < |p|
    ensures var s := ScanName(p, offset);
            s.next == offset + (if Join(s.labels) == [] then 1 else |Join(s.labels)| + 2)
  {
    ScanSound(p, offset);
    hide ScanName, At;
    var labels := ScanName(p, offset).labels;
    if labels != [] {
      JoinLength(labels);
      assert |LabelBytes(labels)| >= 2;
    }
  }

  /**
   * On success the parser stops exactly 12 + the sizes of the reported questions into the payload,
   * which bounds QDCOUNT by the payload's length.
   */
  lemma ByteAccounting(p: Octets)
    requires Parse(p).Some?
    ensures SectionEnd(p) == 12 + TotalSize(Parse(p).value.questions) <= |p|
    ensures |Parse(p).value.questions| == 256 * p[4] as int + p[5] as int > 0
    ensures 12 + 5 * |Parse(p).value.questions| <= SectionEnd(p)
  {
    ScanEndIsTotalSize(p, HEADER_LENGTH, QuestionCount(p));
  }

  // --------------------------------------------------------------- round trip

  /** RFC 1035 section 3.1: an uncompressed name made of labels of 1 to 63 bytes. */
  predicate Uncompressed(w: WireQuestion) {
    w.terminator == 0 && forall l <- w.labels :: 1 <= |l| <= 63
  }

  /** An RFC 1035 message with the given identifier, flags, record counts and question section. */
  function Encode(id: uint16, flags: uint16, counts: (uint16, uint16, uint16), ws: seq<WireQuestion>,
                  rest: Octets): Octets
    requires |ws| < TWO_16 && AllAccepted(ws)
  {
    Word(id) + Word(flags) + Word(|ws|) + Word(counts.0) + Word(counts.1) + Word(counts.2) + SectionBytes(ws) + rest
  }

  lemma EncodeParseRoundTrip(id: uint16, flags: uint16, counts: (uint16, uint16, uint16), ws: seq<WireQuestion>,
                             rest: Octets)
    requires 1 <= |ws| < TWO_16 && forall w <- ws :: Uncompressed(w)
    ensures AllAccepted(ws)
    ensures Parse(Encode(id, flags, counts, ws, rest)) ==
            Some(DNSResponse(Meanings(ws), (flags % 16) as uint8, flags >= 0x8000))
  {
    forall w | w in ws
      ensures Accepted(w)
    {
      assert forall l <- w.labels :: 1 <= |l| <= 63;
    }
    EncodeParse(id, flags, counts, ws, rest);
  }

  /**
   * The same for every message the code accepts: labels of 1 to 191 bytes, and names that end in a
   * zero byte or in the first byte, 192 or more, of a pointer.
   */
  lemma EncodeParseAccepted(id: uint16, flags: uint16, counts: (uint16, uint16, uint16), ws: seq<WireQuestion>,
                            rest: Octets)
    requires 1 <= |ws| < TWO_16
    requires forall w <- ws :: (w.terminator == 0 || w.terminator >= 192) && forall l <- w.labels :: 1 <= |l| <= 191
    ensures AllAccepted(ws)
    ensures Parse(Encode(id, flags, counts, ws, rest)) ==
            Some(DNSResponse(Meanings(ws), (flags % 16) as uint8, flags >= 0x8000))
  {
    forall w | w in ws
      ensures Accepted(w)
    {
      assert forall l <- w.labels :: 1 <= |l| <= 191;
    }
    EncodeParse(id, flags, counts, ws, rest);
  }

  lemma EncodeParse(id: uint16, flags: uint16, counts: (uint16, uint16, uint16), ws: seq<WireQuestion>, rest: Octets)
    requires 1 <= |ws| < TWO_16 && AllAccepted(ws)
    ensures Parse(Encode(id, flags, counts, ws, rest)) ==
            Some(DNSResponse(Meanings(ws), (flags % 16) as uint8, flags >= 0x8000))
  {
    var p := Encode(id, flags, counts, ws, rest);
    assert p[2..4] == Word(flags);
    assert p[4..6] == Word(|ws|);
    assert p[HEADER_LENGTH..HEADER_LENGTH + |SectionBytes(ws)|] == SectionBytes(ws);
    ParseReturnsDecomposition(p, ws);
  }

  /** Fewer than 12 bytes, or no question announced: nothing is reported. */
  lemma NothingReported(p: Octets)
    requires |p| < 12 || (p[4] == 0 && p[5] == 0)
    ensures Parse(p) == None
  {
  }

  /** Labels are joined by the byte 46, a dot. */
  lemma JoinDots(labels: seq<Octets>, part: Octets)
    ensures Join([part]) == part
    ensures labels != [] ==> Join(labels + [part]) == Join(labels) + [46] + part
  {
    FrontLast(labels, part);
  }

  /** Cutting a name at its dots. */
  function Split(name: Octets): seq<Octets>
  {
    if name == [] then [[]]
    else
      var rest := Split(Front(name));
      if Last(name) == DOT then rest + [[]]
      else if rest == [] then [[Last(name)]]
      else Front(rest) + [Last(rest) + [Last(name)]]
  }

  lemma {:induction false} SplitAppend(name: Octets, part: Octets)
    requires DOT !in part
    ensures Split(name + [DOT] + part) == Split(name) + [part]
    decreases |part|
  {
    var whole := name + [DOT] + part;
    if part == [] {
      assert Front(whole) == name && Last(whole) == DOT;
    } else {
      assert Front(whole) == name + [DOT] + Front(part) && Last(whole) == Last(part);
      SplitAppend(name, Front(part));
      assert part == Front(part) + [Last(part)];
    }
  }

  lemma {:induction false} SplitSingle(part: Octets)
    requires DOT !in part
    ensures Split(part) == [part]
    decreases |part|
  {
    if part != [] {
      SplitSingle(Front(part));
      assert part == Front(part) + [Last(part)];
    }
  }

  /** When no label contains a dot, the parsed name determines the labels. */
  lemma {:induction false} SplitJoin(labels: seq<Octets>)
    requires labels != [] && forall l <- labels :: DOT !in l
    ensures Split(Join(labels)) == labels
    decreases |labels|
  {
    if |labels| == 1 {
      SplitSingle(labels[0]);
    } else {
      SplitJoin(Front(labels));
      SplitAppend(Join(Front(labels)), Last(labels));
      assert labels == Front(labels) + [Last(labels)];
    }
  }

  // ------------------------------------------------- compressed names diverge

  /** A question whose name ends in the pointer hi, lo, as RFC 1035 section 4.1.4 lays it out. */
  function CompressedBytes(labels: seq<Octets>, hi: uint8, lo: uint8, qtype: uint16, qclass: uint16): Octets
    requires AcceptedLabels(labels)
  {
    LabelBytes(labels) + [hi] + ([lo] + Word(qtype) + Word(qclass))
  }

  /** What the code reports for it: the name cut at the pointer, type and class read one byte early. */
  function Misread(labels: seq<Octets>, lo: uint8, qtype: uint16, qclass: uint16): DNSQuestion {
    DNSQuestion(Join(labels), lo as int * TWO_8 + qtype / TWO_8, qtype % TWO_8 * TWO_8 + qclass / TWO_8)
  }

  /** Type and class read one byte early. */
  lemma ShiftedWords(p: Octets, o: nat, labels: seq<Octets>, lo: uint8, qtype: uint16, qclass: uint16)
    requires At(p, o, [lo] + Word(qtype) + Word(qclass))
    ensures o + 5 <= |p|
    ensures DNSQuestion(Join(labels), BigEndian16(p, o), BigEndian16(p, o + 2)) == Misread(labels, lo, qtype, qclass)
  {
    var rest := [lo] + Word(qtype) + Word(qclass);
    assert rest == p[o..o + 5];
    assert p[o] == rest[0] && p[o + 1] == rest[1] && p[o + 2] == rest[2] && p[o + 3] == rest[3];
  }

  lemma CompressedQuestion(p: Octets, offset: nat, labels: seq<Octets>, hi: uint8, lo: uint8,
                           qtype: uint16, qclass: uint16, n: nat)
    requires AcceptedLabels(labels) && hi as int >= COMPRESSION
    requires At(p, offset, CompressedBytes(labels, hi, lo, qtype, qclass))
    ensures ScanQuestions(p, offset, n + 1) ==
            Prepend([Misread(labels, lo, qtype, qclass)],
                    ScanQuestions(p, offset + |CompressedBytes(labels, hi, lo, qtype, qclass)| - 1, n))
  {
    hide *;
    var o := CompressedParts(p, offset, labels, hi, lo, qtype, qclass);
    ShiftedWords(p, o, labels, lo, qtype, qclass);
    ScanComplete(p, offset, labels, hi);
    ScanOne(p, offset, n + 1);
  }

  /** o is the offset behind the pointer's first byte. */
  lemma CompressedParts(p: Octets, offset: nat, labels: seq<Octets>, hi: uint8, lo: uint8,
                        qtype: uint16, qclass: uint16) returns (o: nat)
    requires AcceptedLabels(labels) && At(p, offset, CompressedBytes(labels, hi, lo, qtype, qclass))
    ensures At(p, offset, LabelBytes(labels) + [hi]) && At(p, o, [lo] + Word(qtype) + Word(qclass))
    ensures o == offset + |LabelBytes(labels) + [hi]|
    ensures o + 4 == offset + |CompressedBytes(labels, hi, lo, qtype, qclass)| - 1
  {
    hide At, LabelBytes;
    var name, rest := LabelBytes(labels) + [hi], [lo] + Word(qtype) + Word(qclass);
    o := offset + |name|;
    assert CompressedBytes(labels, hi, lo, qtype, qclass) == name + rest && |rest| == 5;
    AtSplit(p, offset, name, rest);
  }

  /** Well-formed questions in front are read as usual. */
  lemma {:induction false} QuestionsThen(p: Octets, offset: nat, ws: seq<WireQuestion>, n: nat)
    requires AllAccepted(ws) && At(p, offset, SectionBytes(ws))
    ensures ScanQuestions(p, offset, |ws| + n) ==
            Prepend(Meanings(ws), ScanQuestions(p, offset + |SectionBytes(ws)|, n))
    decreases |ws|
  {
    hide At, QuestionBytes, NameBytes, ScanName, Join, BigEndian16, Accepted, Prepend;
    var rest := ScanQuestions(p, offset + |SectionBytes(ws)|, n);
    if ws == [] {
      PrependAppend([], [], rest);
    } else {
      var w := ws[0];
      AtSplit(p, offset, QuestionBytes(w), SectionBytes(ws[1..]));
      QuestionAt(p, offset, w);
      QuestionsThen(p, offset + |QuestionBytes(w)|, ws[1..], n);
      assert |ws| + n - 1 == |ws[1..]| + n;
      PrependAppend([Meaning(w)], Meanings(ws[1..]), rest);
      assert Meanings(ws) == [Meaning(w)] + Meanings(ws[1..]);
    }
  }

  /** Names are equal only when no label is missing: joining more labels gives a longer text. */
  lemma JoinPrefix(labels: seq<Octets>, more: seq<Octets>)
    requires AcceptedLabels(labels) && AcceptedLabels(more)
    ensures Join(labels) == Join(labels + more) <==> more == []
  {
    hide Join;
    if more == [] {
      assert labels + more == labels;
    } else {
      assert AcceptedLabels(labels + more);
      LabelBytesAppend(labels, more);
      JoinLength(labels + more);
      if labels == [] {
        JoinNothing();
      } else {
        JoinLength(labels);
      }
    }
  }

  lemma JoinNothing()
    ensures Join([]) == []
  {
  }

  lemma {:induction false} LabelBytesAppend(labels: seq<Octets>, more: seq<Octets>)
    requires AcceptedLabels(labels) && AcceptedLabels(more)
    ensures AcceptedLabels(labels + more)
    ensures LabelBytes(labels + more) == LabelBytes(labels) + LabelBytes(more)
    ensures more != [] ==> |LabelBytes(more)| >= 2
    decreases |labels|
  {
    if labels == [] {
      assert labels + more == more;
    } else {
      assert (labels + more)[1..] == labels[1..] + more;
      LabelBytesAppend(labels[1..], more);
    }
  }

  lemma MisreadRightIff(labels: seq<Octets>, lo: uint8, qtype: uint16, qclass: uint16, more: seq<Octets>)
    requires AcceptedLabels(labels) && AcceptedLabels(more)
    ensures Misread(labels, lo, qtype, qclass) == DNSQuestion(Join(labels + more), qtype, qclass) <==>
            more == [] && qtype == 257 * lo as int && qclass == 257 * lo as int
  {
    JoinPrefix(labels, more);
    hide Join, AcceptedLabels;
    var hi := qtype / TWO_8;
    assert qtype == hi * TWO_8 + qtype % TWO_8 && qclass == qclass / TWO_8 * TWO_8 + qclass % TWO_8;
  }

  lemma CompressedScan(p: Octets, ws: seq<WireQuestion>, labels: seq<Octets>, hi: uint8, lo: uint8,
                       qtype: uint16, qclass: uint16, n: nat)
    requires AllAccepted(ws) && AcceptedLabels(labels) && hi as int >= COMPRESSION
    requires At(p, HEADER_LENGTH, SectionBytes(ws) + CompressedBytes(labels, hi, lo, qtype, qclass))
    ensures var next := HEADER_LENGTH + |SectionBytes(ws) + CompressedBytes(labels, hi, lo, qtype, qclass)| - 1;
            ScanQuestions(p, HEADER_LENGTH, |ws| + 1 + n) ==
            Prepend(Meanings(ws) + [Misread(labels, lo, qtype, qclass)], ScanQuestions(p, next, n))
  {
    hide Join, At, LabelBytes, CompressedBytes, SectionBytes, Misread, Meanings, ScanQuestions, Prepend;
    var section, bytes := SectionBytes(ws), CompressedBytes(labels, hi, lo, qtype, qclass);
    assert |section + bytes| == |section| + |bytes|;
    AtSplit(p, HEADER_LENGTH, section, bytes);
    QuestionsThen(p, HEADER_LENGTH, ws, n + 1);
    CompressedQuestion(p, HEADER_LENGTH + |section|, labels, hi, lo, qtype, qclass, n);
    PrependAppend(Meanings(ws), [Misread(labels, lo, qtype, qclass)],
                  ScanQuestions(p, HEADER_LENGTH + |section| + |bytes| - 1, n));
  }

  /**
   * A payload with a compressed name in any of its questions, behind any accepted ones. RFC 1035
   * section 4.1.4 continues the name with the labels `more` the pointer stands for and puts type
   * and class behind the pointer's second byte. The code cuts the name at the pointer, reads type
   * and class one byte early and goes on with the next question one byte early. What it reports for
   * this question is what the RFC asks for exactly when the pointer adds no label and type and
   * class both repeat the pointer's second byte.
   */
  lemma CompressedNameMisread(p: Octets, ws: seq<WireQuestion>, labels: seq<Octets>, hi: uint8, lo: uint8,
                              qtype: uint16, qclass: uint16, more: seq<Octets>)
    requires |p| >= HEADER_LENGTH && QuestionCount(p) > |ws|
    requires AllAccepted(ws) && AcceptedLabels(labels) && hi as int >= COMPRESSION
    requires At(p, HEADER_LENGTH, SectionBytes(ws) + CompressedBytes(labels, hi, lo, qtype, qclass))
    requires AcceptedLabels(more)
    ensures var next := HEADER_LENGTH + |SectionBytes(ws) + CompressedBytes(labels, hi, lo, qtype, qclass)| - 1;
            var rest := ScanQuestions(p, next, QuestionCount(p) - |ws| - 1);
            var reported := Meanings(ws) + [Misread(labels, lo, qtype, qclass)];
            Parse(p) == if rest.None? then None
                        else Some(DNSResponse(reported + rest.value, ResponseCode(p), IsResponse(p)))
    ensures Misread(labels, lo, qtype, qclass) == DNSQuestion(Join(labels + more), qtype, qclass) <==>
            more == [] && qtype == 257 * lo as int && qclass == 257 * lo as int
  {
    hide *;
    MisreadRightIff(labels, lo, qtype, qclass, more);
    CompressedParse(p, ws, labels, hi, lo, qtype, qclass);
  }

  lemma CompressedParse(p: Octets, ws: seq<WireQuestion>, labels: seq<Octets>, hi: uint8, lo: uint8,
                        qtype: uint16, qclass: uint16)
    requires |p| >= HEADER_LENGTH && QuestionCount(p) > |ws|
    requires AllAccepted(ws) && AcceptedLabels(labels) && hi as int >= COMPRESSION
    requires At(p, HEADER_LENGTH, SectionBytes(ws) + CompressedBytes(labels, hi, lo, qtype, qclass))
    ensures var next := HEADER_LENGTH + |SectionBytes(ws) + CompressedBytes(labels, hi, lo, qtype, qclass)| - 1;
            var rest := ScanQuestions(p, next, QuestionCount(p) - |ws| - 1);
            var reported := Meanings(ws) + [Misread(labels, lo, qtype, qclass)];
            Parse(p) == if rest.None? then None
                        else Some(DNSResponse(reported + rest.value, ResponseCode(p), IsResponse(p)))
  {
    hide SectionBytes, CompressedBytes, QuestionCount, Meanings, Misread, ScanQuestions, Parse, Prepend, At,
         AllAccepted, AcceptedLabels, ResponseCode, IsResponse;
    var count, bytes := QuestionCount(p), SectionBytes(ws) + CompressedBytes(labels, hi, lo, qtype, qclass);
    var reported, next := Meanings(ws) + [Misread(labels, lo, qtype, qclass)], HEADER_LENGTH + |bytes| - 1;
    var n := count - |ws| - 1;
    CompressedScan(p, ws, labels, hi, lo, qtype, qclass, n);
    assert |ws| + 1 + n == count;
    ParseOf(p, count, reported, ScanQuestions(p, next, n));
  }

  lemma ParseOf(p: Octets, count: nat, reported: seq<DNSQuestion>, rest: Option<seq<DNSQuestion>>)
    requires |p| >= HEADER_LENGTH && QuestionCount(p) == count > 0
    requires ScanQuestions(p, HEADER_LENGTH, count) == Prepend(reported, rest)
    ensures Parse(p) == if rest.None? then None
                        else Some(DNSResponse(reported + rest.value, ResponseCode(p), IsResponse(p)))
  {
    hide ScanQuestions, QuestionCount, ResponseCode, IsResponse;
  }

  const COM: Octets := [0x63, 0x6f, 0x6d]
  const WWW: Octets := [0x77, 0x77, 0x77]

  /** Two questions of type A and class IN: com, and www followed by a pointer to com. */
  const COMPRESSED_EXAMPLE: Octets :=
    [0, 0, 0, 0, 0, 2, 0, 0, 0, 0, 0, 0] + [3, 0x63, 0x6f, 0x6d, 0, 0, 1, 0, 1]
    + [3, 0x77, 0x77, 0x77, 0xC0, 12, 0, 1, 0, 1]

  lemma ExampleBytes(w: WireQuestion)
    requires w == WireQuestion([COM], 0, 1, 1)
    ensures SectionBytes([w]) == [3, 0x63, 0x6f, 0x6d, 0, 0, 1, 0, 1]
    ensures CompressedBytes([WWW], 0xC0, 12, 1, 1) == [3, 0x77, 0x77, 0x77, 0xC0, 12, 0, 1, 0, 1]
    ensures Join([COM]) == COM && Join([WWW]) == WWW
  {
    assert [COM][1..] == [] && [WWW][1..] == [] && [w][1..] == [];
    assert LabelBytes([COM]) == [3] + COM && LabelBytes([WWW]) == [3] + WWW;
    assert Word(1) == [0, 1];
    assert QuestionBytes(w) == [3, 0x63, 0x6f, 0x6d, 0, 0, 1, 0, 1];
  }

  lemma NothingLeft(p: Octets, offset: nat, qs: seq<DNSQuestion>)
    ensures ScanQuestions(p, offset, 0) == Some([]) && qs + [] == qs
  {
  }

  /** The second is www.com, type 1, class 1; the code reports www, type 3072, class 256. */
  lemma CompressedExampleMisread()
    ensures Parse(COMPRESSED_EXAMPLE) ==
            Some(DNSResponse([DNSQuestion(COM, 1, 1), DNSQuestion(WWW, 3072, 256)], 0, false))
  {
    var p := COMPRESSED_EXAMPLE;
    var w := WireQuestion([COM], 0, 1, 1);
    ExampleBytes(w);
    hide LabelBytes, SectionBytes, CompressedBytes, Join;
    CompressedNameMisread(p, [w], [WWW], 0xC0, 12, 1, 1, [COM]);
    NothingLeft(p, HEADER_LENGTH + 18, [DNSQuestion(COM, 1, 1), DNSQuestion(WWW, 3072, 256)]);
    assert Misread([WWW], 12, 1, 1) == DNSQuestion(WWW, 3072, 256);
    assert Flags(p) == 0 && ResponseCode(p) == 0 && !IsResponse(p);
    var first, second := DNSQuestion(COM, 1, 1), DNSQuestion(WWW, 3072, 256);
    assert Meanings([w]) == [first];
    assert [first] + [second] == [first, second];
  }
}
