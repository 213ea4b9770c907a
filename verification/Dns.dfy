/** internal/parser/dns.go: the question-section parser over an untrusted payload. */
module Dns {
  import opened Base

  const HEADER_LENGTH: nat := 12
  /** First length byte whose two top bits are set: `length & 0xC0 == 0xC0`. */
  const COMPRESSION: int := 0xC0
  const DOT: uint8 := 0x2E

  datatype DNSQuestion = DNSQuestion(name: Octets, qtype: uint16, qclass: uint16)

  datatype DNSResponse = DNSResponse(questions: seq<DNSQuestion>, responseCode: uint8, isResponse: bool)

  /** Labels joined with dots, the way the code accumulates `domain`. */
  function Join(labels: seq<Octets>): Octets {
    if labels == [] then []
    else if |labels| == 1 then labels[0]
    else Join(Front(labels)) + [DOT] + Last(labels)
  }

  /** Outcome of reading one name: the Go code's -1 is Invalid here. */
  datatype NameScan = Invalid | Scanned(labels: seq<Octets>, next: nat)

  function Cons(part: Octets, rest: NameScan): NameScan {
    if rest.Scanned? then Scanned([part] + rest.labels, rest.next) else Invalid
  }

  /**
   * What the name loop does from offset on. A pointer ends the name and only its first byte is
   * consumed; running out of input ends the name without an error.
   */
  function ScanName(p: Octets, offset: nat): NameScan
    decreases |p| - offset
  {
    if offset >= |p| then Scanned([], offset)
    else
      var length := p[offset] as int;
      if length >= COMPRESSION then
        if offset + 1 >= |p| then Invalid else Scanned([], offset + 1)
      else if length == 0 then Scanned([], offset + 1)
      else if offset + 1 + length > |p| then Invalid
      else Cons(p[offset + 1..offset + 1 + length], ScanName(p, offset + 1 + length))
  }

  function Prepend(done: seq<DNSQuestion>, rest: Option<seq<DNSQuestion>>): Option<seq<DNSQuestion>> {
    if rest.Some? then Some(done + rest.value) else None
  }

  lemma PrependAppend(a: seq<DNSQuestion>, b: seq<DNSQuestion>, rest: Option<seq<DNSQuestion>>)
    ensures Prepend(a, Prepend(b, rest)) == Prepend(a + b, rest)
    ensures Prepend([], rest) == rest
    ensures rest.None? ==> Prepend(a, rest).None?
    ensures Prepend(a, Some([])) == Some(a)
  {
    assert a + [] == a;
    if rest.Some? {
      assert a + (b + rest.value) == a + b + rest.value;
      assert [] + rest.value == rest.value;
    }
  }

  /** n consecutive questions starting at offset. */
  function ScanQuestions(p: Octets, offset: nat, n: nat): Option<seq<DNSQuestion>>
    decreases n
  {
    if n == 0 then Some([])
    else
      var name := ScanName(p, offset);
      if name.Invalid? || name.next + 4 > |p| then None
      else
        var q := DNSQuestion(Join(name.labels), BigEndian16(p, name.next), BigEndian16(p, name.next + 2));
        Prepend([q], ScanQuestions(p, name.next + 4, n - 1))
  }

  /** The offset behind n questions that start at offset; where scanning stops early, how far it got. */
  function ScanEnd(p: Octets, offset: nat, n: nat): nat
    decreases n
  {
    if n == 0 then offset
    else
      var name := ScanName(p, offset);
      if name.Invalid? || name.next + 4 > |p| then offset else ScanEnd(p, name.next + 4, n - 1)
  }

  /** One question off the front. */
  lemma ScanOne(p: Octets, offset: nat, n: nat)
    ensures n == 0 ==> ScanQuestions(p, offset, n) == Some([]) && ScanEnd(p, offset, n) == offset
    ensures n > 0 ==>
              var name := ScanName(p, offset);
              if name.Invalid? || name.next + 4 > |p| then ScanQuestions(p, offset, n) == None
              else
                var q := DNSQuestion(Join(name.labels), BigEndian16(p, name.next), BigEndian16(p, name.next + 2));
                && ScanQuestions(p, offset, n) == Prepend([q], ScanQuestions(p, name.next + 4, n - 1))
                && ScanEnd(p, offset, n) == ScanEnd(p, name.next + 4, n - 1)
  {
  }

  function Flags(p: Octets): uint16
    requires |p| >= HEADER_LENGTH
  {
    BigEndian16(p, 2)
  }

  /** `flags & 0x8000 != 0`. */
  predicate IsResponse(p: Octets)
    requires |p| >= HEADER_LENGTH
  {
    Flags(p) >= 0x8000
  }

  /** `flags & 0x0F`. */
  function ResponseCode(p: Octets): uint8
    requires |p| >= HEADER_LENGTH
  {
    (Flags(p) % 16) as uint8
  }

  function QuestionCount(p: Octets): uint16
    requires |p| >= HEADER_LENGTH
  {
    BigEndian16(p, 4)
  }

  function Parse(p: Octets): Option<DNSResponse> {
    if |p| < HEADER_LENGTH || QuestionCount(p) == 0 then None
    else
      var questions := ScanQuestions(p, HEADER_LENGTH, QuestionCount(p));
      if questions.None? then None
      else Some(DNSResponse(questions.value, ResponseCode(p), IsResponse(p)))
  }

  // ------------------------------------------------------------- the two loops

  function ConsAll(labels: seq<Octets>, rest: NameScan): NameScan {
    if rest.Scanned? then Scanned(labels + rest.labels, rest.next) else Invalid
  }

  lemma ConsAllAppend(labels: seq<Octets>, part: Octets, rest: NameScan)
    ensures ConsAll(labels, Cons(part, rest)) == ConsAll(labels + [part], rest)
    ensures ConsAll([], rest) == rest
  {
    if rest.Scanned? {
      assert labels + ([part] + rest.labels) == labels + [part] + rest.labels;
      assert [] + rest.labels == rest.labels;
    }
  }

  /** The second loop of parseDomainName. */
  method JoinLabels(labels: seq<Octets>) returns (domain: Octets)
    ensures domain == Join(labels)
  {
    domain := [];
    var i := 0;
    while i < |labels|
      invariant 0 <= i <= |labels|
      invariant domain == Join(labels[..i])
    {
      assert labels[..i + 1] == labels[..i] + [labels[i]];
      FrontLast(labels[..i], labels[i]);
      if i > 0 {
        domain := domain + [DOT];
      }
      domain := domain + labels[i];
      i := i + 1;
    }
    assert labels[..i] == labels;
  }

  /** Returns ([], -1) when the name is malformed. */
  method ParseDomainName(payload: Octets, start: nat) returns (domain: Octets, next: int)
    ensures ScanName(payload, start).Invalid? ==> domain == [] && next == -1
    ensures ScanName(payload, start).Scanned? ==>
              domain == Join(ScanName(payload, start).labels) && next == ScanName(payload, start).next
  {
    var labels: seq<Octets> := [];
    var offset := start;
    ghost var whole := ScanName(payload, start);
    ConsAllAppend([], [], whole);
    while offset < |payload|
      invariant start <= offset
      invariant start <= |payload| ==> offset <= |payload|
      invariant whole == ConsAll(labels, ScanName(payload, offset))
      decreases |payload| - offset
    {
      var length := payload[offset] as int;
      if length >= COMPRESSION {
        offset := offset + 1;
        if offset >= |payload| {
          return [], -1;
        }
        assert labels + [] == labels;
        assert whole == Scanned(labels, offset);
        break;
      }
      if length == 0 {
        offset := offset + 1;
        assert labels + [] == labels;
        assert whole == Scanned(labels, offset);
        break;
      }
      if offset + 1 + length > |payload| {
        return [], -1;
      }
      var part := payload[offset + 1..offset + 1 + length];
      offset := offset + 1 + length;
      ConsAllAppend(labels, part, ScanName(payload, offset));
      labels := labels + [part];
    }
    assert labels + [] == labels;
    assert whole == Scanned(labels, offset);
    domain := JoinLabels(labels);
    next := offset;
  }

  /** end is the loop's final offset. */
  method ParseDNS(payload: Octets) returns (r: Option<DNSResponse>, ghost end: nat)
    ensures r == Parse(payload)
    ensures r.Some? ==> end == ScanEnd(payload, HEADER_LENGTH, QuestionCount(payload))
  {
    end := 0;
    hide ScanName, Join, BigEndian16, Prepend, IsResponse, ResponseCode, QuestionCount;
    if |payload| < HEADER_LENGTH {
      return None, end;
    }
    var isResponse := IsResponse(payload);
    var qdcount := QuestionCount(payload);
    if qdcount == 0 {
      return None, end;
    }
    var rcode := ResponseCode(payload);
    var questions;
    questions, end := ParseQuestions(payload, qdcount);
    r := if questions.None? then None else Some(DNSResponse(questions.value, rcode, isResponse));
  }

  /** The loop over the question section. */
  method ParseQuestions(payload: Octets, qdcount: nat) returns (r: Option<seq<DNSQuestion>>, ghost end: nat)
    ensures r == ScanQuestions(payload, HEADER_LENGTH, qdcount)
    ensures r.Some? ==> end == ScanEnd(payload, HEADER_LENGTH, qdcount)
  {
    hide ScanName, Join, BigEndian16, Prepend, ScanQuestions, ScanEnd;
    end := 0;
    var offset := HEADER_LENGTH;
    var questions: seq<DNSQuestion> := [];
    var i := 0;
    ghost var all := ScanQuestions(payload, HEADER_LENGTH, qdcount);
    PrependAppend([], [], all);
    while i < qdcount
      invariant 0 <= i <= qdcount && offset >= 0
      invariant all == Prepend(questions, ScanQuestions(payload, offset, qdcount - i))
      invariant ScanEnd(payload, HEADER_LENGTH, qdcount) == ScanEnd(payload, offset, qdcount - i)
    {
      var name, newOffset := ParseDomainName(payload, offset);
      ScanOne(payload, offset, qdcount - i);
      if newOffset == -1 || newOffset + 4 > |payload| {
        PrependAppend(questions, [], None);
        return None, end;
      }
      var q := DNSQuestion(name, BigEndian16(payload, newOffset), BigEndian16(payload, newOffset + 2));
      PrependAppend(questions, [q], ScanQuestions(payload, newOffset + 4, qdcount - i - 1));
      questions := questions + [q];
      offset := newOffset + 4;
      i := i + 1;
    }
    ScanOne(payload, offset, 0);
    PrependAppend(questions, [], None);
    r, end := Some(questions), offset;
  }

  // ------------------------------------------------------------ display names

  function GetQueryType(qtype: uint16): string {
    match qtype
    case 1 => "A"
    case 2 => "NS"
    case 5 => "CNAME"
    case 6 => "SOA"
    case 12 => "PTR"
    case 15 => "MX"
    case 16 => "TXT"
    case 28 => "AAAA"
    case 33 => "SRV"
    case 255 => "ANY"
    case _ => "?"
  }

  function GetResponseCode(rcode: uint8): string {
    match rcode
    case 0 => "NoError"
    case 1 => "FormErr"
    case 2 => "ServFail"
    case 3 => "NXDomain"
    case 4 => "NotImpl"
    case 5 => "Refused"
    case _ => "?"
  }

  /** The query types by number. */
  lemma QueryTypes(t: uint16)
    ensures GetQueryType(1) == "A" && GetQueryType(2) == "NS" && GetQueryType(5) == "CNAME"
    ensures GetQueryType(6) == "SOA" && GetQueryType(12) == "PTR" && GetQueryType(15) == "MX"
    ensures GetQueryType(16) == "TXT" && GetQueryType(28) == "AAAA" && GetQueryType(33) == "SRV"
    ensures GetQueryType(255) == "ANY"
    ensures t != 1 && t != 2 && t != 5 && t != 6 && t != 12 && t != 15 && t != 16 && t != 28 && t != 33 && t != 255 ==>
              GetQueryType(t) == "?"
  {
  }

  /** The response codes by number. */
  lemma ResponseCodes(c: uint8)
    ensures GetResponseCode(0) == "NoError" && GetResponseCode(1) == "FormErr" && GetResponseCode(2) == "ServFail"
    ensures GetResponseCode(3) == "NXDomain" && GetResponseCode(4) == "NotImpl" && GetResponseCode(5) == "Refused"
    ensures c > 5 ==> GetResponseCode(c) == "?"
  {
  }

  /** The failure test on code names singles out exactly the non-zero codes, unknown ones included. */
  lemma FailureCode(rcode: uint8)
    ensures GetResponseCode(rcode) != "NoError" && GetResponseCode(rcode) != "" <==> rcode != 0
  {
    assert "NoError"[0] == 'N' && |"NoError"| == 7;
    assert "NXDomain"[1] == 'X' && |"NXDomain"| == 8;
    assert "NotImpl"[2] == 't' && "NoError"[2] == 'E';
    assert "FormErr"[0] == 'F';
    assert "Refused"[0] == 'R';
  }
}
