/** net/dns.c: names on the wire and the handler of responses (sections 4.1.1 to 4.1.4 of RFC 1035). */
module Dns {
  import opened Base

  type Bytes = seq<byte>

  const DOT: byte := 46
  const DNS_TYPE_A: int := 1

  // ---- names

  type Label = Bytes

  predicate LabelOk(l: Label) { 0 < |l| <= 63 && DOT !in l && 0 !in l }

  predicate LabelsOk(ls: seq<Label>) { forall i :: 0 <= i < |ls| ==> LabelOk(ls[i]) }

  /** The hostname as it is written: labels with dots between them. */
  function Hostname(ls: seq<Label>): Bytes {
    if ls == [] then [] else if |ls| == 1 then ls[0] else ls[0] + [DOT] + Hostname(ls[1..])
  }

  function LabelWire(l: Label): Bytes
    requires |l| <= 255
  {
    [|l| as byte] + l
  }

  /** Labels with their lengths in front, without the root label. */
  function LabelsWire(ls: seq<Label>): Bytes
    requires LabelsOk(ls)
  {
    if ls == [] then [] else LabelWire(ls[0]) + LabelsWire(ls[1..])
  }

  /** A name on the wire. */
  function Wire(ls: seq<Label>): Bytes
    requires LabelsOk(ls)
  {
    LabelsWire(ls) + [0]
  }

  /** What the encoding loop makes of the rest of a hostname, with a label begun. */
  function Encoded(host: Bytes, part: Bytes): Bytes {
    if host == [] then (if part == [] then [] else [|part| % 256] + part) + [0]
    else if host[0] == DOT then [|part| % 256] + part + Encoded(host[1..], [])
    else Encoded(host[1..], part + [host[0]])
  }

  /** dns_encode_name. A label length is stored in one byte; dots that begin, end or follow one another are taken
      as they come. */
  method EncodeName(host: Bytes) returns (buf: Bytes)
    requires CString(host)
    ensures buf == Encoded(host, [])
  {
    hide Encoded;
    buf := [];
    var start, at := 0, 0;
    EncodeStart(host);
    while at < |host|
      invariant start <= at <= |host|
      invariant buf + Encoded(host[at..], host[start..at]) == Encoded(host, [])
    {
      if host[at] == DOT {
        EncodeDot(buf, host, start, at);
        var len := at - start;
        buf := buf + [len % 256];
        buf := buf + host[start..at];
        start := at + 1;
      } else {
        EncodeChar(host, start, at);
      }
      at := at + 1;
    }
    EncodeEnd(buf, host, start);
    var len := at - start;
    if len > 0 {
      buf := buf + [len % 256];
      buf := buf + host[start..at];
    }
    buf := buf + [0];
  }

  lemma EncodeStart(host: Bytes)
    ensures [] + Encoded(host[0..], host[0..0]) == Encoded(host, [])
  {
    assert host[0..] == host && host[0..0] == [];
  }

  lemma EncodeDot(buf: Bytes, host: Bytes, start: nat, at: nat)
    requires start <= at < |host| && host[at] == DOT
    ensures buf + [(at - start) % 256] + host[start..at] + Encoded(host[at + 1..], host[at + 1..at + 1]) == buf + Encoded(host[at..], host[start..at])
  {
    assert host[at..][1..] == host[at + 1..] && host[at + 1..at + 1] == [];
  }

  lemma EncodeChar(host: Bytes, start: nat, at: nat)
    requires start <= at < |host| && host[at] != DOT
    ensures Encoded(host[at + 1..], host[start..at + 1]) == Encoded(host[at..], host[start..at])
  {
    assert host[at..][1..] == host[at + 1..] && host[start..at + 1] == host[start..at] + [host[at]];
  }

  lemma EncodeEnd(buf: Bytes, host: Bytes, start: nat)
    requires start <= |host|
    ensures buf + Encoded(host[|host|..], host[start..|host|]) ==
            (if start == |host| then buf else buf + [(|host| - start) % 256] + host[start..|host|]) + [0]
  {
    var last := host[start..|host|];
    assert host[|host|..] == [];
    if start < |host| {
      assert Encoded([], last) == [|last| % 256] + last + [0];
    } else {
      assert Encoded([], last) == [0];
    }
  }

  lemma {:induction false} EncodedLabel(l: Label, part: Bytes, more: Bytes)
    requires DOT !in l
    ensures Encoded(l + more, part) == Encoded(more, part + l)
    decreases |l|
  {
    if l == [] {
      assert l + more == more && part + l == part;
    } else {
      assert (l + more)[1..] == l[1..] + more;
      EncodedLabel(l[1..], part + [l[0]], more);
      assert part + [l[0]] + l[1..] == part + l;
    }
  }

  /** Every hostname of proper labels is encoded as its name on the wire. */
  lemma {:induction false} EncodeIsWire(ls: seq<Label>)
    requires LabelsOk(ls) && ls != []
    ensures Encoded(Hostname(ls), []) == Wire(ls)
    decreases |ls|
  {
    hide Encoded, Wire, Hostname;
    var l := ls[0];
    WireStart(ls);
    if |ls| == 1 {
      assert Hostname(ls) == l + [] by { HostnameStart(ls); }
      EncodedLabel(l, [], []);
      assert [] + l == l && ls[1..] == [];
      EncodedEnd(l);
    } else {
      HostnameStart(ls);
      EncodedLabel(l, [], [DOT] + Hostname(ls[1..]));
      assert [] + l == l;
      EncodedDot(l, Hostname(ls[1..]));
      EncodeIsWire(ls[1..]);
    }
  }

  lemma WireStart(ls: seq<Label>)
    requires LabelsOk(ls) && ls != []
    ensures LabelsOk(ls[1..]) && Wire(ls) == ([|ls[0]| % 256] + ls[0]) + Wire(ls[1..]) && Wire([]) == [0]
    ensures 0 < |ls[0]| <= 63 && DOT !in ls[0]
  {
    assert LabelOk(ls[0]);
    assert |ls[0]| % 256 == |ls[0]|;
    assert LabelWire(ls[0]) == [|ls[0]| % 256] + ls[0];
    assert LabelsWire(ls) + [0] == LabelWire(ls[0]) + (LabelsWire(ls[1..]) + [0]);
  }

  lemma HostnameStart(ls: seq<Label>)
    requires ls != []
    ensures Hostname(ls) == if |ls| == 1 then ls[0] + [] else ls[0] + ([DOT] + Hostname(ls[1..]))
  {
  }

  lemma EncodedEnd(l: Label)
    requires l != []
    ensures Encoded([], l) == ([|l| % 256] + l) + [0]
  {
  }

  lemma EncodedDot(l: Label, more: Bytes)
    ensures Encoded([DOT] + more, l) == ([|l| % 256] + l) + Encoded(more, [])
  {
    assert ([DOT] + more)[1..] == more;
  }

  /** Reading labels from i on, up to the root label. */
  function Labels(d: Bytes, i: nat): seq<Label>
    requires i <= |d|
    decreases |d| - i
  {
    if i == |d| || d[i] == 0 || i + 1 + d[i] > |d| then [] else [d[i + 1..i + 1 + d[i]]] + Labels(d, i + 1 + d[i])
  }

  /** The first label of a name and what follows it. */
  lemma FirstLabel(d: Bytes, i: nat, ls: seq<Label>)
    requires LabelsOk(ls) && ls != [] && Has(d, i, Wire(ls))
    ensures var k := i + 1 + |ls[0]|;
      && k + |Wire(ls[1..])| <= |d| && d[i] == |ls[0]| && d[i + 1..k] == ls[0] && 0 < |ls[0]| <= 63
      && LabelsOk(ls[1..]) && Has(d, k, Wire(ls[1..])) && |Wire(ls)| == 1 + |ls[0]| + |Wire(ls[1..])| && |Wire(ls[1..])| > 0
  {
    assert Wire(ls) == LabelWire(ls[0]) + Wire(ls[1..]);
    HasSplit(d, i, LabelWire(ls[0]), Wire(ls[1..]));
    HasSplit(d, i, [|ls[0]| as byte], ls[0]);
    HasAt(d, i, [|ls[0]| as byte], 0);
    HasFits(d, i + 1 + |ls[0]|, Wire(ls[1..]));
  }

  lemma NoLabels(d: Bytes, i: nat)
    requires Has(d, i, Wire([]))
    ensures i < |d| && d[i] == 0 && |Wire([])| == 1
  {
    HasAt(d, i, Wire([]), 0);
  }

  /** A name on the wire gives back its labels, so different hostnames are encoded differently. */
  lemma {:induction false} WireRoundTrip(d: Bytes, i: nat, ls: seq<Label>)
    requires LabelsOk(ls) && Has(d, i, Wire(ls))
    ensures i <= |d| && Labels(d, i) == ls
    decreases |ls|
  {
    hide Has, Wire;
    if ls == [] {
      NoLabels(d, i);
    } else {
      FirstLabel(d, i, ls);
      WireRoundTrip(d, i + 1 + |ls[0]|, ls[1..]);
    }
  }

  // ---- the handler

  predicate IsPointer(b: byte) { b / 64 == 3 }

  /** Past a name of the question section; a pointer ends it. */
  function QuestionName(d: Bytes, i: nat): (j: nat)
    ensures j >= i
    decreases |d| - i
  {
    if i >= |d| then i
    else if d[i] == 0 then i + 1
    else if IsPointer(d[i]) then i + 2
    else QuestionName(d, i + 1 + d[i])
  }

  function Questions(d: Bytes, i: nat, n: nat): (j: nat)
    ensures j >= i
    decreases n
  {
    if n == 0 || i >= |d| then i else Questions(d, QuestionName(d, i) + 4, n - 1)
  }

  function SkipLabels(d: Bytes, i: nat): (j: nat)
    ensures j >= i
    decreases |d| - i
  {
    if i >= |d| || d[i] == 0 then i else SkipLabels(d, i + 1 + d[i])
  }

  /** Past the name of an answer: a leading pointer, or plain labels. */
  function AnswerName(d: Bytes, i: nat): (j: nat)
    requires i < |d|
    ensures j > i
  {
    if IsPointer(d[i]) then i + 2
    else
      var j := SkipLabels(d, i);
      if j < |d| then j + 1 else j
  }

  /** The address in the first A record of the next n answers. */
  function FirstAddress(d: Bytes, i: nat, n: nat): Option<u32>
    decreases n
  {
    if n == 0 || i + 12 > |d| then None
    else
      var j := AnswerName(d, i);
      if j + 10 > |d| then None
      else
        var k, length := j + 10, FromBe16(d, j + 8);
        if k + length > |d| then None
        else if FromBe16(d, j) == DNS_TYPE_A && length == 4 then Some(FromBe32(d, k))
        else FirstAddress(d, k + length, n - 1)
  }

  /** What a datagram does: nothing, or an answer with or without an address. */
  datatype Outcome = Ignored | Answered(ip: Option<u32>)

  function Respond(d: Bytes, queryId: nat): Outcome {
    if |d| < 12 || FromBe16(d, 0) != queryId then Ignored
    else if FromBe16(d, 2) % 16 != 0 || FromBe16(d, 6) == 0 then Answered(None)
    else Answered(FirstAddress(d, Questions(d, 12, FromBe16(d, 4)), FromBe16(d, 6)))
  }

  /** A datagram counts as an answer if and only if it carries the id of the query, and gives an address only without an
      error code. */
  lemma OwnAnswersOnly(d: Bytes, queryId: nat)
    ensures Respond(d, queryId).Answered? <==> |d| >= 12 && FromBe16(d, 0) == queryId
    ensures Respond(d, queryId).Answered? && d[3] % 16 != 0 ==> Respond(d, queryId).ip == None
    ensures Respond(d, queryId).Answered? && FromBe16(d, 6) == 0 ==> Respond(d, queryId).ip == None
  {
    hide FirstAddress, Questions;
    if |d| >= 12 { LowNibble(d[2], d[3]); }
  }

  lemma LowNibble(high: byte, low: byte)
    ensures (high * 256 + low) % 16 == low % 16
  {
  }

  /** On any bytes: an address that is found is the data of a record of type A and length 4 inside the datagram. */
  lemma {:induction false} AddressInside(d: Bytes, i: nat, n: nat) returns (j: nat)
    requires FirstAddress(d, i, n).Some?
    ensures i < j && j + 14 <= |d| && FromBe16(d, j) == DNS_TYPE_A && FromBe16(d, j + 8) == 4 && FirstAddress(d, i, n).value == FromBe32(d, j + 10)
    decreases n
  {
    hide AnswerName;
    j := AnswerName(d, i);
    var length := FromBe16(d, j + 8);
    if !(FromBe16(d, j) == DNS_TYPE_A && length == 4) { j := AddressInside(d, j + 10 + length, n - 1); }
  }

  class Resolver {
    var resolvedIp: u32
    var responseReceived: bool
    var queryId: nat

    /** dns_udp_handler */
    method Handle(d: Bytes)
      modifies this`resolvedIp, this`responseReceived
      ensures match Respond(d, queryId)
        case Ignored => resolvedIp == old(resolvedIp) && responseReceived == old(responseReceived)
        case Answered(ip) => responseReceived && resolvedIp == if ip.Some? then ip.value else old(resolvedIp)
      ensures |d| < 12 || FromBe16(d, 0) != queryId ==> resolvedIp == old(resolvedIp) && responseReceived == old(responseReceived)
      ensures |d| >= 12 && d[3] % 16 != 0 ==> resolvedIp == old(resolvedIp)
    {
      OwnAnswersOnly(d, queryId);
      hide Questions, FirstAddress, QuestionName, AnswerName, SkipLabels;
      if |d| < 12 { return; }
      if FromBe16(d, 0) != queryId { return; }
      var flags := FromBe16(d, 2);
      if flags % 16 != 0 {
        responseReceived := true;
        return;
      }
      var ancount := FromBe16(d, 6);
      if ancount == 0 {
        responseReceived := true;
        return;
      }
      var ptr := SkipQuestions(d, FromBe16(d, 4));
      var ip := SearchAnswers(d, ptr, ancount);
      if ip.Some? { resolvedIp := ip.value; }
      responseReceived := true;
    }

    /** The question loop of the handler. */
    method SkipQuestions(d: Bytes, qdcount: nat) returns (ptr: nat)
      ensures ptr == Questions(d, 12, qdcount)
    {
      ptr := 12;
      var q := 0;
      while q < qdcount && ptr < |d|
        invariant q <= qdcount && Questions(d, ptr, qdcount - q) == Questions(d, 12, qdcount)
        decreases qdcount - q
      {
        ghost var start := ptr;
        var pointer := false;
        while ptr < |d| && d[ptr] != 0
          invariant QuestionName(d, ptr) == QuestionName(d, start) && !pointer
          decreases |d| - ptr
        {
          if IsPointer(d[ptr]) {
            ptr := ptr + 2;
            pointer := true;
            break;
          }
          ptr := ptr + 1 + d[ptr];
        }
        if !pointer && ptr < |d| { ptr := ptr + 1; }
        ptr := ptr + 4;
        q := q + 1;
      }
    }

    /** The answer loop of the handler. */
    method SearchAnswers(d: Bytes, start: nat, ancount: nat) returns (ip: Option<u32>)
      ensures ip == FirstAddress(d, start, ancount)
    {
      hide SkipLabels;
      var ptr: nat := start;
      var a := 0;
      while a < ancount && ptr + 12 <= |d|
        invariant a <= ancount && FirstAddress(d, ptr, ancount - a) == FirstAddress(d, start, ancount)
        decreases ancount - a
      {
        var name := SkipAnswerName(d, ptr);
        ptr := name;
        if ptr + 10 > |d| { return None; }
        var rtype, rdlength := FromBe16(d, ptr), FromBe16(d, ptr + 8);
        ptr := ptr + 10;
        if ptr + rdlength > |d| { return None; }
        if rtype == DNS_TYPE_A && rdlength == 4 { return Some(FromBe32(d, ptr)); }
        ptr := ptr + rdlength;
        a := a + 1;
      }
      return None;
    }

    method SkipAnswerName(d: Bytes, start: nat) returns (ptr: nat)
      requires start < |d|
      ensures ptr == AnswerName(d, start)
    {
      ptr := start;
      if IsPointer(d[ptr]) { return ptr + 2; }
      while ptr < |d| && d[ptr] != 0
        invariant SkipLabels(d, ptr) == SkipLabels(d, start)
        decreases |d| - ptr
      {
        ptr := ptr + 1 + d[ptr];
      }
      if ptr < |d| { ptr := ptr + 1; }
    }
  }

  // ---- well-formed responses

  /** A name in each of its three forms (section 4.1.4 of RFC 1035): labels, a pointer, or labels that end in a pointer. */
  datatype Name = Plain(labels: seq<Label>) | Pointer(high: byte, low: byte) | Joint(labels: seq<Label>, high: byte, low: byte)

  predicate NameOk(n: Name) {
    match n
    case Plain(ls) => LabelsOk(ls)
    case Pointer(high, _) => IsPointer(high)
    case Joint(ls, high, _) => LabelsOk(ls) && ls != [] && IsPointer(high)
  }

  function NameWire(n: Name): Bytes
    requires NameOk(n)
  {
    match n case Plain(ls) => Wire(ls) case Pointer(high, low) => [high, low] case Joint(ls, high, low) => LabelsWire(ls) + [high, low]
  }

  datatype Question = Question(name: Name, fixed: Bytes)

  predicate QuestionOk(q: Question) { NameOk(q.name) && |q.fixed| == 4 }

  /** `fixed` is the type; the class and the time to live are `middle`. */
  datatype Record = Record(name: Name, rtype: nat, middle: Bytes, rdata: Bytes)

  /** A record as the handler can read it: its name is not labels that end in a pointer. */
  predicate RecordOk(r: Record) { NameOk(r.name) && !r.name.Joint? && r.rtype < 0x1_0000 && |r.middle| == 6 && |r.rdata| < 0x1_0000 }

  function RecordWire(r: Record): Bytes
    requires RecordOk(r)
  {
    NameWire(r.name) + (Be16(r.rtype) + r.middle + Be16(|r.rdata|) + r.rdata)
  }

  predicate QuestionsOk(qs: seq<Question>) { forall i :: 0 <= i < |qs| ==> QuestionOk(qs[i]) }

  predicate RecordsOk(rs: seq<Record>) { forall i :: 0 <= i < |rs| ==> RecordOk(rs[i]) }

  function QuestionsWire(qs: seq<Question>): Bytes
    requires QuestionsOk(qs)
  {
    if qs == [] then [] else (NameWire(qs[0].name) + qs[0].fixed) + QuestionsWire(qs[1..])
  }

  function RecordsWire(rs: seq<Record>): Bytes
    requires RecordsOk(rs)
  {
    if rs == [] then [] else RecordWire(rs[0]) + RecordsWire(rs[1..])
  }

  /** The address of the first A record. */
  function Address(rs: seq<Record>): Option<u32> {
    if rs == [] then None
    else if rs[0].rtype == DNS_TYPE_A && |rs[0].rdata| == 4 then Some(FromBe32(rs[0].rdata, 0))
    else Address(rs[1..])
  }

  lemma {:induction false} LabelsSkipped(d: Bytes, i: nat, ls: seq<Label>)
    requires LabelsOk(ls) && Has(d, i, Wire(ls))
    ensures i + |Wire(ls)| <= |d| && QuestionName(d, i) == i + |Wire(ls)| && SkipLabels(d, i) == i + |Wire(ls)| - 1
    decreases |ls|
  {
    hide Has, Wire;
    if ls == [] {
      NoLabels(d, i);
    } else {
      FirstLabel(d, i, ls);
      LabelsSkipped(d, i + 1 + |ls[0]|, ls[1..]);
    }
  }

  lemma {:induction false} JointSkipped(d: Bytes, i: nat, ls: seq<Label>, high: byte, low: byte)
    requires LabelsOk(ls) && IsPointer(high) && Has(d, i, LabelsWire(ls) + [high, low])
    ensures var p := i + |LabelsWire(ls)|;
      p + 2 <= |d| && d[p] == high && QuestionName(d, i) == p + 2 && SkipLabels(d, i) == SkipLabels(d, p + 1 + high)
    decreases |ls|
  {
    hide Has;
    HasFits(d, i, LabelsWire(ls) + [high, low]);
    if ls == [] {
      assert LabelsWire(ls) + [high, low] == [high, low];
      HasAt(d, i, [high, low], 0);
    } else {
      var rest := LabelsWire(ls[1..]) + [high, low];
      assert LabelsWire(ls) + [high, low] == [|ls[0]| as byte] + (ls[0] + rest);
      HasAt(d, i, [|ls[0]| as byte] + (ls[0] + rest), 0);
      HasSplit(d, i, [|ls[0]| as byte], ls[0] + rest);
      HasSplit(d, i + 1, ls[0], rest);
      JointSkipped(d, i + 1 + |ls[0]|, ls[1..], high, low);
    }
  }

  /** Both ways of passing over a name land just behind it, but for one: in an answer, labels that end in a pointer are
      taken for labels only, and the handler goes on at least 191 bytes too far. */
  lemma NameSkipped(d: Bytes, i: nat, n: Name)
    requires NameOk(n) && Has(d, i, NameWire(n))
    ensures i < i + |NameWire(n)| <= |d| && QuestionName(d, i) == i + |NameWire(n)|
    ensures AnswerName(d, i) == i + |NameWire(n)| <==> !n.Joint?
    ensures n.Joint? ==> AnswerName(d, i) >= i + |NameWire(n)| + 191
  {
    hide SkipLabels;
    HasFits(d, i, NameWire(n));
    match n
    case Plain(ls) =>
      LabelsSkipped(d, i, ls);
      if ls != [] { FirstLength(d, i, ls); } else { HasAt(d, i, Wire(ls), 0); }
    case Pointer(high, low) => HasAt(d, i, [high, low], 0);
    case Joint(ls, high, low) =>
      JointSkipped(d, i, ls, high, low);
      JointLength(d, i, ls, high, low);
  }

  lemma JointLength(d: Bytes, i: nat, ls: seq<Label>, high: byte, low: byte)
    requires LabelsOk(ls) && ls != [] && Has(d, i, LabelsWire(ls) + [high, low])
    ensures i < |d| && !IsPointer(d[i]) && d[i] != 0
  {
    assert (LabelsWire(ls) + [high, low])[0] == |ls[0]|;
    HasAt(d, i, LabelsWire(ls) + [high, low], 0);
  }

  /** So in a datagram that ends soon enough an answer under such a name is lost, whatever it holds. */
  lemma JointAnswerLost(d: Bytes, i: nat, n: Name, answers: nat)
    requires NameOk(n) && n.Joint? && Has(d, i, NameWire(n)) && |d| <= i + |NameWire(n)| + 200
    ensures FirstAddress(d, i, answers) == None
  {
    hide AnswerName, NameWire;
    NameSkipped(d, i, n);
  }

  lemma FirstLength(d: Bytes, i: nat, ls: seq<Label>)
    requires LabelsOk(ls) && ls != [] && Has(d, i, Wire(ls))
    ensures i < |d| && !IsPointer(d[i])
  {
    assert Wire(ls)[0] == |ls[0]|;
    HasAt(d, i, Wire(ls), 0);
  }

  lemma {:induction false} QuestionsSkipped(d: Bytes, i: nat, qs: seq<Question>)
    requires QuestionsOk(qs) && Has(d, i, QuestionsWire(qs))
    ensures Questions(d, i, |qs|) == i + |QuestionsWire(qs)|
    decreases |qs|
  {
    hide Has, QuestionName, NameWire;
    if qs != [] {
      var q := qs[0];
      HasSplit(d, i, NameWire(q.name) + q.fixed, QuestionsWire(qs[1..]));
      HasSplit(d, i, NameWire(q.name), q.fixed);
      NameSkipped(d, i, q.name);
      QuestionsSkipped(d, i + |NameWire(q.name)| + 4, qs[1..]);
    }
  }

  /** The fixed part of a record behind its name. */
  lemma RecordParts(d: Bytes, j: nat, r: Record)
    requires RecordOk(r) && Has(d, j, Be16(r.rtype) + r.middle + Be16(|r.rdata|) + r.rdata)
    ensures j + 10 + |r.rdata| <= |d| && FromBe16(d, j) == r.rtype && FromBe16(d, j + 8) == |r.rdata| && d[j + 10..j + 10 + |r.rdata|] == r.rdata
  {
    hide Has;
    var w := Be16(r.rtype) + r.middle + Be16(|r.rdata|) + r.rdata;
    HasFits(d, j, w);
    HasAt(d, j, w, 0);
    HasAt(d, j, w, 1);
    HasAt(d, j, w, 8);
    HasAt(d, j, w, 9);
    forall k | 0 <= k < |r.rdata| ensures d[j + 10 + k] == r.rdata[k] { HasAt(d, j, w, 10 + k); }
  }

  lemma {:induction false} AddressFound(d: Bytes, i: nat, rs: seq<Record>)
    requires RecordsOk(rs) && Has(d, i, RecordsWire(rs))
    ensures FirstAddress(d, i, |rs|) == Address(rs)
    decreases |rs|
  {
    hide Has, AnswerName, FromBe16, NameWire;
    if rs != [] {
      var r := rs[0];
      var tail := Be16(r.rtype) + r.middle + Be16(|r.rdata|) + r.rdata;
      HasSplit(d, i, RecordWire(r), RecordsWire(rs[1..]));
      HasSplit(d, i, NameWire(r.name), tail);
      NameSkipped(d, i, r.name);
      var j := i + |NameWire(r.name)|;
      RecordParts(d, j, r);
      HasFits(d, i + |RecordWire(r)|, RecordsWire(rs[1..]));
      if i + 12 > |d| {
        ShortTail(rs[1..], |d| - (i + |RecordWire(r)|));
      } else {
        AddressFound(d, i + |RecordWire(r)|, rs[1..]);
        if |r.rdata| == 4 { SameAddress(d, j + 10, r.rdata); }
      }
    }
  }

  /** Behind a record of eleven bytes with nothing after it there is no other. */
  lemma ShortTail(rs: seq<Record>, room: int)
    requires RecordsOk(rs) && |RecordsWire(rs)| <= room < 11
    ensures rs == []
  {
    if rs != [] { RecordLength(rs[0]); }
  }

  lemma RecordLength(r: Record)
    requires RecordOk(r)
    ensures |RecordWire(r)| >= 11 + |r.rdata|
  {
  }

  lemma SameAddress(d: Bytes, k: nat, rdata: Bytes)
    requires k + 4 <= |d| && |rdata| == 4 && d[k..k + 4] == rdata
    ensures FromBe32(d, k) == FromBe32(rdata, 0)
  {
    assert forall m :: 0 <= m < 4 ==> rdata[m] == d[k..k + 4][m] == d[k + m];
  }

  /** The twelve bytes in front of every message. */
  function HeaderWire(id: nat, flags: nat, qd: nat, an: nat, counts: Bytes): Bytes
    requires id < 0x1_0000 && flags < 0x1_0000 && qd < 0x1_0000 && an < 0x1_0000 && |counts| == 4
  {
    Be16(id) + Be16(flags) + Be16(qd) + Be16(an) + counts
  }

  lemma HeaderRead(d: Bytes, id: nat, flags: nat, qd: nat, an: nat, counts: Bytes, rest: Bytes)
    requires id < 0x1_0000 && flags < 0x1_0000 && qd < 0x1_0000 && an < 0x1_0000 && |counts| == 4
    requires d == HeaderWire(id, flags, qd, an, counts) + rest
    ensures |d| >= 12 && FromBe16(d, 0) == id && FromBe16(d, 2) == flags && FromBe16(d, 4) == qd && FromBe16(d, 6) == an
  {
    assert Be16(id)[0] == d[0] && Be16(id)[1] == d[1] && Be16(flags)[0] == d[2] && Be16(flags)[1] == d[3];
    assert Be16(qd)[0] == d[4] && Be16(qd)[1] == d[5] && Be16(an)[0] == d[6] && Be16(an)[1] == d[7];
  }

  /** For every well-formed response to the query without an error code, the handler finds the address of the first A
      record, or none if there is none, whatever follows the answers. */
  lemma ResponseRead(id: nat, flags: nat, qs: seq<Question>, rs: seq<Record>, counts: Bytes, rest: Bytes)
    requires id < 0x1_0000 && flags < 0x1_0000 && flags % 16 == 0 && |qs| < 0x1_0000 && |rs| < 0x1_0000 && |counts| == 4
    requires QuestionsOk(qs) && RecordsOk(rs)
    ensures Respond(HeaderWire(id, flags, |qs|, |rs|, counts) + (QuestionsWire(qs) + (RecordsWire(rs) + rest)), id) == Answered(Address(rs))
  {
    hide Has, HeaderWire, QuestionsWire, RecordsWire, Questions, FirstAddress, FromBe16, QuestionsOk, RecordsOk;
    var h, q, r := HeaderWire(id, flags, |qs|, |rs|, counts), QuestionsWire(qs), RecordsWire(rs);
    var d := h + (q + (r + rest));
    HeaderRead(d, id, flags, |qs|, |rs|, counts, q + (r + rest));
    assert |h| == 12 by { HeaderLength(id, flags, |qs|, |rs|, counts); }
    assert Has(d, 0, d) by { HasWhole(d); }
    HasSplit(d, 0, h, q + (r + rest));
    HasSplit(d, 12, q, r + rest);
    HasSplit(d, 12 + |q|, r, rest);
    QuestionsSkipped(d, 12, qs);
    AddressFound(d, 12 + |q|, rs);
    if rs == [] { assert Address(rs) == None; }
  }

  lemma HeaderLength(id: nat, flags: nat, qd: nat, an: nat, counts: Bytes)
    requires id < 0x1_0000 && flags < 0x1_0000 && qd < 0x1_0000 && an < 0x1_0000 && |counts| == 4
    ensures |HeaderWire(id, flags, qd, an, counts)| == 12
  {
  }

  lemma HasWhole(d: Bytes)
    ensures Has(d, 0, d)
  {
  }
}
