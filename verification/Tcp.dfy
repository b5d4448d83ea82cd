/** net/tcp.c: segments on the wire, the receive ring, and the connection state machine. */
module Tcp {
  import opened Base

  const RX_SIZE: int := 8192
  const MSS: int := 1460

  datatype State = Closed | SynSent | Established | FinWait1 | FinWait2 | CloseWait | LastAck | TimeWait

  /** What tcp_receive looks at in a segment. */
  datatype Segment = Segment(seqNum: u32, ackNum: u32, syn: bool, ack: bool, fin: bool, rst: bool, window: u32, payload: seq<byte>)

  // ---- the wire

  datatype Ports = Ports(source: u32, dest: u32)

  lemma Be32Back(x: u32, before: seq<byte>, after: seq<byte>)
    ensures FromBe32(before + Be32(x) + after, |before|) == x
  {
  }

  /** PSH has no meaning to the receiver. */
  function FlagByte(g: Segment, psh: bool): byte {
    (if g.fin then 1 else 0) + (if g.syn then 2 else 0) + (if g.rst then 4 else 0) + (if psh then 8 else 0) + if g.ack then 16 else 0
  }

  /** A TCP header's options: whole words, at most ten of them (section 3.1 of RFC 9293). */
  type Options = o: seq<byte> | |o| <= 40 && |o| % 4 == 0

  /** The segment that tcp_send_segment builds, with no options, or tcp_connect, with one; the checksum is already worked
      out. */
  function Build(p: Ports, g: Segment, psh: bool, checksum: u32, options: Options): seq<byte> {
    Be16(p.source) + Be16(p.dest) + Be32(g.seqNum) + Be32(g.ackNum) + [(20 + |options|) / 4 * 16, FlagByte(g, psh)] + Be16(g.window)
    + Be16(checksum) + [0, 0] + options + g.payload
  }

  /** The head of tcp_receive: too short a segment, or a header length that does not fit, is dropped. */
  function Parse(data: seq<byte>): (r: Option<(Ports, Segment)>) {
    if |data| < 20 then None
    else
      var header := data[12] as int / 16 * 4;
      if header < 20 || header > |data| then None
      else
        var flags := data[13] as int;
        Some((Ports(FromBe16(data, 0), FromBe16(data, 2)),
              Segment(FromBe32(data, 4), FromBe32(data, 8), flags / 2 % 2 == 1, flags / 16 % 2 == 1, flags % 2 == 1, flags / 4 % 2 == 1,
                      FromBe16(data, 14), data[header..])))
  }

  lemma FlagsBack(g: Segment, psh: bool)
    ensures var f: int := FlagByte(g, psh);
      && (f % 2 == 1 <==> g.fin) && (f / 2 % 2 == 1 <==> g.syn) && (f / 4 % 2 == 1 <==> g.rst) && (f / 16 % 2 == 1 <==> g.ack)
  {
    if g.fin {} else {}
    if g.syn {} else {}
    if g.rst {} else {}
    if psh {} else {}
    if g.ack {} else {}
  }

  lemma Be16Back(x: u32, d: seq<byte>, i: nat)
    requires x < 0x1_0000 && i + 2 <= |d| && d[i..i + 2] == Be16(x)
    ensures FromBe16(d, i) == x
  {
    assert d[i] == d[i..i + 2][0] && d[i + 1] == d[i..i + 2][1];
  }

  /** The places of a segment's fields. */
  lemma BuildLayout(p: Ports, g: Segment, psh: bool, checksum: u32, options: Options)
    ensures var d := Build(p, g, psh, checksum, options);
      && |d| == 20 + |options| + |g.payload| && d[0..2] == Be16(p.source) && d[2..4] == Be16(p.dest) && d[14..16] == Be16(g.window)
      && d[12] == (20 + |options|) / 4 * 16 && d[13] == FlagByte(g, psh) && d[20 + |options|..] == g.payload
      && d == (Be16(p.source) + Be16(p.dest)) + Be32(g.seqNum) + d[8..]
      && d == (Be16(p.source) + Be16(p.dest) + Be32(g.seqNum)) + Be32(g.ackNum) + d[12..]
  {
    hide Be32, FlagByte;
  }

  lemma HeaderLength(n: nat)
    requires n % 4 == 0 && n <= 60
    ensures n / 4 * 16 / 16 * 4 == n
  {
  }

  /** A receiver reads exactly what a sender wrote, whatever the options. */
  lemma BuildParse(p: Ports, g: Segment, psh: bool, checksum: u32, options: Options)
    requires p.source < 0x1_0000 && p.dest < 0x1_0000 && g.window < 0x1_0000
    ensures Parse(Build(p, g, psh, checksum, options)) == Some((p, g))
  {
    hide FromBe32, Be32, FromBe16, Be16, FlagByte, Build;
    var d := Build(p, g, psh, checksum, options);
    BuildLayout(p, g, psh, checksum, options);
    HeaderLength(20 + |options|);
    FlagsBack(g, psh);
    Be16Back(p.source, d, 0);
    Be16Back(p.dest, d, 2);
    Be16Back(g.window, d, 14);
    Be32Back(g.seqNum, Be16(p.source) + Be16(p.dest), d[8..]);
    Be32Back(g.ackNum, Be16(p.source) + Be16(p.dest) + Be32(g.seqNum), d[12..]);
  }

  // ---- the ring

  type Ring = s: seq<byte> | |s| == RX_SIZE witness seq(8192, i => 0)

  function Count(head: nat, tail: nat): (n: nat)
    requires head < RX_SIZE && tail < RX_SIZE
    ensures n < RX_SIZE
  {
    if tail <= head then head - tail else head + RX_SIZE - tail
  }

  function Next(i: nat): (j: nat)
    requires i < RX_SIZE
    ensures j < RX_SIZE
  {
    if i + 1 == RX_SIZE then 0 else i + 1
  }

  lemma NextWraps(i: nat)
    requires i < RX_SIZE
    ensures Next(i) == (i + 1) % RX_SIZE
  {
  }

  function Slot(tail: nat, k: nat): (i: nat)
    requires tail < RX_SIZE && k < RX_SIZE
    ensures i < RX_SIZE
  {
    if tail + k < RX_SIZE then tail + k else tail + k - RX_SIZE
  }

  /** The bytes from tail up to head, around the end of the buffer. */
  function Contents(buf: Ring, head: nat, tail: nat): (s: seq<byte>)
    requires head < RX_SIZE && tail < RX_SIZE
    ensures |s| == Count(head, tail)
  {
    seq(Count(head, tail), k requires 0 <= k < Count(head, tail) => buf[Slot(tail, k)])
  }

  /** One byte put at the head. */
  lemma Pushed(buf: Ring, head: nat, tail: nat, x: byte)
    requires head < RX_SIZE && tail < RX_SIZE && Next(head) != tail
    ensures Contents(buf[head := x], Next(head), tail) == Contents(buf, head, tail) + [x]
  {
    var a, b := Contents(buf[head := x], Next(head), tail), Contents(buf, head, tail) + [x];
    assert |a| == |b|;
  }

  /** A byte put at the head is not seen before the head moves. */
  lemma NotYet(buf: Ring, head: nat, tail: nat, x: byte)
    requires head < RX_SIZE && tail < RX_SIZE
    ensures Contents(buf[head := x], head, tail) == Contents(buf, head, tail)
  {
    var a, b := Contents(buf[head := x], head, tail), Contents(buf, head, tail);
    assert |a| == |b|;
  }

  /** One byte taken at the tail. */
  lemma Popped(buf: Ring, head: nat, tail: nat)
    requires head < RX_SIZE && tail < RX_SIZE && head != tail
    ensures Contents(buf, head, tail) == [buf[tail]] + Contents(buf, head, Next(tail))
  {
    var a, b := Contents(buf, head, tail), [buf[tail]] + Contents(buf, head, Next(tail));
    assert |a| == |b|;
  }

  // ---- the connection state machine

  datatype Control = Control(state: State, seqNum: u32, ackNum: u32)

  predicate Accepts(c: Control, g: Segment) {
    c.state == Established && !g.rst && |g.payload| > 0 && g.seqNum == c.ackNum
  }

  /** The FIN branch of ESTABLISHED. */
  function Finish(c: Control, g: Segment): Control {
    if g.fin then Control(LastAck, (c.seqNum + 1) % WORD, (g.seqNum + |g.payload| + 1) % WORD) else c
  }

  function Acked(c: Control, g: Segment): Control { c.(ackNum := (c.ackNum + |g.payload|) % WORD) }

  /** What a segment does to the connection, apart from the ring. */
  function Handle(c: Control, g: Segment): Control {
    match c.state
    case SynSent =>
      if g.syn && g.ack then
        if g.ackNum == c.seqNum then Control(Established, c.seqNum, (g.seqNum + 1) % WORD) else c
      else if g.rst then c.(state := Closed)
      else c
    case Established =>
      if g.rst then c.(state := Closed) else Finish(if Accepts(c, g) then Acked(c, g) else c, g)
    case FinWait1 =>
      if !g.ack then c
      else if g.fin then Control(TimeWait, c.seqNum, (g.seqNum + 1) % WORD)
      else c.(state := FinWait2)
    case FinWait2 => if g.fin then Control(TimeWait, c.seqNum, (g.seqNum + 1) % WORD) else c
    case LastAck => if g.ack then c.(state := Closed) else c
    case _ => c
  }

  /** Which segment leads to which state. */
  lemma Transitions(c: Control, g: Segment)
    ensures var d := Handle(c, g);
      && (d.state == Established != c.state <==> c.state == SynSent && g.syn && g.ack && g.ackNum == c.seqNum)
      && (d.state == Closed != c.state <==>
            || (c.state == SynSent && g.rst && !(g.syn && g.ack)) || (c.state == Established && g.rst) || (c.state == LastAck && g.ack))
      && (d.state == LastAck != c.state <==> c.state == Established && g.fin && !g.rst)
      && (d.state == FinWait2 != c.state <==> c.state == FinWait1 && g.ack && !g.fin)
      && (d.state == TimeWait != c.state <==> g.fin && (c.state == FinWait2 || (c.state == FinWait1 && g.ack)))
      && (d.state == SynSent || d.state == FinWait1 || d.state == CloseWait ==> d.state == c.state)
  {
  }

  /** What is acknowledged then: the SYN, a FIN with the data before it, or data in order; and the own FIN takes a number. */
  lemma Numbers(c: Control, g: Segment)
    ensures var d := Handle(c, g);
      && (d.state == Established != c.state ==> d.ackNum == Plus(g.seqNum, 1))
      && (d.state == LastAck != c.state ==> d.ackNum == Plus(g.seqNum, |g.payload| + 1))
      && (d.state == TimeWait != c.state ==> d.ackNum == Plus(g.seqNum, 1))
      && (d.state == c.state ==> d.ackNum == if c.state == Established && g.seqNum == c.ackNum then Plus(c.ackNum, |g.payload|) else c.ackNum)
      && d.seqNum == Plus(c.seqNum, if d.state == LastAck != c.state then 1 else 0)
  {
    PlusPlus(c.seqNum, 0, 0);
    PlusPlus(c.ackNum, 0, 0);
  }

  function AckOf(c: Control): Segment { Segment(c.seqNum, c.ackNum, false, true, false, false, RX_SIZE, []) }

  /** What is sent back. */
  function Replies(c: Control, g: Segment): seq<Segment> {
    var d := Handle(c, g);
    match c.state
    case SynSent => if d.state == Established then [AckOf(d)] else []
    case Established =>
      if g.rst then []
      else if g.fin then [AckOf(c.(ackNum := d.ackNum)), AckOf(c.(ackNum := d.ackNum)).(fin := true)]
      else if |g.payload| > 0 then [AckOf(d)]
      else []
    case _ => if d.state == TimeWait && c.state != TimeWait then [AckOf(d)] else []
  }

  /** Every reply acknowledges as far as the connection stands after the segment, and the last one ends where its sequence
      numbers then go on. */
  lemma RepliesAcknowledge(c: Control, g: Segment)
    ensures var d, rs := Handle(c, g), Replies(c, g);
      && (forall i :: 0 <= i < |rs| ==> rs[i].ackNum == d.ackNum && rs[i].ack && !rs[i].syn && !rs[i].rst && rs[i].payload == [])
      && (forall i :: 0 <= i < |rs| ==> (rs[i].fin <==> d.state == LastAck != c.state && i == |rs| - 1))
      && (rs != [] ==> Plus(rs[|rs| - 1].seqNum, if rs[|rs| - 1].fin then 1 else 0) == d.seqNum)
      && (rs != [] <==> (d.state != c.state && d.state != Closed && d.state != FinWait2) || (d.state == c.state == Established && g.payload != []))
  {
    Transitions(c, g);
    Numbers(c, g);
    PlusPlus(c.seqNum, 0, 0);
  }

  class Connection {
    var state: State
    var seqNum: u32
    var ackNum: u32
    var remoteWindow: u32
    const rxBuf: array<byte>
    var rxHead: nat
    var rxTail: nat

    ghost predicate Valid()
      reads this
    {
      rxBuf.Length == RX_SIZE && rxHead < RX_SIZE && rxTail < RX_SIZE
    }

    ghost function Bytes(): seq<byte>
      requires Valid()
      reads this, rxBuf
    {
      Contents(rxBuf[..], rxHead, rxTail)
    }

    ghost function Ctl(): Control
      reads this
    {
      Control(state, seqNum, ackNum)
    }

    /** What tcp_connect sets up before its SYN goes out. */
    constructor (iss: u32)
      ensures Valid() && fresh(rxBuf) && Bytes() == [] && Ctl() == Control(SynSent, (iss + 1) % WORD, 0)
    {
      rxBuf := new byte[RX_SIZE](_ => 0);
      state, seqNum, ackNum, remoteWindow := SynSent, (iss + 1) % WORD, 0, 0;
      rxHead, rxTail := 0, 0;
    }

    /** tcp_rx_available: the difference is taken modulo 2^32 first. */
    method RxAvailable() returns (n: nat)
      requires Valid()
      ensures n == |Bytes()|
    {
      n := (rxHead - rxTail) % WORD % RX_SIZE;
      WrappedDifference(rxHead, rxTail);
    }

    /** tcp_rx_write: bytes are kept until one slot short of full, the rest is dropped. */
    method RxWrite(data: seq<byte>)
      requires Valid()
      modifies this`rxHead, rxBuf
      ensures Valid() && Bytes() == old(Bytes()) + data[..Min(|data|, RX_SIZE - 1 - |old(Bytes())|)]
    {
      hide Contents;
      var i := 0;
      while i < |data|
        invariant 0 <= i <= |data| && Valid()
        invariant Bytes() == old(Bytes()) + data[..i]
      {
        NextWraps(rxHead);
        var next := (rxHead + 1) % RX_SIZE;
        if next == rxTail { break; }
        Pushed(rxBuf[..], rxHead, rxTail, data[i]);
        rxBuf[rxHead] := data[i];
        rxHead := next;
        i := i + 1;
      }
    }

    /** The segment without data that tcp_send_segment makes of the connection as it is. */
    function Outgoing(fin: bool): (g: Segment)
      reads this
      ensures g == AckOf(Ctl()).(fin := fin)
    {
      Segment(seqNum, ackNum, false, true, fin, false, RX_SIZE, [])
    }

    /** The switch of tcp_receive, with the segments it sends back. */
    method Receive(g: Segment) returns (replies: seq<Segment>)
      requires Valid()
      modifies this, rxBuf
      ensures Valid() && Ctl() == Handle(old(Ctl()), g) && replies == Replies(old(Ctl()), g)
      ensures remoteWindow == if state == Established then if old(state) == SynSent || !g.fin then g.window else old(remoteWindow) else old(remoteWindow)
      ensures Bytes() == old(Bytes()) +
        if Accepts(old(Ctl()), g) then g.payload[..Min(|g.payload|, RX_SIZE - 1 - |old(Bytes())|)] else []
    {
      hide Contents, Count, Plus;
      replies := [];
      match state
      case SynSent =>
        if g.syn && g.ack {
          if g.ackNum == seqNum {
            ackNum := (g.seqNum + 1) % WORD;
            remoteWindow := g.window;
            state := Established;
            replies := [Outgoing(false)];
          }
        } else if g.rst {
          state := Closed;
        }
      case Established =>
        if g.rst {
          state := Closed;
          return;
        }
        if |g.payload| > 0 && g.seqNum == ackNum {
          RxWrite(g.payload);
          ackNum := (ackNum + |g.payload|) % WORD;
        }
        if g.fin {
          ackNum := (g.seqNum + |g.payload| + 1) % WORD;
          state := CloseWait;
          replies := [Outgoing(false), Outgoing(true)];
          seqNum := (seqNum + 1) % WORD;
          state := LastAck;
          return;
        }
        if |g.payload| > 0 { replies := [Outgoing(false)]; }
        remoteWindow := g.window;
      case FinWait1 =>
        if g.ack {
          if g.fin {
            ackNum := (g.seqNum + 1) % WORD;
            replies := [Outgoing(false)];
            state := TimeWait;
          } else {
            state := FinWait2;
          }
        }
      case FinWait2 =>
        if g.fin {
          ackNum := (g.seqNum + 1) % WORD;
          replies := [Outgoing(false)];
          state := TimeWait;
        }
      case LastAck =>
        if g.ack { state := Closed; }
      case _ =>
    }

    /** tcp_recv after its wait: the oldest bytes, as many as fit the caller's buffer. */
    method Recv(buf: array<byte>, maxLen: nat) returns (read: nat)
      requires Valid() && maxLen <= buf.Length && buf != rxBuf
      modifies this`rxTail, buf
      ensures Valid() && read == Min(maxLen, |old(Bytes())|)
      ensures buf[..read] == old(Bytes())[..read] && buf[read..] == old(buf[read..])
      ensures Bytes() == old(Bytes())[read..]
    {
      hide Contents;
      ghost var all := Bytes();
      read := 0;
      while read < maxLen && rxTail != rxHead
        invariant 0 <= read <= Min(maxLen, |old(Bytes())|) && Valid()
        invariant Bytes() == all[read..] && rxBuf[..] == old(rxBuf[..])
        invariant buf[..read] == all[..read] && forall i :: read <= i < buf.Length ==> buf[i] == old(buf[i])
        decreases maxLen - read
      {
        Popped(rxBuf[..], rxHead, rxTail);
        OneMore(all, read, rxBuf[rxTail], Contents(rxBuf[..], rxHead, Next(rxTail)));
        buf[read] := rxBuf[rxTail];
        NextWraps(rxTail);
        rxTail := (rxTail + 1) % RX_SIZE;
        read := read + 1;
      }
    }

    /** tcp_close up to its wait: an open connection sends its FIN, any other is closed at once. */
    method Close() returns (sent: seq<Segment>)
      modifies this`state, this`seqNum
      ensures ackNum == old(ackNum)
      ensures old(state) == Established ==>
        state == FinWait1 && seqNum == Plus(old(seqNum), 1) && |sent| == 1 && sent[0].fin && sent[0].ack && !sent[0].syn && !sent[0].rst
        && sent[0].seqNum == old(seqNum) && sent[0].ackNum == ackNum && sent[0].payload == []
      ensures old(state) != Established ==> state == Closed && seqNum == old(seqNum) && sent == []
    {
      sent := [];
      if state == Established {
        sent := [Outgoing(true)];
        seqNum := (seqNum + 1) % WORD;
        state := FinWait1;
      } else {
        state := Closed;
      }
    }

    /** tcp_send on a link that takes `up` more segments: what was sent is an initial part of the
        data, cut into segments whose sequence numbers follow one another. */
    method Send(data: seq<byte>, up: nat) returns (n: int, sent: seq<Segment>)
      requires |data| < 0x1_0000
      modifies this`seqNum
      ensures n == -1 <==> state != Established
      ensures n == -1 ==> sent == [] && seqNum == old(seqNum)
      ensures n >= 0 ==> n <= |data| && Joined(sent) == data[..n] && InOrder(sent, old(seqNum)) && seqNum == Plus(old(seqNum), n)
      ensures n >= 0 ==> (n == |data| <==> MSS * up >= |data|)
      ensures forall i :: 0 <= i < |sent| ==> 0 < |sent[i].payload| <= MSS && IsData(sent[i], ackNum)
      ensures ackNum == old(ackNum) && state == old(state)
    {
      hide Plus, Joined, InOrder;
      PlusPlus(seqNum, 0, 0);
      NoSegments(seqNum);
      sent := [];
      if state != Established { return -1, []; }
      var at := 0;
      var remaining := |data|;
      while remaining > 0
        invariant 0 <= remaining && at + remaining == |data| && |sent| <= up
        invariant remaining > 0 ==> at == MSS * |sent|
        invariant MSS * (|sent| - 1) < at <= MSS * |sent|
        invariant Joined(sent) == data[..at] && InOrder(sent, old(seqNum)) && seqNum == Plus(old(seqNum), at)
        invariant forall i :: 0 <= i < |sent| ==> 0 < |sent[i].payload| <= MSS && IsData(sent[i], ackNum)
      {
        var chunk := if remaining > MSS then MSS else remaining;
        if |sent| == up { return |data| - remaining, sent; }
        var g := Segment(seqNum, ackNum, false, true, false, false, RX_SIZE, data[at..at + chunk]);
        JoinedAppend(sent, g, old(seqNum));
        sent := sent + [g];
        PlusPlus(old(seqNum), at, chunk);
        assert data[..at] + data[at..at + chunk] == data[..at + chunk];
        seqNum := Plus(seqNum, chunk);
        at := at + chunk;
        remaining := remaining - chunk;
      }
      return |data|, sent;
    }
  }

  /** A data segment: it acknowledges, and neither opens, closes nor resets. */
  predicate IsData(g: Segment, ackNum: u32) { g.ack && g.ackNum == ackNum && !g.syn && !g.fin && !g.rst && g.window == RX_SIZE }

  lemma OneMore(all: seq<byte>, read: nat, x: byte, rest: seq<byte>)
    requires read <= |all| && all[read..] == [x] + rest
    ensures read < |all| && all[..read + 1] == all[..read] + [x] && all[read + 1..] == rest
  {
    assert |all[read..]| == |rest| + 1;
    assert all[read] == all[read..][0];
    assert all[read + 1..] == all[read..][1..];
  }

  lemma WrappedDifference(head: nat, tail: nat)
    requires head < RX_SIZE && tail < RX_SIZE
    ensures (head - tail) % WORD % RX_SIZE == Count(head, tail)
  {
    if head < tail {
      assert (head - tail) % WORD == head - tail + WORD;
      assert WORD == 524287 * RX_SIZE + RX_SIZE;
      assert (head - tail + RX_SIZE + 524287 * RX_SIZE) % RX_SIZE == head - tail + RX_SIZE;
    }
  }

  function Joined(gs: seq<Segment>): seq<byte> {
    if gs == [] then [] else Joined(gs[..|gs| - 1]) + gs[|gs| - 1].payload
  }

  /** Sequence numbers count modulo 2^32. */
  function Plus(s: u32, n: nat): u32 { (s + n) % WORD }

  lemma PlusPlus(s: u32, a: nat, b: nat)
    ensures Plus(Plus(s, a), b) == Plus(s, a + b) && Plus(s, 0) == s
  {
    AddMod(s + a, b);
  }

  /** Each segment starts where the ones before it end. */
  ghost predicate InOrder(gs: seq<Segment>, start: u32) {
    forall i :: 0 <= i < |gs| ==> gs[i].seqNum == Plus(start, |Joined(gs[..i])|)
  }

  lemma NoSegments(start: u32)
    ensures Joined([]) == [] && InOrder([], start)
  {
  }

  lemma JoinedAppend(gs: seq<Segment>, g: Segment, start: u32)
    requires InOrder(gs, start) && g.seqNum == Plus(start, |Joined(gs)|)
    ensures Joined(gs + [g]) == Joined(gs) + g.payload && InOrder(gs + [g], start)
  {
    hide Plus;
    var all := gs + [g];
    assert all[..|gs|] == gs;
    forall i | 0 <= i < |all| ensures all[i].seqNum == Plus(start, |Joined(all[..i])|) {
      if i < |gs| { assert all[..i] == gs[..i]; }
    }
  }

  lemma AddMod(a: nat, b: nat)
    ensures (a % WORD + b) % WORD == (a + b) % WORD
  {
    var q, r := a / WORD, a % WORD;
    assert a + b == (r + b) + q * WORD;
    ModPlus(r + b, q);
  }

  lemma ModPlus(x: nat, q: nat)
    ensures (x + q * WORD) % WORD == x % WORD
  {
    assert x + q * WORD == (x / WORD + q) * WORD + x % WORD;
  }
}
