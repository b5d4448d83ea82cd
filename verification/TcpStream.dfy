/** The receive path of net/tcp.c as two tasks that the timer interleaves statement by statement: the
    one that runs tcp_receive and the one that runs tcp_recv. The network may lose, repeat and
    reorder the peer's segments at will. */
module TcpStream {
  import opened Base
  import opened Tcp

  /** The other end: its initial sequence number, the number by which it acknowledges the SYN of this connection, and
      everything it ever sends. */
  datatype Peer = Peer(isn: u32, acks: u32, stream: seq<byte>)

  predicate PeerOk(p: Peer) { |p.stream| < WORD }

  /** The segment carries the stream's bytes from `at` on; the FIN is at its end. */
  predicate Carries(p: Peer, g: Segment, at: nat) {
    && at + |g.payload| <= |p.stream| && g.payload == p.stream[at..at + |g.payload|]
    && g.seqNum == Plus(Plus(p.isn, 1), at)
    && (g.fin ==> at + |g.payload| == |p.stream|)
  }

  /** A SYN that acknowledges the SYN of this connection. */
  predicate IsAnswer(p: Peer, g: Segment) { g.syn && g.ack && g.ackNum == p.acks }

  /** Anything the network delivers: the peer's answer to the SYN, SYNs left over from other connections, stretches of its
      stream in any split and as often as it likes, its FIN, resets, and acknowledgements after its FIN. */
  ghost predicate Genuine(p: Peer, g: Segment) {
    if g.syn then g.payload == [] && !g.fin && (IsAnswer(p, g) ==> g.seqNum == p.isn)
    else (exists at: nat :: Carries(p, g, at)) || (g.payload == [] && !g.fin)
  }

  // ---- the two tasks

  /** Where tcp_rx_write stands: before its test, before storing a byte, before moving the head, and
      after its loop with `kept` bytes stored. */
  datatype Writer =
    | Idle
    | Look(g: Segment, i: nat)
    | Put(g: Segment, i: nat, next: nat)
    | Move(g: Segment, i: nat, next: nat)
    | Done(g: Segment, kept: nat)

  /** Where tcp_recv stands, with what it has copied out. */
  datatype Reader =
    | Away
    | Test(max: nat, got: seq<byte>)
    | Copy(max: nat, got: seq<byte>)
    | Advance(max: nat, got: seq<byte>)

  /** The connection with both tasks, and the history: `pos` bytes of the stream acknowledged, of which
      `dropped` were thrown away, and `delivered` returned by calls of tcp_recv. */
  datatype Net = Net(c: Control, buf: Ring, head: nat, tail: nat, w: Writer, r: Reader,
                     pos: nat, dropped: nat, delivered: seq<byte>)

  datatype Event = Arrive(g: Segment) | Write | Call(max: nat) | Read | Shut(to: State)

  predicate Wired(s: Net) { s.head < RX_SIZE && s.tail < RX_SIZE && WriterOk(s) }

  predicate WriterOk(s: Net) {
    match s.w
    case Idle => true
    case Look(g, i) => i <= |g.payload|
    case Put(g, i, next) => i < |g.payload| && next < RX_SIZE
    case Move(g, i, next) => i < |g.payload| && next < RX_SIZE
    case Done(g, kept) => kept <= |g.payload|
  }

  /** One statement of the receiving task. */
  function WriteStep(s: Net): (s': Net)
    requires Wired(s)
    ensures Wired(s')
  {
    match s.w
    case Idle => s
    case Look(g, i) =>
      if i == |g.payload| then s.(w := Done(g, i))
      else if Next(s.head) == s.tail then s.(w := Done(g, i))
      else s.(w := Put(g, i, Next(s.head)))
    case Put(g, i, next) => s.(buf := s.buf[s.head := g.payload[i]], w := Move(g, i, next))
    case Move(g, i, next) => s.(head := next, w := Look(g, i + 1))
    case Done(g, kept) =>
      s.(c := Finish(Acked(s.c, g), g), w := Idle, pos := s.pos + |g.payload|, dropped := s.dropped + |g.payload| - kept)
  }

  /** One statement of the reading task. */
  function ReadStep(s: Net): Net
    requires Wired(s)
  {
    match s.r
    case Away => s
    case Test(max, got) =>
      if |got| < max && s.tail != s.head then s.(r := Copy(max, got)) else s.(r := Away, delivered := s.delivered + got)
    case Copy(max, got) => s.(r := Advance(max, got + [s.buf[s.tail]]))
    case Advance(max, got) => s.(tail := Next(s.tail), r := Test(max, got))
  }

  ghost predicate Step(p: Peer, s: Net, e: Event, s': Net)
    requires Wired(s)
  {
    match e
    case Arrive(g) =>
      s.w.Idle? && Genuine(p, g) && s' == if Accepts(s.c, g) then s.(w := Look(g, 0)) else s.(c := Handle(s.c, g))
    case Write => s' == WriteStep(s)
    case Call(max) => s.r.Away? && s' == s.(r := Test(max, []))
    case Read => s' == ReadStep(s)
    case Shut(to) =>
      if to == FinWait1 then s.c.state == Established && s' == s.(c := s.c.(state := to, seqNum := Plus(s.c.seqNum, 1)))
      else to == Closed && s' == s.(c := s.c.(state := to))
  }

  function Writes(s: Net, n: nat): Net
    requires Wired(s)
    decreases n
  {
    if n == 0 then s else Writes(WriteStep(s), n - 1)
  }

  /** Left alone, the statements of the receiving task add up to what `Connection.RxWrite` does. */
  lemma {:induction false} WriterAlone(s: Net) returns (n: nat)
    requires Wired(s) && s.w.Look?
    ensures var kept := s.w.i + Min(|s.w.g.payload| - s.w.i, RX_SIZE - 1 - Count(s.head, s.tail)); var s' := Writes(s, n);
      && s' == s.(buf := s'.buf, head := s'.head, w := Done(s.w.g, kept)) && Wired(s')
      && Contents(s'.buf, s'.head, s'.tail) == Contents(s.buf, s.head, s.tail) + s.w.g.payload[s.w.i..kept]
    decreases |s.w.g.payload| - s.w.i
  {
    hide Contents, Next, Count, Writes, WriteStep, Plus;
    if s.w.i == |s.w.g.payload| || Next(s.head) == s.tail {
      RingFull(s.head, s.tail);
      OneStep(s);
      n := 1;
    } else {
      var s3 := OneByte(s);
      var m := WriterAlone(s3);
      ThreeSteps(s, m);
      n := m + 3;
    }
  }

  lemma OneStep(s: Net)
    requires Wired(s)
    ensures Writes(s, 1) == WriteStep(s)
    ensures s.w.Look? && (s.w.i == |s.w.g.payload| || Next(s.head) == s.tail) ==> WriteStep(s) == s.(w := Done(s.w.g, s.w.i))
  {
    hide Next;
    assert Writes(s, 1) == Writes(WriteStep(s), 0);
  }

  lemma ThreeSteps(s: Net, m: nat)
    requires Wired(s)
    ensures Writes(s, m + 3) == Writes(WriteStep(WriteStep(WriteStep(s))), m)
  {
    hide WriteStep;
    var s1 := WriteStep(s);
    var s2 := WriteStep(s1);
    assert Writes(s, m + 3) == Writes(s1, m + 2) == Writes(s2, m + 1);
  }

  /** The ring is full exactly when its count says so, and one byte more lowers the room by one. */
  lemma RingFull(head: nat, tail: nat)
    requires head < RX_SIZE && tail < RX_SIZE
    ensures Next(head) == tail <==> Count(head, tail) == RX_SIZE - 1
    ensures Next(head) != tail ==> Count(Next(head), tail) == Count(head, tail) + 1
  {
  }

  /** Three statements of the writer store one byte. */
  lemma OneByte(s: Net) returns (s3: Net)
    requires Wired(s) && s.w.Look? && s.w.i < |s.w.g.payload| && Next(s.head) != s.tail
    ensures s3 == WriteStep(WriteStep(WriteStep(s))) && Wired(s3)
    ensures s3 == s.(buf := s3.buf, head := Next(s.head), w := Look(s.w.g, s.w.i + 1))
    ensures Contents(s3.buf, s3.head, s3.tail) == Contents(s.buf, s.head, s.tail) + [s.w.g.payload[s.w.i]]
    ensures Count(s3.head, s3.tail) == Count(s.head, s.tail) + 1
  {
    hide Contents, Next, Count;
    s3 := WriteStep(WriteStep(WriteStep(s)));
    Pushed(s.buf, s.head, s.tail, s.w.g.payload[s.w.i]);
    RingFull(s.head, s.tail);
  }

  // ---- what holds at every statement

  function Got(r: Reader): seq<byte> { if r.Away? then [] else r.got }

  /** What was delivered, what the current call has copied, and what is still in the ring; the byte
      that was copied but not yet passed over counts once. */
  function Stored(s: Net): seq<byte>
    requires Wired(s)
  {
    s.delivered + Got(s.r) + Contents(s.buf, s.head, if s.r.Advance? then Next(s.tail) else s.tail)
  }

  /** How much of the segment in hand is in the ring. */
  function Written(w: Writer): nat {
    match w case Idle => 0 case Done(_, kept) => kept case _ => w.i
  }

  ghost predicate WriterInv(p: Peer, s: Net)
    requires Wired(s)
  {
    !s.w.Idle? ==>
      && s.pos + |s.w.g.payload| <= |p.stream| && s.w.g.payload == p.stream[s.pos..s.pos + |s.w.g.payload|]
      && (s.w.g.fin ==> s.pos + |s.w.g.payload| == |p.stream|)
      && (s.w.Put? || s.w.Move? ==> s.w.next == Next(s.head) && s.w.next != s.tail)
      && (s.w.Move? ==> s.buf[s.head] == s.w.g.payload[s.w.i])
  }

  predicate ReaderInv(s: Net) {
    (s.r.Copy? || s.r.Advance? ==> s.tail != s.head) && (!s.r.Away? ==> |s.r.got| <= s.r.max) && (s.r.Copy? ==> |s.r.got| < s.r.max)
  }

  ghost predicate StreamInv(p: Peer, s: Net)
    requires Wired(s)
  {
    && |Stored(s)| + s.dropped == s.pos + Written(s.w)
    && (s.dropped == 0 ==> s.pos + Written(s.w) <= |p.stream| && Stored(s) == p.stream[..s.pos + Written(s.w)])
  }

  predicate AckInv(p: Peer, s: Net) {
    && s.pos <= |p.stream|
    && (s.c.state == SynSent ==> s.pos == 0 && s.w.Idle? && s.c.seqNum == p.acks)
    && (s.c.state == Established || !s.w.Idle? ==> s.c.ackNum == Plus(Plus(p.isn, 1), s.pos))
  }

  ghost predicate Inv(p: Peer, s: Net) {
    PeerOk(p) && Wired(s) && WriterInv(p, s) && ReaderInv(s) && StreamInv(p, s) && AckInv(p, s)
  }

  /** A connection whose SYN has been sent. */
  predicate Initial(p: Peer, s: Net) {
    s.c.state == SynSent && s.c.seqNum == p.acks && s.head == 0 && s.tail == 0 && s.w.Idle? && s.r.Away? && s.pos == 0 && s.dropped == 0 && s.delivered == []
  }

  lemma InitialOk(p: Peer, s: Net)
    requires PeerOk(p) && Initial(p, s)
    ensures Inv(p, s)
  {
  }

  /** Within 2^32 bytes a sequence number names one place of the stream. */
  lemma OnePlace(s: u32, a: nat, b: nat)
    requires a < WORD && b < WORD && Plus(s, a) == Plus(s, b)
    ensures a == b
  {
  }

  /** The segment the receiver accepts continues the stream where it stands. */
  lemma AcceptedContinues(p: Peer, s: Net, g: Segment)
    requires Inv(p, s) && s.w.Idle? && Genuine(p, g) && Accepts(s.c, g)
    ensures Carries(p, g, s.pos)
  {
    hide Plus, Wired, WriterInv, StreamInv;
    var at: nat :| Carries(p, g, at);
    OnePlace(Plus(p.isn, 1), at, s.pos);
  }

  lemma PlusOne(s: u32)
    ensures Plus(Plus(s, 1), 0) == Plus(s, 1) == (s + 1) % WORD
  {
  }

  lemma ArriveKeeps(p: Peer, s: Net, g: Segment, s': Net)
    requires Inv(p, s) && Step(p, s, Arrive(g), s')
    ensures Inv(p, s')
  {
    hide Plus, Contents;
    if Accepts(s.c, g) {
      AcceptedContinues(p, s, g);
    } else {
      PlusOne(p.isn);
    }
    assert Stored(s') == Stored(s);
  }

  lemma LookKeeps(p: Peer, s: Net)
    requires Inv(p, s) && s.w.Look?
    ensures Inv(p, WriteStep(s))
  {
    hide Contents, Plus, Next;
    assert Stored(WriteStep(s)) == Stored(s);
  }

  lemma PutKeeps(p: Peer, s: Net)
    requires Inv(p, s) && s.w.Put?
    ensures Inv(p, WriteStep(s))
  {
    hide Contents, Plus, Next;
    NotYet(s.buf, s.head, if s.r.Advance? then Next(s.tail) else s.tail, s.w.g.payload[s.w.i]);
    assert Stored(WriteStep(s)) == Stored(s);
  }

  lemma AfterNext(head: nat, tail: nat)
    requires head < RX_SIZE && tail < RX_SIZE && head != tail && Next(head) != tail
    ensures Next(head) != Next(tail)
  {
  }

  lemma MoveKeeps(p: Peer, s: Net)
    requires Inv(p, s) && s.w.Move?
    ensures Inv(p, WriteStep(s))
  {
    hide Contents, Plus, Next;
    var s' := WriteStep(s);
    var tail := if s.r.Advance? then Next(s.tail) else s.tail;
    if s.r.Advance? { AfterNext(s.head, s.tail); }
    assert s.buf[s.head := s.buf[s.head]] == s.buf;
    Pushed(s.buf, s.head, tail, s.buf[s.head]);
    var x := s.buf[s.head];
    assert Stored(s') == Stored(s) + [x];
    var n := s.pos + s.w.i;
    assert x == p.stream[n];
    assert p.stream[..n] + [x] == p.stream[..n + 1];
  }

  lemma DoneKeeps(p: Peer, s: Net)
    requires Inv(p, s) && s.w.Done?
    ensures Inv(p, WriteStep(s))
  {
    hide Contents, Plus, Next;
    var s' := WriteStep(s);
    assert Stored(s') == Stored(s);
    PlusPlus(Plus(p.isn, 1), s.pos, |s.w.g.payload|);
    AckedPlus(s.c, s.w.g);
  }

  lemma AckedPlus(c: Control, g: Segment)
    ensures Acked(c, g).ackNum == Plus(c.ackNum, |g.payload|)
  {
  }

  lemma WriteKeeps(p: Peer, s: Net)
    requires Inv(p, s)
    ensures Inv(p, WriteStep(s))
  {
    hide Plus, Contents, Next, Stored;
    match s.w
    case Idle =>
    case Look(g, i) => LookKeeps(p, s);
    case Put(g, i, next) => PutKeeps(p, s);
    case Move(g, i, next) => MoveKeeps(p, s);
    case Done(g, kept) => DoneKeeps(p, s);
  }

  /** No statement of the reader changes what was delivered and what is stored, taken together. */
  lemma ReadStored(s: Net)
    requires Wired(s) && ReaderInv(s)
    ensures Wired(ReadStep(s)) && (!s.r.Away? ==> Stored(ReadStep(s)) == Stored(s))
  {
    hide Contents, Next;
    match s.r
    case Away =>
    case Test(max, got) =>
      assert s.delivered + got + Contents(s.buf, s.head, s.tail) == (s.delivered + got) + [] + Contents(s.buf, s.head, s.tail);
    case Copy(max, got) =>
      Popped(s.buf, s.head, s.tail);
      var x, rest := s.buf[s.tail], Contents(s.buf, s.head, Next(s.tail));
      assert s.delivered + got + ([x] + rest) == s.delivered + (got + [x]) + rest;
    case Advance(max, got) =>
  }

  lemma ReadKeeps(p: Peer, s: Net)
    requires Inv(p, s)
    ensures Inv(p, ReadStep(s)) && (!s.r.Away? ==> Stored(ReadStep(s)) == Stored(s))
  {
    hide Plus, Contents, Next, Stored;
    ReadStored(s);
    if s.r.Advance? { TailMoves(s); }
  }

  lemma TailMoves(s: Net)
    requires Wired(s) && s.r.Advance? && s.tail != s.head && (s.w.Put? || s.w.Move? ==> s.w.next == Next(s.head))
    ensures s.w.Put? || s.w.Move? ==> s.w.next != Next(s.tail)
  {
  }

  lemma StepKeeps(p: Peer, s: Net, e: Event, s': Net)
    requires Inv(p, s) && Step(p, s, e, s')
    ensures Inv(p, s')
  {
    hide Plus, Contents, Next, Stored;
    match e
    case Arrive(g) => ArriveKeeps(p, s, g, s');
    case Write => WriteKeeps(p, s);
    case Call(max) => OutsideKeeps(p, s, e, s');
    case Read => ReadKeeps(p, s);
    case Shut(to) => OutsideKeeps(p, s, e, s');
  }

  lemma OutsideKeeps(p: Peer, s: Net, e: Event, s': Net)
    requires Inv(p, s) && Step(p, s, e, s') && (e.Call? || e.Shut?)
    ensures Inv(p, s')
  {
    hide Plus, Contents, Next, Genuine, Handle, WriteStep, ReadStep;
    assert s'.c.ackNum == s.c.ackNum && s'.w == s.w && s'.pos == s.pos;
    assert Stored(s') == Stored(s) by { assert Got(s'.r) == Got(s.r); }
  }

  // ---- whole runs

  ghost predicate StepAt(p: Peer, ss: seq<Net>, es: seq<Event>, i: nat)
    requires i < |es| < |ss|
  {
    Wired(ss[i]) && Step(p, ss[i], es[i], ss[i + 1])
  }

  ghost predicate Run(p: Peer, ss: seq<Net>, es: seq<Event>) {
    |ss| == |es| + 1 && Initial(p, ss[0]) && forall i :: 0 <= i < |es| ==> StepAt(p, ss, es, i)
  }

  lemma {:induction false} RunInv(p: Peer, ss: seq<Net>, es: seq<Event>, k: nat)
    requires PeerOk(p) && Run(p, ss, es) && k <= |es|
    ensures Inv(p, ss[k])
    decreases k
  {
    hide Step, Inv;
    if k == 0 {
      InitialOk(p, ss[0]);
    } else {
      RunInv(p, ss, es, k - 1);
      assert StepAt(p, ss, es, k - 1);
      StepKeeps(p, ss[k - 1], es[k - 1], ss[k]);
    }
  }

  /** Stream safety at every statement of every run. What tcp_recv returned and what the ring holds is
      the stream up to the byte being written, exactly as long as nothing was dropped on a full
      ring; while ESTABLISHED the acknowledgement number stands at its end, plus what was dropped. */
  lemma StreamSafety(p: Peer, ss: seq<Net>, es: seq<Event>, k: nat)
    requires PeerOk(p) && Run(p, ss, es) && k <= |es|
    ensures var s := ss[k]; var n := s.pos + Written(s.w);
      && Wired(s) && (s.dropped == 0 <==> n <= |p.stream| && Stored(s) == p.stream[..n])
      && |Stored(s)| == n - s.dropped
      && (s.dropped == 0 ==> s.delivered <= p.stream)
      && (s.c.state == Established ==> s.c.ackNum == Plus(Plus(p.isn, 1), s.pos))
  {
    hide Contents, Plus, Step;
    RunInv(p, ss, es, k);
    var s := ss[k];
    if s.dropped == 0 {
      assert s.delivered <= Stored(s);
    }
  }

  // ---- when nothing is dropped

  function Free(s: Net): int
    requires Wired(s)
  {
    RX_SIZE - 1 - Count(s.head, s.tail)
  }

  /** Each segment, when it is accepted, fits the ring as it is then. */
  ghost predicate AllFit(ss: seq<Net>, es: seq<Event>)
    requires |ss| == |es| + 1
  {
    forall i :: 0 <= i < |es| && es[i].Arrive? && Wired(ss[i]) && Accepts(ss[i].c, es[i].g) ==> |es[i].g.payload| <= Free(ss[i])
  }

  predicate Fitting(s: Net)
    requires Wired(s)
  {
    s.dropped == 0 &&
    match s.w
    case Idle => true
    case Done(g, kept) => kept == |g.payload|
    case _ => |s.w.g.payload| - s.w.i <= Free(s)
  }

  lemma FittingStep(p: Peer, s: Net, e: Event, s': Net)
    requires Inv(p, s) && Fitting(s) && Step(p, s, e, s') && Wired(s')
    requires e.Arrive? && Accepts(s.c, e.g) ==> |e.g.payload| <= Free(s)
    ensures Fitting(s')
  {
    hide Plus, Contents, Stored, Genuine, StreamInv, AckInv, Handle, Finish, Acked;
    match e
    case Arrive(g) =>
    case Write => FittingWrite(p, s);
    case Call(max) =>
    case Read => FittingRead(s);
    case Shut(to) =>
  }

  lemma FittingWrite(p: Peer, s: Net)
    requires Inv(p, s) && Fitting(s)
    ensures Fitting(WriteStep(s))
  {
    hide Plus, Contents, Stored, Genuine, StreamInv, AckInv, Finish, Acked;
  }

  lemma FittingRead(s: Net)
    requires Wired(s) && ReaderInv(s) && Fitting(s)
    ensures Wired(ReadStep(s)) && Fitting(ReadStep(s))
  {
    hide Contents;
  }

  /** Nothing is ever dropped when each accepted segment fits, whatever the reader does meanwhile. */
  lemma {:induction false} NothingDropped(p: Peer, ss: seq<Net>, es: seq<Event>, k: nat)
    requires PeerOk(p) && Run(p, ss, es) && AllFit(ss, es) && k <= |es|
    ensures Wired(ss[k]) && Fitting(ss[k])
    decreases k
  {
    hide Step, Inv, Fitting;
    RunInv(p, ss, es, k);
    assert Wired(ss[k]) by { InvWired(p, ss[k]); }
    if k == 0 {
      InitialFits(p, ss[0]);
    } else {
      RunInv(p, ss, es, k - 1);
      NothingDropped(p, ss, es, k - 1);
      assert StepAt(p, ss, es, k - 1);
      FittingStep(p, ss[k - 1], es[k - 1], ss[k]);
    }
  }

  lemma InvWired(p: Peer, s: Net)
    requires Inv(p, s)
    ensures Wired(s)
  {
  }

  lemma InitialFits(p: Peer, s: Net)
    requires Initial(p, s) && Wired(s)
    ensures Fitting(s)
  {
  }

  /** This statement finds the ring full with bytes of the segment left, and gives them up. */
  predicate GivesUp(s: Net, e: Event) {
    e.Write? && s.w.Look? && s.w.i < |s.w.g.payload| && s.head < RX_SIZE && Next(s.head) == s.tail
  }

  /** Nothing was dropped, and nothing is about to be. */
  predicate Lossless(s: Net) { s.dropped == 0 && (s.w.Done? ==> s.w.kept == |s.w.g.payload|) }

  lemma LosslessStep(p: Peer, s: Net, e: Event, s': Net)
    requires Inv(p, s) && Step(p, s, e, s')
    ensures Lossless(s') <==> Lossless(s) && !GivesUp(s, e)
  {
    hide Plus, Contents, Genuine, Handle, Finish, Acked;
  }

  /** Nothing is lost if and only if the writer's test never finds the ring full with bytes left. */
  lemma {:induction false} LosslessIff(p: Peer, ss: seq<Net>, es: seq<Event>, k: nat)
    requires PeerOk(p) && Run(p, ss, es) && k <= |es|
    ensures Lossless(ss[k]) <==> forall i :: 0 <= i < k ==> !GivesUp(ss[i], es[i])
    decreases k
  {
    hide Step, Inv, Lossless, GivesUp;
    if k == 0 {
      InitialLossless(p, ss[0]);
    } else {
      RunInv(p, ss, es, k - 1);
      LosslessIff(p, ss, es, k - 1);
      assert StepAt(p, ss, es, k - 1);
      LosslessStep(p, ss[k - 1], es[k - 1], ss[k]);
    }
  }

  lemma InitialLossless(p: Peer, s: Net)
    requires Initial(p, s)
    ensures Lossless(s)
  {
  }

  // ---- the end of the stream

  /** A FIN is acknowledged wherever it lies: the acknowledgement then covers the whole stream, which has
      really arrived only if the receiver had reached the end of the data before it. */
  lemma FinAcksAll(p: Peer, s: Net, g: Segment, s': Net)
    requires Inv(p, s) && s.dropped == 0 && s.c.state == Established && Step(p, s, Arrive(g), s')
    requires g.fin && !g.rst && !g.syn && !Accepts(s.c, g)
    ensures Wired(s') && s'.c.state == LastAck && s'.c.ackNum == Plus(Plus(p.isn, 1), |p.stream| + 1)
    ensures Stored(s') == p.stream <==> s.pos == |p.stream|
  {
    hide Plus, Contents;
    var at: nat :| Carries(p, g, at);
    PlusPlus(Plus(p.isn, 1), at, |g.payload| + 1);
    SeqEnd(g);
    assert Stored(s') == Stored(s);
  }

  lemma SeqEnd(g: Segment)
    ensures (g.seqNum + |g.payload| + 1) % WORD == Plus(g.seqNum, |g.payload| + 1)
  {
  }

  /** The FIN of an accepted segment ends a stream that has arrived in full, unless bytes were dropped. */
  lemma FinInOrder(p: Peer, s: Net)
    requires Inv(p, s) && s.w.Done? && s.w.g.fin
    ensures var s' := WriteStep(s); Wired(s') && s'.c.state == LastAck && (Stored(s') == p.stream <==> s'.dropped == 0)
  {
    hide Plus, Contents;
    DoneKeeps(p, s);
    assert p.stream[..|p.stream|] == p.stream;
  }

  /** What tcp_send emits on one machine is a genuine peer's stream for the other. */
  lemma SentIsGenuine(gs: seq<Segment>, iss: u32, acks: u32, i: nat, ackNum: u32)
    requires i < |gs| && InOrder(gs, Plus(iss, 1)) && IsData(gs[i], ackNum)
    ensures Genuine(Peer(iss, acks, Joined(gs)), gs[i])
  {
    hide Plus, Joined, Contents;
    JoinedAt(gs, i);
    assert Carries(Peer(iss, acks, Joined(gs)), gs[i], |Joined(gs[..i])|);
  }

  lemma {:induction false} JoinedAt(gs: seq<Segment>, i: nat)
    requires i < |gs|
    ensures var at := |Joined(gs[..i])|; at + |gs[i].payload| <= |Joined(gs)| && Joined(gs)[at..at + |gs[i].payload|] == gs[i].payload
  {
    var n := |gs| - 1;
    var before := Joined(gs[..n]);
    assert Joined(gs) == before + gs[n].payload;
    if i < n {
      JoinedAt(gs[..n], i);
      assert gs[..n][..i] == gs[..i];
      var at := |Joined(gs[..i])|;
      assert Joined(gs)[at..at + |gs[i].payload|] == before[at..at + |gs[i].payload|];
    } else {
      assert (before + gs[n].payload)[|before|..] == gs[n].payload;
    }
  }

  // ---- opening

  /** The connection has been open: it is past its handshake, or a segment is in hand. */
  predicate Opened(s: Net) { (s.c.state != SynSent && s.c.state != Closed) || !s.w.Idle? }

  /** A segment opens the connection if and only if it is a SYN that acknowledges the SYN of this connection. */
  lemma OpensIff(p: Peer, s: Net, g: Segment, s': Net)
    requires Inv(p, s) && s.c.state == SynSent && Step(p, s, Arrive(g), s')
    ensures s'.c.state == Established <==> IsAnswer(p, g)
    ensures s'.c.state == Established ==> s'.c.ackNum == Plus(p.isn, 1)
    ensures Opened(s') <==> s'.c.state == Established
  {
    hide Contents;
  }

  lemma StaysShut(p: Peer, s: Net, e: Event, s': Net)
    requires Inv(p, s) && Step(p, s, e, s') && !Opened(s) && Opened(s')
    ensures s.c.state == SynSent && e.Arrive? && IsAnswer(p, e.g)
  {
    hide Contents, Plus;
  }

  /** On every run a connection that has been open has seen such a SYN while it waited for it. */
  lemma {:induction false} OpenedBy(p: Peer, ss: seq<Net>, es: seq<Event>, k: nat) returns (i: nat)
    requires PeerOk(p) && Run(p, ss, es) && k <= |es| && Opened(ss[k])
    ensures i < k && ss[i].c.state == SynSent && es[i].Arrive? && IsAnswer(p, es[i].g) && ss[i + 1].c.state == Established
    decreases k
  {
    hide Step, Inv, IsAnswer;
    if k > 0 {
      RunInv(p, ss, es, k - 1);
      assert StepAt(p, ss, es, k - 1);
      if Opened(ss[k - 1]) {
        i := OpenedBy(p, ss, es, k - 1);
      } else {
        StaysShut(p, ss[k - 1], es[k - 1], ss[k]);
        OpensIff(p, ss[k - 1], es[k - 1].g, ss[k]);
        i := k - 1;
      }
    }
  }

  // ---- a whole connection

  /** The segments that arrive in these events. */
  function Arrivals(es: seq<Event>): seq<Segment> {
    if es == [] then []
    else Arrivals(es[..|es| - 1]) + if es[|es| - 1].Arrive? then [es[|es| - 1].g] else []
  }

  /** The peer's whole stream in order, in any split, the FIN on the last segment. */
  ghost predicate InTurn(p: Peer, gs: seq<Segment>) {
    && gs != [] && InOrder(gs, Plus(p.isn, 1)) && Joined(gs) == p.stream
    && forall i :: 0 <= i < |gs| ==> !gs[i].syn && !gs[i].rst && (gs[i].fin <==> i == |gs| - 1)
  }

  /** The answer to the SYN, the stream, and an acknowledgement. */
  function Script(answer: Segment, gs: seq<Segment>, last: Segment): seq<Segment> { [answer] + gs + [last] }

  /** Where the connection stands after the first `a` segments of the script. */
  ghost predicate Stage(p: Peer, gs: seq<Segment>, s: Net, a: nat) {
    if a == 0 then s.c.state == SynSent && s.w.Idle?
    else if a <= |gs| + 1 then
      if s.w.Idle? then s.pos == |Joined(gs[..a - 1])| && s.c.state == if a - 1 == |gs| then LastAck else Established
      else a > 1 && s.w.g == gs[a - 2] && s.pos == |Joined(gs[..a - 2])| && s.c.state == Established
    else s.c.state == Closed && s.w.Idle? && s.pos == |p.stream|
  }

  lemma JoinedStep(gs: seq<Segment>, j: nat)
    requires j < |gs|
    ensures |Joined(gs[..j + 1])| == |Joined(gs[..j])| + |gs[j].payload|
  {
    assert gs[..j + 1][..j] == gs[..j];
  }

  lemma DataArrives(p: Peer, gs: seq<Segment>, s: Net, a: nat, s': Net)
    requires Inv(p, s) && InTurn(p, gs) && 1 <= a <= |gs| && Stage(p, gs, s, a) && Step(p, s, Arrive(gs[a - 1]), s')
    ensures Stage(p, gs, s', a + 1)
  {
    hide Plus, Contents, Joined, WriterInv, StreamInv, ReaderInv, Genuine;
    assert gs[a - 1].seqNum == s.c.ackNum;
    JoinedStep(gs, a - 1);
  }

  lemma StageArrive(p: Peer, answer: Segment, gs: seq<Segment>, last: Segment, s: Net, a: nat, s': Net)
    requires Inv(p, s) && InTurn(p, gs) && IsAnswer(p, answer) && last.ack && a < |gs| + 2 && Stage(p, gs, s, a)
    requires Step(p, s, Arrive(Script(answer, gs, last)[a]), s')
    ensures Stage(p, gs, s', a + 1)
  {
    hide Plus, Contents, Joined, WriterInv, StreamInv, ReaderInv, Genuine;
    if a == 0 {
      assert gs[..0] == [];
      NoSegments(0);
    } else if a <= |gs| {
      assert Script(answer, gs, last)[a] == gs[a - 1];
      DataArrives(p, gs, s, a, s');
    } else {
      assert gs[..|gs|] == gs;
    }
  }

  lemma StageWrite(p: Peer, gs: seq<Segment>, s: Net, a: nat)
    requires Inv(p, s) && InTurn(p, gs) && a <= |gs| + 2 && Stage(p, gs, s, a)
    ensures Stage(p, gs, WriteStep(s), a)
  {
    hide Plus, Contents, Joined, Next, StreamInv, ReaderInv, AckInv;
    if s.w.Done? { JoinedStep(gs, a - 2); }
  }

  lemma StageStep(p: Peer, answer: Segment, gs: seq<Segment>, last: Segment, s: Net, e: Event, a: nat, s': Net)
    requires Inv(p, s) && InTurn(p, gs) && IsAnswer(p, answer) && last.ack && Stage(p, gs, s, a) && Step(p, s, e, s') && !e.Shut?
    requires if e.Arrive? then a < |gs| + 2 && e.g == Script(answer, gs, last)[a] else a <= |gs| + 2
    ensures Stage(p, gs, s', if e.Arrive? then a + 1 else a)
  {
    hide Inv, InTurn, Plus, Contents, Joined, Script, Handle, WriteStep, Genuine;
    match e
    case Arrive(g) => StageArrive(p, answer, gs, last, s, a, s');
    case Write => StageWrite(p, gs, s, a);
    case Call(max) =>
    case Read =>
  }

  lemma {:induction false} StageAt(p: Peer, ss: seq<Net>, es: seq<Event>, answer: Segment, gs: seq<Segment>, last: Segment, k: nat)
    requires PeerOk(p) && Run(p, ss, es) && k <= |es| && InTurn(p, gs) && IsAnswer(p, answer) && last.ack
    requires (forall i :: 0 <= i < |es| ==> !es[i].Shut?) && Arrivals(es[..k]) <= Script(answer, gs, last)
    ensures Stage(p, gs, ss[k], |Arrivals(es[..k])|)
    decreases k
  {
    hide Step, Inv, InTurn, IsAnswer, Stage, Script, Arrivals;
    if k == 0 {
      if es != [] { ArrivalsNext(es, 0); }
      NoArrivals(es[..0]);
      FirstStage(p, gs, ss[0]);
    } else {
      RunInv(p, ss, es, k - 1);
      ArrivalsNext(es, k - 1);
      var before := Arrivals(es[..k - 1]);
      StageAt(p, ss, es, answer, gs, last, k - 1);
      assert StepAt(p, ss, es, k - 1);
      ScriptLength(answer, gs, last);
      if es[k - 1].Arrive? { assert Arrivals(es[..k])[|before|] == es[k - 1].g; }
      StageStep(p, answer, gs, last, ss[k - 1], es[k - 1], |before|, ss[k]);
    }
  }

  lemma NoArrivals(es: seq<Event>)
    requires es == []
    ensures Arrivals(es) == []
  {
  }

  lemma FirstStage(p: Peer, gs: seq<Segment>, s: Net)
    requires Initial(p, s)
    ensures Stage(p, gs, s, 0)
  {
  }

  lemma ScriptLength(answer: Segment, gs: seq<Segment>, last: Segment)
    ensures |Script(answer, gs, last)| == |gs| + 2
  {
  }

  /** A whole connection. On every run on which the answer to the SYN arrives, then the peer's stream in order, in any split
      and with its FIN at the end, then an acknowledgement, whatever the reader does meanwhile: the connection ends CLOSED;
      and when each segment fits the ring, all of the stream has been stored, and delivered once the reader has emptied the
      ring. */
  lemma WholeConnection(p: Peer, ss: seq<Net>, es: seq<Event>, answer: Segment, gs: seq<Segment>, last: Segment)
    requires PeerOk(p) && Run(p, ss, es) && InTurn(p, gs) && IsAnswer(p, answer) && last.ack
    requires (forall i :: 0 <= i < |es| ==> !es[i].Shut?) && Arrivals(es) == Script(answer, gs, last)
    ensures var s := ss[|es|];
      && Wired(s) && s.c.state == Closed && s.w.Idle? && s.pos == |p.stream|
      && (AllFit(ss, es) ==> Stored(s) == p.stream)
      && (AllFit(ss, es) && s.r.Away? && s.head == s.tail ==> s.delivered == p.stream)
  {
    hide Step, InTurn, IsAnswer, Script, Stage, Inv, Stored, AllFit, Fitting, Arrivals;
    var n := |es|;
    assert es[..n] == es;
    RunInv(p, ss, es, n);
    StageAt(p, ss, es, answer, gs, last, n);
    ScriptLength(answer, gs, last);
    LastStage(p, gs, ss[n]);
    if AllFit(ss, es) {
      NothingDropped(p, ss, es, n);
      AllStored(p, ss[n]);
    }
  }

  lemma LastStage(p: Peer, gs: seq<Segment>, s: Net)
    requires Inv(p, s) && Stage(p, gs, s, |gs| + 2)
    ensures Wired(s) && s.c.state == Closed && s.w.Idle? && s.pos == |p.stream|
  {
  }

  lemma AllStored(p: Peer, s: Net)
    requires Inv(p, s) && Fitting(s) && s.w.Idle? && s.pos == |p.stream|
    ensures Stored(s) == p.stream && (s.r.Away? && s.head == s.tail ==> s.delivered == p.stream)
  {
    assert p.stream[..|p.stream|] == p.stream;
  }

  /** The segments of tcp_send and the FIN of tcp_close are such a stream. */
  lemma SentInTurn(gs: seq<Segment>, fin: Segment, iss: u32, acks: u32, ackNum: u32)
    requires InOrder(gs, Plus(iss, 1)) && forall i :: 0 <= i < |gs| ==> IsData(gs[i], ackNum)
    requires fin.fin && !fin.syn && !fin.rst && fin.payload == [] && fin.seqNum == Plus(Plus(iss, 1), |Joined(gs)|)
    ensures InTurn(Peer(iss, acks, Joined(gs)), gs + [fin])
  {
    hide Plus, Joined, InOrder;
    JoinedAppend(gs, fin, Plus(iss, 1));
    assert Joined(gs) + [] == Joined(gs);
  }

  /** Two machines: what one sends with tcp_send and closes with tcp_close, the other delivers, on every run on which the
      handshake's answer, those segments in order and an acknowledgement arrive and each fits the ring. */
  lemma TwoMachines(gs: seq<Segment>, fin: Segment, iss: u32, acks: u32, ackNum: u32, ss: seq<Net>, es: seq<Event>, answer: Segment, last: Segment)
    requires InOrder(gs, Plus(iss, 1)) && |Joined(gs)| < WORD && forall i :: 0 <= i < |gs| ==> IsData(gs[i], ackNum)
    requires fin.fin && !fin.syn && !fin.rst && fin.payload == [] && fin.seqNum == Plus(Plus(iss, 1), |Joined(gs)|)
    requires var p := Peer(iss, acks, Joined(gs)); Run(p, ss, es) && AllFit(ss, es) && IsAnswer(p, answer) && last.ack
    requires (forall i :: 0 <= i < |es| ==> !es[i].Shut?) && Arrivals(es) == Script(answer, gs + [fin], last)
    ensures var s := ss[|es|]; s.c.state == Closed && (s.r.Away? && s.head == s.tail ==> s.delivered == Joined(gs))
  {
    hide Run, Arrivals, AllFit, InOrder, Joined;
    SentInTurn(gs, fin, iss, acks, ackNum);
    WholeConnection(Peer(iss, acks, Joined(gs)), ss, es, answer, gs + [fin], last);
  }

  // ---- closing first

  ghost predicate Steps(p: Peer, ss: seq<Net>, es: seq<Event>) {
    |ss| == |es| + 1 && forall i :: 0 <= i < |es| ==> StepAt(p, ss, es, i)
  }

  /** The states of an active close: the FIN is out, it is acknowledged, the peer's FIN has come. */
  predicate Closing(s: Net, was: u32, fs: seq<Segment>) {
    && (s.w.Idle? || !s.w.g.fin)
    && (fs != [] ==> s.w.Idle?)
    && s.c.seqNum == Plus(was, 1)
    && if fs == [] then s.c.state == FinWait1
       else if fs[|fs| - 1].fin then s.c.state == TimeWait && s.c.ackNum == Plus(fs[|fs| - 1].seqNum, 1)
       else s.c.state == FinWait2
  }

  /** The acknowledgement of the FIN and then the peer's FIN, or both in one segment. */
  predicate ClosesFor(fs: seq<Segment>) {
    (|fs| == 1 && fs[0].ack && fs[0].fin) || (|fs| == 2 && fs[0].ack && !fs[0].fin && fs[1].fin)
  }

  lemma ClosingStep(p: Peer, s: Net, e: Event, s': Net, was: u32, fs: seq<Segment>, all: seq<Segment>)
    requires Wired(s) && Step(p, s, e, s') && !e.Shut? && Closing(s, was, fs) && ClosesFor(all)
    requires if e.Arrive? then |fs| < |all| && fs + [e.g] <= all else fs <= all
    ensures Closing(s', was, if e.Arrive? then fs + [e.g] else fs)
  {
    hide Contents, Genuine;
    if e.Arrive? { assert all[|fs|] == (fs + [e.g])[|fs|]; }
  }

  /** An active close: when the FIN of this side is acknowledged and the peer's FIN arrives, together or one after the
      other, the connection is in TIME_WAIT and acknowledges that FIN, whatever the reader does meanwhile. */
  lemma {:induction false} ActiveClose(p: Peer, ss: seq<Net>, es: seq<Event>, k: nat, all: seq<Segment>)
    requires Steps(p, ss, es) && 0 < k <= |es| && es[0] == Shut(FinWait1) && (ss[0].w.Idle? || !ss[0].w.g.fin)
    requires (forall i :: 1 <= i < |es| ==> !es[i].Shut?) && ClosesFor(all) && Arrivals(es[..k]) <= all
    ensures Closing(ss[k], ss[0].c.seqNum, Arrivals(es[..k]))
    ensures Arrivals(es[..k]) == all ==> ss[k].c.state == TimeWait && ss[k].c.ackNum == Plus(all[|all| - 1].seqNum, 1)
    decreases k
  {
    hide Step, Closing, ClosesFor, Arrivals;
    assert StepAt(p, ss, es, k - 1);
    ArrivalsNext(es, k - 1);
    if k == 1 {
      assert Arrivals(es[..1]) == [];
      CloseBegins(p, ss[0], ss[1]);
    } else {
      ActiveClose(p, ss, es, k - 1, all);
      ClosingStep(p, ss[k - 1], es[k - 1], ss[k], ss[0].c.seqNum, Arrivals(es[..k - 1]), all);
    }
    if Arrivals(es[..k]) == all { CloseEnds(ss[k], ss[0].c.seqNum, all); }
  }

  lemma ArrivalsNext(es: seq<Event>, k: nat)
    requires k < |es|
    ensures Arrivals(es[..k + 1]) == if es[k].Arrive? then Arrivals(es[..k]) + [es[k].g] else Arrivals(es[..k])
    ensures Arrivals(es[..0]) == []
  {
    assert es[..k + 1][..k] == es[..k];
  }

  lemma CloseBegins(p: Peer, s: Net, s': Net)
    requires Wired(s) && Step(p, s, Shut(FinWait1), s') && (s.w.Idle? || !s.w.g.fin)
    ensures Closing(s', s.c.seqNum, [])
  {
  }

  lemma CloseEnds(s: Net, was: u32, all: seq<Segment>)
    requires Closing(s, was, all) && ClosesFor(all)
    ensures s.c.state == TimeWait && s.c.ackNum == Plus(all[|all| - 1].seqNum, 1)
  {
  }
}
