/** kernel/scheduler.c: preemptive round robin over sixteen task slots. One call of `schedule` is
    one step; runs are sequences of such steps, of new tasks, of sleeps and of exits. */
module Scheduler {
  import opened Base

  const MAX_TASKS: nat := 16
  const CPU_WINDOW: nat := 100

  datatype TaskState = Unused | Ready | Running | Sleeping

  datatype Task = Task(state: TaskState, id: u32, sleepUntil: u32)

  type Table = s: seq<Task> | |s| == MAX_TASKS witness seq(MAX_TASKS, i => Task(Unused, 0, 0))

  /** The rolling window of the CPU meter. */
  datatype Cpu = Cpu(busy: nat, ticks: nat, pct: int)

  datatype Machine = Machine(tasks: Table, current: nat, count: int, cpu: Cpu)

  // ---- what one call of schedule does

  predicate Expired(t: Task, now: u32) { t.state == Sleeping && now >= t.sleepUntil }

  function Woken(t: Task, now: u32): Task { if Expired(t, now) then t.(state := Ready) else t }

  function WakeUp(ts: Table, now: u32): Table { seq(MAX_TASKS, i requires 0 <= i < MAX_TASKS => Woken(ts[i], now)) }

  /** How many slots round robin steps over to get from a to b; all the way round to itself. */
  function Dist(a: nat, b: nat): (d: nat)
    requires a < MAX_TASKS && b < MAX_TASKS
    ensures 1 <= d <= MAX_TASKS
  {
    if a < b then b - a else b + MAX_TASKS - a
  }

  /** The task round robin picks: the nearest ready one, or the current one if none is ready. */
  predicate IsNext(ts: Table, cur: nat, n: nat)
    requires cur < MAX_TASKS
  {
    && n < MAX_TASKS
    && (ts[n].state == Ready || n == cur)
    && forall t :: 0 <= t < MAX_TASKS && ts[t].state == Ready ==> Dist(cur, n) <= Dist(cur, t)
  }

  lemma NextUnique(ts: Table, cur: nat, n: nat, n': nat)
    requires cur < MAX_TASKS && IsNext(ts, cur, n) && IsNext(ts, cur, n')
    ensures n == n'
  {
    if n != cur { assert Dist(cur, n') <= Dist(cur, n); }
    if n' != cur { assert Dist(cur, n) <= Dist(cur, n'); }
  }

  function Switch(ts: Table, cur: nat, next: nat): Table
    requires cur < MAX_TASKS && next < MAX_TASKS
  {
    if next == cur then ts
    else
      var us := if ts[cur].state == Running then ts[cur := ts[cur].(state := Ready)] else ts;
      us[next := us[next].(state := Running)]
  }

  function Metered(c: Cpu, busy: bool): Cpu {
    var b, t := if busy then c.busy + 1 else c.busy, c.ticks + 1;
    if t >= CPU_WINDOW then Cpu(0, 0, b * 100 / t) else Cpu(b, t, c.pct)
  }

  /** s' is s after one call of schedule: with a single task nothing happens at all. The CPU meter
      counts exactly the calls that switch. */
  ghost predicate Scheduled(s: Machine, now: u32, s': Machine)
    requires s.current < MAX_TASKS
  {
    if s.count <= 1 then s' == s
    else
      var w := WakeUp(s.tasks, now);
      && s'.count == s.count
      && IsNext(w, s.current, s'.current)
      && s'.tasks == Switch(w, s.current, s'.current)
      && s'.cpu == Metered(s.cpu, s'.current != s.current)
  }

  // ---- runs

  datatype Event =
    | Tick(now: u32)
    | Create(memory: bool)
    | Sleep(now: u32, ms: u32)
    | Exit(now: u32)
    | ExitCut(now: u32)

  predicate Alive(s: Machine)
    requires s.current < MAX_TASKS
  {
    s.tasks[s.current].state != Unused
  }

  function Deadline(now: u32, ms: u32): u32 { (now + ms / 10) % WORD }

  function Asleep(s: Machine, now: u32, ms: u32): Machine
    requires s.current < MAX_TASKS
  {
    s.(tasks := s.tasks[s.current := s.tasks[s.current].(state := Sleeping, sleepUntil := Deadline(now, ms))])
  }

  function Dead(s: Machine): Machine
    requires s.current < MAX_TASKS
  {
    s.(tasks := s.tasks[s.current := s.tasks[s.current].(state := Unused)])
  }

  /** The lowest unused slot taken by a new task. */
  ghost predicate Created(s: Machine, slot: int, s': Machine) {
    if 0 <= slot < MAX_TASKS then
      && s.tasks[slot].state == Unused && (forall i :: 0 <= i < slot ==> s.tasks[i].state != Unused)
      && s' == s.(tasks := s.tasks[slot := Task(Ready, slot, 0)], count := s.count + 1)
    else
      slot == -1 && s' == s
  }

  /** Which events can happen, and what they lead to. Code of the current task runs only while its
      slot is live; a dead task does nothing but yield. `ExitCut` is an exit that the timer
      interrupts between freeing the slot and counting it, when the interrupt switches away. */
  ghost predicate Step(s: Machine, e: Event, s': Machine)
    requires s.current < MAX_TASKS
  {
    match e
    case Tick(now) => Scheduled(s, now, s')
    case Create(memory) =>
      Alive(s) && exists slot :: Created(s, slot, s') && (slot == -1 <==> !memory || forall i :: 0 <= i < MAX_TASKS ==> s.tasks[i].state != Unused)
    case Sleep(now, ms) => Alive(s) && Scheduled(Asleep(s, now, ms), now, s')
    case Exit(now) => Alive(s) && s.current > 0 && Scheduled(Dead(s).(count := s.count - 1), now, s')
    case ExitCut(now) => Alive(s) && s.current > 0 && Scheduled(Dead(s), now, s') && s'.current != s.current
  }

  ghost predicate Run(ss: seq<Machine>, es: seq<Event>) {
    && |ss| == |es| + 1
    && (forall i :: 0 <= i < |ss| ==> ss[i].current < MAX_TASKS)
    && forall i :: 0 <= i < |es| ==> StepAt(ss, es, i)
  }

  ghost predicate StepAt(ss: seq<Machine>, es: seq<Event>, i: nat)
    requires i < |es| < |ss| && ss[i].current < MAX_TASKS
  {
    Step(ss[i], es[i], ss[i + 1])
  }

  // ---- invariants

  function Live(ts: Table, n: nat): nat
    requires n <= MAX_TASKS
  {
    if n == 0 then 0 else Live(ts, n - 1) + if ts[n - 1].state == Unused then 0 else 1
  }

  lemma {:induction false} LiveChange(a: Table, b: Table, k: nat, n: nat)
    requires k < MAX_TASKS && n <= MAX_TASKS
    requires forall i :: 0 <= i < MAX_TASKS && i != k ==> (a[i].state == Unused <==> b[i].state == Unused)
    ensures Live(b, n) + (if k < n && a[k].state != Unused then 1 else 0) == Live(a, n) + if k < n && b[k].state != Unused then 1 else 0
  {
    if n > 0 { LiveChange(a, b, k, n - 1); }
  }

  lemma {:induction false} LiveBounds(ts: Table, n: nat, k: nat)
    requires n <= MAX_TASKS && k < n && ts[k].state != Unused
    ensures 1 <= Live(ts, n)
    ensures Live(ts, n) == 1 ==> forall i :: 0 <= i < n && i != k ==> ts[i].state == Unused
  {
    if k < n - 1 {
      LiveBounds(ts, n - 1, k);
    } else {
      NoneLive(ts, n - 1);
    }
  }

  lemma {:induction false} NoneLive(ts: Table, n: nat)
    requires n <= MAX_TASKS
    ensures Live(ts, n) == 0 <==> forall i :: 0 <= i < n ==> ts[i].state == Unused
  {
    if n > 0 { NoneLive(ts, n - 1); }
  }

  /** Only the current task runs, the kernel task never ends, live tasks carry their slot number, and
      the count is the number of live slots plus the exits whose decrement was lost. */
  ghost predicate Inv(s: Machine, lost: nat) {
    && s.current < MAX_TASKS
    && (forall i :: 0 <= i < MAX_TASKS && s.tasks[i].state == Running ==> i == s.current)
    && s.tasks[0].state != Unused
    && (forall i :: 0 <= i < MAX_TASKS && s.tasks[i].state != Unused ==> s.tasks[i].id == i)
    && s.count == Live(s.tasks, MAX_TASKS) + lost
    && s.cpu.busy <= s.cpu.ticks < CPU_WINDOW && 0 <= s.cpu.pct <= 100
  }

  function Lost(es: seq<Event>): nat {
    if es == [] then 0 else Lost(es[..|es| - 1]) + if es[|es| - 1].ExitCut? then 1 else 0
  }

  lemma Percent(b: nat, t: nat)
    requires b <= t == CPU_WINDOW
    ensures 0 <= b * 100 / t <= 100
  {
  }

  lemma NextBasics(ts: Table, cur: nat, n: nat)
    requires cur < MAX_TASKS && IsNext(ts, cur, n)
    ensures n < MAX_TASKS && (ts[n].state == Ready || n == cur)
  {
  }

  lemma ScheduledKeeps(s: Machine, now: u32, s': Machine, lost: nat)
    requires Inv(s, lost) && Scheduled(s, now, s')
    ensures Inv(s', lost)
  {
    hide IsNext, Live;
    if s.count > 1 {
      NextBasics(WakeUp(s.tasks, now), s.current, s'.current);
      LiveChange(s.tasks, s'.tasks, s'.current, MAX_TASKS);
      if s.cpu.ticks + 1 == CPU_WINDOW {
        Percent(if s'.current != s.current then s.cpu.busy + 1 else s.cpu.busy, s.cpu.ticks + 1);
      }
    }
  }

  lemma StepKeeps(s: Machine, e: Event, s': Machine, lost: nat)
    requires Inv(s, lost) && Step(s, e, s')
    ensures Inv(s', if e.ExitCut? then lost + 1 else lost)
  {
    hide Scheduled, Live;
    match e
    case Tick(now) => ScheduledKeeps(s, now, s', lost);
    case Create(memory) =>
      var slot :| Created(s, slot, s') && (slot == -1 <==> !memory || forall i :: 0 <= i < MAX_TASKS ==> s.tasks[i].state != Unused);
      if slot >= 0 { LiveChange(s.tasks, s'.tasks, slot, MAX_TASKS); }
    case Sleep(now, ms) =>
      LiveChange(s.tasks, Asleep(s, now, ms).tasks, s.current, MAX_TASKS);
      ScheduledKeeps(Asleep(s, now, ms), now, s', lost);
    case Exit(now) =>
      LiveChange(s.tasks, Dead(s).tasks, s.current, MAX_TASKS);
      ScheduledKeeps(Dead(s).(count := s.count - 1), now, s', lost);
    case ExitCut(now) =>
      LiveChange(s.tasks, Dead(s).tasks, s.current, MAX_TASKS);
      ScheduledKeeps(Dead(s), now, s', lost + 1);
  }

  /** In every reachable state the invariants hold, and task_count exceeds the number of live tasks
      by exactly the number of interrupted exits. */
  lemma {:induction false} RunKeeps(ss: seq<Machine>, es: seq<Event>, lost: nat)
    requires Run(ss, es) && Inv(ss[0], lost)
    ensures Inv(ss[|es|], lost + Lost(es))
    decreases |es|
  {
    hide Inv, Step;
    if es != [] {
      var n := |es| - 1;
      var ss', es' := ss[..n + 1], es[..n];
      forall i | 0 <= i < n ensures StepAt(ss', es', i) { assert StepAt(ss, es, i); }
      RunKeeps(ss', es', lost);
      assert StepAt(ss, es, n);
      StepKeeps(ss[n], es[n], ss[n + 1], lost + Lost(es[..n]));
    }
  }

  // ---- bounded waiting

  predicate Calls(e: Event) { !e.Create? }

  /** How many times the events call schedule. */
  function CallCount(es: seq<Event>): nat {
    if es == [] then 0 else (if Calls(es[0]) then 1 else 0) + CallCount(es[1..])
  }

  function Time(e: Event): u32 { if e.Create? then 0 else e.now }

  /** What task_count is when the event calls schedule. */
  function CountAtCall(s: Machine, e: Event): int { if e.Exit? then s.count - 1 else s.count }

  /** Schedule is never called with one task left. */
  ghost predicate Busy(ss: seq<Machine>, es: seq<Event>)
    requires |ss| == |es| + 1
  {
    forall i :: 0 <= i < |es| && Calls(es[i]) ==> CountAtCall(ss[i], es[i]) >= 2
  }

  /** Ready, or asleep with a deadline that every later call of schedule has reached. */
  ghost predicate Waiting(s: Machine, t: nat, es: seq<Event>)
    requires t < MAX_TASKS
  {
    || s.tasks[t].state == Ready
    || (s.tasks[t].state == Sleeping && forall i :: 0 <= i < |es| && Calls(es[i]) ==> Time(es[i]) >= s.tasks[t].sleepUntil)
  }

  /** A call that does not pick a waiting task brings its turn nearer. */
  lemma NearerTurn(s: Machine, now: u32, s': Machine, t: nat)
    requires s.current < MAX_TASKS && t < MAX_TASKS && t != s.current && s.count >= 2 && Scheduled(s, now, s')
    requires s.tasks[t].state == Ready || Expired(s.tasks[t], now)
    ensures s'.current < MAX_TASKS
    ensures s'.current == t || (s'.tasks[t].state == Ready && Dist(s'.current, t) < Dist(s.current, t))
  {
    var w := WakeUp(s.tasks, now);
    assert w[t].state == Ready;
    assert IsNext(w, s.current, s'.current);
    assert Dist(s.current, s'.current) <= Dist(s.current, t);
  }

  /** Every step either hands the processor to a waiting task, or leaves it waiting; one that calls
      schedule brings its turn nearer. */
  lemma WaitingStep(s: Machine, e: Event, s': Machine, t: nat, es: seq<Event>)
    requires s.current < MAX_TASKS && t < MAX_TASKS && t != s.current && Step(s, e, s')
    requires Waiting(s, t, [e] + es) && (Calls(e) ==> CountAtCall(s, e) >= 2)
    ensures s'.current < MAX_TASKS
    ensures s'.current == t || (Waiting(s', t, es) && Dist(s'.current, t) <= Dist(s.current, t) - if Calls(e) then 1 else 0)
  {
    hide Scheduled, Dist;
    if s.tasks[t].state == Sleeping {
      assert Calls(([e] + es)[0]) ==> Time(e) >= s.tasks[t].sleepUntil;
      forall i | 0 <= i < |es| && Calls(es[i]) ensures Time(es[i]) >= s.tasks[t].sleepUntil { assert ([e] + es)[i + 1] == es[i]; }
    }
    match e
    case Tick(now) => NearerTurn(s, now, s', t);
    case Create(memory) =>
      var slot :| Created(s, slot, s') && (slot == -1 <==> !memory || forall i :: 0 <= i < MAX_TASKS ==> s.tasks[i].state != Unused);
    case Sleep(now, ms) => NearerTurn(Asleep(s, now, ms), now, s', t);
    case Exit(now) => NearerTurn(Dead(s).(count := s.count - 1), now, s', t);
    case ExitCut(now) => NearerTurn(Dead(s), now, s', t);
  }

  /** Bounded waiting: on every run, whatever the other tasks do, a task that waits is switched to
      within as many calls of schedule as it is slots away, so within MAX_TASKS - 1, provided
      schedule is never called with one task left. */
  lemma {:induction false} BoundedWaiting(ss: seq<Machine>, es: seq<Event>, t: nat) returns (k: nat)
    requires Run(ss, es) && t < MAX_TASKS && t != ss[0].current && Waiting(ss[0], t, es) && Busy(ss, es)
    requires CallCount(es) >= Dist(ss[0].current, t)
    ensures k <= |es| && ss[k].current == t && CallCount(es[..k]) <= Dist(ss[0].current, t) <= MAX_TASKS - 1
    decreases |es|
  {
    hide Step, Dist, Waiting;
    assert Dist(ss[0].current, t) <= MAX_TASKS - 1 by { DistOther(ss[0].current, t); }
    assert es != [];
    assert es == [es[0]] + es[1..];
    assert StepAt(ss, es, 0);
    WaitingStep(ss[0], es[0], ss[1], t, es[1..]);
    if ss[1].current == t {
      k := 1;
      assert es[..1][1..] == [];
    } else {
      forall i | 0 <= i < |es[1..]| ensures StepAt(ss[1..], es[1..], i) { assert StepAt(ss, es, i + 1); }
      var j := BoundedWaiting(ss[1..], es[1..], t);
      k := j + 1;
      assert es[..k][1..] == es[1..][..j] && es[..k][0] == es[0];
    }
  }

  lemma DistOther(a: nat, b: nat)
    requires a < MAX_TASKS && b < MAX_TASKS && a != b
    ensures Dist(a, b) <= MAX_TASKS - 1
  {
  }

  // ---- what a call leaves alone, and whose turn comes again

  /** A call changes no task but the one it leaves, the one it goes to and those it wakes. One that was running and is left
      is ready; the one it goes to runs. */
  lemma ScheduledChanges(s: Machine, now: u32, s': Machine, t: nat)
    requires s.current < MAX_TASKS && t < MAX_TASKS && s.count >= 2 && Scheduled(s, now, s')
    ensures s'.current < MAX_TASKS && s'.tasks[t] == s.tasks[t].(state := s'.tasks[t].state)
    ensures s'.current != s.current ==> s'.tasks[s'.current].state == Running
    ensures s'.current != s.current && s.tasks[s.current].state == Running ==> s'.tasks[s.current].state == Ready
    ensures s'.current == s.current || (t != s'.current && !(t == s.current && s.tasks[t].state == Running)) ==>
              s'.tasks[t].state == if s.tasks[t].state == Sleeping && now >= s.tasks[t].sleepUntil then Ready else s.tasks[t].state
  {
    hide IsNext;
    NextBasics(WakeUp(s.tasks, now), s.current, s'.current);
  }

  /** Ready, or running as the current task. */
  predicate Awake(s: Machine, t: nat)
    requires t < MAX_TASKS
  {
    s.tasks[t].state == Ready || (s.tasks[t].state == Running && s.current == t)
  }

  /** Whenever t is the current task, it neither sleeps nor exits. */
  ghost predicate KeepsOn(ss: seq<Machine>, es: seq<Event>, t: nat)
    requires |ss| == |es| + 1
  {
    forall i :: 0 <= i < |es| && ss[i].current == t ==> es[i].Tick? || es[i].Create?
  }

  lemma AwakeStep(s: Machine, e: Event, s': Machine, t: nat)
    requires s.current < MAX_TASKS && t < MAX_TASKS && Step(s, e, s') && Awake(s, t)
    requires (s.current == t ==> e.Tick? || e.Create?) && (Calls(e) ==> CountAtCall(s, e) >= 2)
    ensures s'.current < MAX_TASKS && Awake(s', t)
    ensures e.Create? ==> s'.current == s.current
  {
    hide Scheduled, Dist;
    match e
    case Tick(now) => ScheduledChanges(s, now, s', t);
    case Create(memory) =>
      var slot :| Created(s, slot, s') && (slot == -1 <==> !memory || forall i :: 0 <= i < MAX_TASKS ==> s.tasks[i].state != Unused);
    case Sleep(now, ms) => ScheduledChanges(Asleep(s, now, ms), now, s', t);
    case Exit(now) => ScheduledChanges(Dead(s).(count := s.count - 1), now, s', t);
    case ExitCut(now) => ScheduledChanges(Dead(s), now, s', t);
  }

  lemma RunTail(ss: seq<Machine>, es: seq<Event>, t: nat)
    requires Run(ss, es) && Busy(ss, es) && KeepsOn(ss, es, t) && es != []
    ensures Run(ss[1..], es[1..]) && Busy(ss[1..], es[1..]) && KeepsOn(ss[1..], es[1..], t)
  {
    hide Step;
    forall i | 0 <= i < |es[1..]| ensures StepAt(ss[1..], es[1..], i) { assert StepAt(ss, es, i + 1); }
  }

  /** A task that is awake, and when it has the processor neither sleeps nor exits, has it after one of the next MAX_TASKS
      calls, whether it has it now or not. */
  lemma {:induction false} TurnAgain(ss: seq<Machine>, es: seq<Event>, t: nat) returns (k: nat)
    requires Run(ss, es) && Busy(ss, es) && t < MAX_TASKS && Awake(ss[0], t) && KeepsOn(ss, es, t)
    requires CallCount(es) >= MAX_TASKS
    ensures 0 < k <= |es| && ss[k].current == t && 1 <= CallCount(es[..k]) <= MAX_TASKS
    decreases |es|
  {
    hide Step, Dist, Scheduled;
    if ss[0].current != t {
      DistOther(ss[0].current, t);
      k := BoundedWaiting(ss, es, t);
      CallsBetween(ss, es, t, k);
    } else {
      assert es != [];
      assert StepAt(ss, es, 0);
      AwakeStep(ss[0], es[0], ss[1], t);
      RunTail(ss, es, t);
      if es[0].Tick? && ss[1].current == t {
        k := 1;
        assert es[..1][1..] == [];
      } else {
        var j;
        if es[0].Tick? {
          DistOther(ss[1].current, t);
          j := BoundedWaiting(ss[1..], es[1..], t);
        } else {
          j := TurnAgain(ss[1..], es[1..], t);
        }
        k := j + 1;
        assert es[..k][1..] == es[1..][..j] && es[..k][0] == es[0];
      }
    }
  }

  lemma {:induction false} StaysAwake(ss: seq<Machine>, es: seq<Event>, t: nat, i: nat)
    requires Run(ss, es) && Busy(ss, es) && t < MAX_TASKS && Awake(ss[0], t) && KeepsOn(ss, es, t) && i <= |es|
    ensures Awake(ss[i], t)
  {
    hide Step, Awake;
    if i > 0 {
      StaysAwake(ss, es, t, i - 1);
      assert StepAt(ss, es, i - 1);
      AwakeStep(ss[i - 1], es[i - 1], ss[i], t);
    }
  }

  /** Fairness: on every run on which schedule is never called with one task left, a task that is awake and neither sleeps
      nor exits has the processor after one of any MAX_TASKS calls that follow one another. */
  lemma FairTurns(ss: seq<Machine>, es: seq<Event>, t: nat, i: nat, j: nat) returns (k: nat)
    requires Run(ss, es) && Busy(ss, es) && t < MAX_TASKS && Awake(ss[0], t) && KeepsOn(ss, es, t)
    requires i <= j <= |es| && CallCount(es[i..j]) >= MAX_TASKS
    ensures i < k <= j && ss[k].current == t && Awake(ss[k], t) && CallCount(es[i..k]) <= MAX_TASKS
  {
    hide Step, Awake, CallCount;
    var us, fs := ss[i..j + 1], es[i..j];
    forall h | 0 <= h < |fs| ensures StepAt(us, fs, h) { assert StepAt(ss, es, i + h); }
    StaysAwake(ss, es, t, i);
    var h := TurnAgain(us, fs, t);
    k := i + h;
    assert es[i..k] == fs[..h];
    StaysAwake(ss, es, t, k);
  }

  /** Getting from another task to t takes a call. */
  lemma {:induction false} CallsBetween(ss: seq<Machine>, es: seq<Event>, t: nat, k: nat)
    requires Run(ss, es) && k <= |es| && ss[0].current != t && ss[k].current == t
    ensures k > 0 && CallCount(es[..k]) >= 1
    decreases k
  {
    hide Step, Scheduled;
    assert StepAt(ss, es, 0);
    assert es[..k][0] == es[0];
    if es[0].Create? {
      CreateStays(ss[0], es[0], ss[1]);
      forall i | 0 <= i < |es[1..]| ensures StepAt(ss[1..], es[1..], i) { assert StepAt(ss, es, i + 1); }
      assert Run(ss[1..], es[1..]);
      CallsBetween(ss[1..], es[1..], t, k - 1);
      assert es[..k][1..] == es[1..][..k - 1];
    }
  }

  lemma CreateStays(s: Machine, e: Event, s': Machine)
    requires s.current < MAX_TASKS && e.Create? && Step(s, e, s')
    ensures s'.current == s.current
  {
  }

  // ---- the CPU meter

  function CallsTo(es: seq<Event>, n: nat): nat
    requires n <= |es|
  {
    if n == 0 then 0 else CallsTo(es, n - 1) + if Calls(es[n - 1]) then 1 else 0
  }

  /** How many of these calls hand the processor to another task. */
  function Switches(ss: seq<Machine>, es: seq<Event>, n: nat): nat
    requires n <= |es| < |ss|
  {
    if n == 0 then 0 else Switches(ss, es, n - 1) + if Calls(es[n - 1]) && ss[n].current != ss[n - 1].current then 1 else 0
  }

  lemma MeterStep(s: Machine, e: Event, s': Machine)
    requires s.current < MAX_TASKS && Step(s, e, s') && (Calls(e) ==> CountAtCall(s, e) >= 2)
    ensures s'.cpu == if Calls(e) then Metered(s.cpu, s'.current != s.current) else s.cpu
    ensures !Calls(e) ==> s'.current == s.current
  {
    hide IsNext;
  }

  /** Within a window the meter counts the calls and those that switch. */
  lemma {:induction false} MeterCounts(ss: seq<Machine>, es: seq<Event>, n: nat)
    requires Run(ss, es) && Busy(ss, es) && ss[0].cpu.busy == 0 && ss[0].cpu.ticks == 0 && n <= |es| && CallsTo(es, n) < CPU_WINDOW
    ensures ss[n].cpu == Cpu(Switches(ss, es, n), CallsTo(es, n), ss[0].cpu.pct)
    decreases n
  {
    hide Step;
    if n > 0 {
      MeterCounts(ss, es, n - 1);
      assert StepAt(ss, es, n - 1);
      MeterStep(ss[n - 1], es[n - 1], ss[n]);
    }
  }

  /** After a window of a hundred calls it shows how many of them switched, and starts anew. */
  lemma MeterShows(ss: seq<Machine>, es: seq<Event>, n: nat)
    requires Run(ss, es) && Busy(ss, es) && ss[0].cpu.busy == 0 && ss[0].cpu.ticks == 0
    requires 0 < n <= |es| && Calls(es[n - 1]) && CallsTo(es, n) == CPU_WINDOW
    ensures ss[n].cpu == Cpu(0, 0, Switches(ss, es, n))
  {
    hide Step;
    MeterCounts(ss, es, n - 1);
    assert StepAt(ss, es, n - 1);
    MeterStep(ss[n - 1], es[n - 1], ss[n]);
  }

  // ---- sleeping

  /** A task that sleeps is left alone until a call of schedule at or after its deadline. */
  lemma {:induction false} SleepsThrough(ss: seq<Machine>, es: seq<Event>, t: nat, k: nat)
    requires Run(ss, es) && t < MAX_TASKS && t != ss[0].current && ss[0].tasks[t].state == Sleeping && k <= |es|
    requires forall i :: 0 <= i < |es| && Calls(es[i]) ==> Time(es[i]) < ss[0].tasks[t].sleepUntil
    ensures ss[k].current != t && ss[k].tasks[t] == ss[0].tasks[t]
    decreases k
  {
    hide Step, Scheduled;
    if k > 0 {
      SleepsThrough(ss, es, t, k - 1);
      assert StepAt(ss, es, k - 1);
      SleepStep(ss[k - 1], es[k - 1], ss[k], t);
    }
  }

  lemma SleepStep(s: Machine, e: Event, s': Machine, t: nat)
    requires s.current < MAX_TASKS && t < MAX_TASKS && t != s.current && Step(s, e, s')
    requires s.tasks[t].state == Sleeping && (Calls(e) ==> Time(e) < s.tasks[t].sleepUntil)
    ensures s'.current != t && s'.tasks[t] == s.tasks[t]
  {
    hide Dist;
    if e.Create? {
      var slot :| Created(s, slot, s') && (slot == -1 <==> !e.memory || forall i :: 0 <= i < MAX_TASKS ==> s.tasks[i].state != Unused);
    }
  }

  /** A call of task_sleep leaves its task asleep if and only if it asks for a tick at least and the deadline does not wrap;
      the deadline then lies ms / 10 ticks ahead. */
  lemma SleepBegins(s: Machine, now: u32, ms: u32, s': Machine)
    requires s.current < MAX_TASKS && s.count >= 2 && Step(s, Event.Sleep(now, ms), s')
    ensures s'.tasks[s.current].state == Sleeping <==> ms >= 10 && now + ms / 10 < WORD
    ensures s'.tasks[s.current].state == Sleeping ==> s'.tasks[s.current].sleepUntil == now + ms / 10
    ensures s'.tasks[s.current].state != Sleeping ==> s'.tasks[s.current].state == Ready
  {
    hide IsNext;
    var a := Asleep(s, now, ms);
    NextBasics(WakeUp(a.tasks, now), a.current, s'.current);
    WrapsBack(now, ms / 10);
  }

  lemma WrapsBack(now: u32, d: u32)
    requires d < WORD / 2
    ensures now + d >= WORD ==> (now + d) % WORD < now
  {
  }

  /** A task that sleeps for ms, and is switched away from, is not run again before ms / 10 ticks have passed. */
  lemma SleepsLongEnough(ss: seq<Machine>, es: seq<Event>, k: nat)
    requires Run(ss, es) && 0 < k <= |es| && es[0].Sleep? && ss[0].count >= 2 && ss[1].current != ss[0].current
    requires es[0].now + es[0].ms / 10 < WORD
    requires forall i :: 1 <= i < k && Calls(es[i]) ==> Time(es[i]) < es[0].now + es[0].ms / 10
    ensures es[0].ms >= 10 ==> ss[k].current != ss[0].current
  {
    hide Step;
    assert StepAt(ss, es, 0);
    SleepBegins(ss[0], es[0].now, es[0].ms, ss[1]);
    if es[0].ms >= 10 {
      var us, fs := ss[1..k + 1], es[1..k];
      forall h | 0 <= h < |fs| ensures StepAt(us, fs, h) { assert StepAt(ss, es, 1 + h); }
      SleepsThrough(us, fs, ss[0].current, k - 1);
    }
  }

  // ---- when the last other task exits

  /** An exit hands the processor over, if another task is ready, exactly when task_count was above
      two; otherwise no event ever changes anything again and the ready task starves. */
  lemma {:induction false} ExitStarves(ss: seq<Machine>, es: seq<Event>, t: nat, k: nat)
    requires Run(ss, es) && 0 < k <= |es| && es[0].Exit? && t < MAX_TASKS && t != ss[0].current && ss[0].tasks[t].state == Ready
    ensures ss[0].count > 2 ==> ss[1].current != ss[0].current
    ensures ss[0].count <= 2 ==> ss[k] == ss[1] && ss[k].current == ss[0].current && ss[k].tasks[t].state == Ready && !Alive(ss[k])
    decreases k
  {
    assert StepAt(ss, es, 0);
    if ss[0].count > 2 {
      NearerTurn(Dead(ss[0]).(count := ss[0].count - 1), es[0].now, ss[1], t);
    } else if k > 1 {
      ExitStarves(ss, es, t, k - 1);
      assert StepAt(ss, es, k - 1);
    }
  }

  /** With no exit lost, the task that then starves is the kernel task: it is the only one left. */
  lemma OnlyKernelLeft(s: Machine)
    requires Inv(s, 0) && s.current > 0 && Alive(s) && s.count <= 2
    ensures s.count == 2
    ensures forall i :: 0 <= i < MAX_TASKS && i != s.current ==> (s.tasks[i].state != Unused <==> i == 0)
  {
    var d := Dead(s).tasks;
    LiveChange(s.tasks, d, s.current, MAX_TASKS);
    LiveBounds(d, MAX_TASKS, 0);
  }

  // ---- the code

  class Scheduler {
    const tasks: array<Task>
    var currentTask: nat
    var taskCount: int
    var cpuBusyCount: nat
    var cpuTickCount: nat
    var cpuUsagePct: int

    ghost predicate Valid()
      reads this
    {
      tasks.Length == MAX_TASKS && currentTask < MAX_TASKS
    }

    /** The state the steps speak of. */
    ghost function State(): Machine
      requires Valid()
      reads this, tasks
    {
      Machine(tasks[..], currentTask, taskCount, Cpu(cpuBusyCount, cpuTickCount, cpuUsagePct))
    }

    /** scheduler_init: the kernel task runs alone. */
    constructor ()
      ensures Valid() && fresh(tasks) && Inv(State(), 0)
      ensures currentTask == 0 && taskCount == 1 && tasks[0].state == Running
      ensures forall i :: 1 <= i < MAX_TASKS ==> tasks[i].state == Unused
    {
      tasks := new Task[MAX_TASKS](i => Task(if i == 0 then Running else Unused, 0, 0));
      currentTask, taskCount := 0, 1;
      cpuBusyCount, cpuTickCount, cpuUsagePct := 0, 0, 0;
      new;
      ghost var none: Table := tasks[..][0 := Task(Unused, 0, 0)];
      NoneLive(none, MAX_TASKS);
      LiveChange(none, tasks[..], 0, MAX_TASKS);
    }

    /** task_create, with `memory` for whether the stack could be allocated. */
    method Create(memory: bool) returns (slot: int)
      requires Valid()
      modifies this`taskCount, tasks
      ensures Valid() && Created(old(State()), slot, State())
      ensures slot == -1 <==> !memory || forall i :: 0 <= i < MAX_TASKS ==> old(tasks[i].state) != Unused
    {
      slot := -1;
      var i := 0;
      while i < MAX_TASKS
        invariant i <= MAX_TASKS && slot == -1 && tasks[..] == old(tasks[..])
        invariant forall j :: 0 <= j < i ==> tasks[j].state != Unused
      {
        if tasks[i].state == Unused {
          slot := i;
          break;
        }
        i := i + 1;
      }
      if slot == -1 { return -1; }
      if !memory { return -1; }
      tasks[slot] := Task(Ready, slot, 0);
      taskCount := taskCount + 1;
    }

    /** schedule */
    method Schedule(now: u32)
      requires Valid()
      modifies this, tasks
      ensures Valid() && Scheduled(old(State()), now, State())
    {
      if taskCount <= 1 { return; }
      ghost var w := WakeUp(tasks[..], now);
      Wake(now);
      cpuTickCount := cpuTickCount + 1;
      var readyCount := CountReady();
      if readyCount > 0 { cpuBusyCount := cpuBusyCount + 1; }
      if cpuTickCount >= CPU_WINDOW {
        cpuUsagePct := cpuBusyCount * 100 / cpuTickCount;
        cpuBusyCount := 0;
        cpuTickCount := 0;
      }
      var before := currentTask;
      var next := PickNext();
      assert readyCount > 0 <==> next != before by { OthersReady(w, before, next); }
      if next == before || tasks[next].state != Ready { return; }
      if tasks[before].state == Running { tasks[before] := tasks[before].(state := Ready); }
      tasks[next] := tasks[next].(state := Running);
      currentTask := next;
    }

    /** The loop that wakes the tasks whose deadline has come. */
    method Wake(now: u32)
      requires Valid()
      modifies tasks
      ensures tasks[..] == WakeUp(old(tasks[..]), now)
    {
      var i := 0;
      while i < MAX_TASKS
        invariant i <= MAX_TASKS
        invariant forall j :: 0 <= j < MAX_TASKS ==> tasks[j] == if j < i then Woken(old(tasks[j]), now) else old(tasks[j])
      {
        if tasks[i].state == Sleeping && now >= tasks[i].sleepUntil { tasks[i] := tasks[i].(state := Ready); }
        i := i + 1;
      }
    }

    /** The loop that counts the other ready tasks. */
    method CountReady() returns (n: nat)
      requires Valid()
      ensures n > 0 <==> OtherReady(tasks[..], currentTask, MAX_TASKS)
    {
      n := 0;
      var i := 0;
      while i < MAX_TASKS
        invariant i <= MAX_TASKS
        invariant n > 0 <==> OtherReady(tasks[..], currentTask, i)
      {
        if i != currentTask && tasks[i].state == Ready { n := n + 1; }
        i := i + 1;
      }
    }

    /** The round-robin search. */
    method PickNext() returns (next: nat)
      requires Valid()
      ensures IsNext(tasks[..], currentTask, next)
    {
      next := currentTask;
      var i := 0;
      while i < MAX_TASKS
        invariant i <= MAX_TASKS && next < MAX_TASKS && (if i == 0 then next == currentTask else Dist(currentTask, next) == i)
        invariant forall t :: 0 <= t < MAX_TASKS && Dist(currentTask, t) <= i ==> tasks[t].state != Ready
      {
        next := (next + 1) % MAX_TASKS;
        if tasks[next].state == Ready { return; }
        i := i + 1;
      }
    }

    /** task_sleep: the deadline is kept in 32 bits. */
    method Sleep(now: u32, ms: u32)
      requires Valid()
      modifies this, tasks
      ensures Valid() && Scheduled(Asleep(old(State()), now, ms), now, State())
    {
      tasks[currentTask] := tasks[currentTask].(sleepUntil := (now + ms / 10) % WORD);
      tasks[currentTask] := tasks[currentTask].(state := Sleeping);
      assert State() == Asleep(old(State()), now, ms);
      Schedule(now);
    }

    /** task_exit up to its first yield; the yields that follow are calls of Schedule. With `cut`
        the timer interrupts it between its two assignments, at time `tick`, and `mid` is the
        state the interrupt leaves: when that state runs another task the decrement never comes. */
    method Exit(now: u32, cut: bool, tick: u32) returns (ghost mid: Machine)
      requires Valid()
      modifies this, tasks
      ensures Valid()
      ensures old(currentTask) == 0 ==> Scheduled(old(State()), now, State())
      ensures old(currentTask) > 0 && !cut ==> Scheduled(Dead(old(State())).(count := old(taskCount) - 1), now, State())
      ensures old(currentTask) > 0 && cut ==>
        && Scheduled(Dead(old(State())), tick, mid) && mid.current < MAX_TASKS
        && if mid.current != old(currentTask) then State() == mid else Scheduled(mid.(count := mid.count - 1), now, State())
    {
      mid := State();
      var before := currentTask;
      if currentTask > 0 {
        tasks[currentTask] := tasks[currentTask].(state := Unused);
        assert State() == Dead(old(State()));
        if cut {
          Schedule(tick);
          mid := State();
          if currentTask != before { return; }
        }
        taskCount := taskCount - 1;
      }
      Schedule(now);
    }
  }

  predicate OtherReady(ts: Table, cur: nat, n: nat)
    requires n <= MAX_TASKS
  {
    exists i :: 0 <= i < n && i != cur && ts[i].state == Ready
  }

  /** Another task is ready exactly when the search leaves the current one. */
  lemma OthersReady(ts: Table, cur: nat, n: nat)
    requires cur < MAX_TASKS && IsNext(ts, cur, n)
    ensures OtherReady(ts, cur, MAX_TASKS) <==> n != cur
  {
    if n == cur {
      forall i | 0 <= i < MAX_TASKS && i != cur ensures ts[i].state != Ready {
        DistOther(cur, i);
      }
    }
  }
}
