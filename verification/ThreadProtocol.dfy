module ThreadProtocol {

  // The thread protocol of ThreadScheduler: one scheduler thread (number 0, inside `step` and
  // `stop`) and the workers 1..m-1 (inside `threadFunction`), sharing a spinning barrier, one end
  // counter per schedule entry, the step arguments and the joining flag. Every atomic operation
  // and every read of a shared variable is a step of its own; any thread may take the next one.

  /** Entry number `index` of the schedule of thread `thread`; it owns one end counter. */
  datatype Slot = Slot(thread: nat, index: nat)

  /** A ScheduleEntry: the task and the counters it waits for, named by the slots that own them. */
  datatype Entry = Entry(task: nat, reqs: seq<Slot>)

  type Schedule = seq<seq<Entry>>

  predicate IsSlot(sch: Schedule, x: Slot) {
    x.thread < |sch| && x.index < |sch[x.thread]|
  }

  function Reqs(sch: Schedule, x: Slot): seq<Slot>
    requires IsSlot(sch, x)
  {
    sch[x.thread][x.index].reqs
  }

  /** The order in which the scheduler placed the tasks: an entry comes after the entries it
      waits for and after the earlier entries of its own thread. */
  ghost predicate Ranked(sch: Schedule, rank: map<Slot, nat>)
    requires ValidReqs(sch)
  {
    && (forall x: Slot :: IsSlot(sch, x) ==> x in rank)
    && (forall x: Slot, q :: IsSlot(sch, x) && 0 <= q < |Reqs(sch, x)| ==> rank[Reqs(sch, x)[q]] < rank[x])
    && (forall t: nat, i: nat, j: nat ::
          IsSlot(sch, Slot(t, i)) && IsSlot(sch, Slot(t, j)) && i < j ==> rank[Slot(t, i)] < rank[Slot(t, j)])
  }

  /** At least one thread, and every required counter exists. */
  predicate ValidReqs(sch: Schedule) {
    && |sch| >= 1
    && forall t, i, q :: 0 <= t < |sch| && 0 <= i < |sch[t]| && 0 <= q < |sch[t][i].reqs| ==>
         IsSlot(sch, sch[t][i].reqs[q])
  }

  /** What a finished schedule looks like. */
  ghost predicate WellFormed(sch: Schedule) {
    ValidReqs(sch) && exists rank :: Ranked(sch, rank)
  }

  /** Where a thread is. */
  datatype Pc =
    | Idle                                     // thread 0, between two calls
    | Load                                     // Barrier.wait: about to read mGeneration
    | Add(gen: int)                            // about to increment mCount
    | Clear(gen: int)                          // arrived last: about to reset mCount
    | Bump(gen: int)                           // about to increment mGeneration
    | Spin(gen: int)                           // waiting for mGeneration to change
    | Check                                    // worker, past the barrier: about to read mJoining
    | Fetch(entry: nat, req: nat)              // doStep: about to read mTimeStepCount for a requirement
    | Await(entry: nat, req: nat, value: int)  // in Counter.wait(value)
    | Execute(entry: nat)                      // about to run the task on mTime and mTimeStepCount
    | Finish(entry: nat)                       // about to increment the end counter
    | Last(worker: nat)                        // thread 0 in step: next worker to wait for
    | AwaitLast(worker: nat, value: int)       // waiting for the last counter of that worker
    | Join(worker: nat)                        // thread 0 in stop: next worker to join
    | Gone                                     // returned

  /** One execution of a task: its slot and the arguments it saw. */
  datatype Event = Event(slot: Slot, time: real, count: int)

  /** The shared variables, the threads, and three history variables: the time arguments of the
      calls of `step`, the executions of the call in progress, and those of the returned calls. */
  datatype State = State(
    pcs: seq<Pc>, counters: seq<seq<int>>, count: int, generation: int,
    time: real, stepCount: int, joining: bool,
    times: seq<real>, current: seq<Event>, past: seq<seq<Event>>)

  function Init(sch: Schedule): State {
    State(seq(|sch|, t => if t == 0 then Idle else Load),
          seq(|sch|, t requires 0 <= t < |sch| => seq(|sch[t]|, i => 0)),
          0, 0, 0.0, 0, false, [], [], [])
  }

  predicate Shaped(sch: Schedule, s: State) {
    && |s.pcs| == |s.counters| == |sch|
    && (forall t :: 0 <= t < |sch| ==> |s.counters[t]| == |sch[t]|)
    && (forall t :: 0 <= t < |sch| ==> PcShaped(sch, t, s.pcs[t]))
  }

  predicate PcShaped(sch: Schedule, t: nat, pc: Pc)
    requires t < |sch|
  {
    match pc
    case Fetch(i, r) => i < |sch[t]| && r <= |sch[t][i].reqs|
    case Await(i, r, _) => i < |sch[t]| && r < |sch[t][i].reqs|
    case Execute(i) => i < |sch[t]|
    case Finish(i) => i < |sch[t]|
    case Last(u) => t == 0 && 1 <= u <= |sch|
    case AwaitLast(u, _) => t == 0 && 1 <= u < |sch| && sch[u] != []
    case Join(u) => t == 0 && 1 <= u <= |sch|
    case Idle => t == 0
    case Check => t != 0
    case _ => true
  }

  function CounterAt(s: State, x: Slot): int
    requires x.thread < |s.counters| && x.index < |s.counters[x.thread]|
  {
    s.counters[x.thread][x.index]
  }

  /** doStep from entry i on; past the last entry, a worker returns to the barrier and thread 0
      waits for the workers. */
  function Enter(sch: Schedule, t: nat, i: nat): Pc
    requires t < |sch|
  {
    if i < |sch[t]| then Fetch(i, 0) else if t == 0 then Last(1) else Load
  }

  /** Where the barrier releases a thread to. */
  function Released(sch: Schedule, s: State, t: nat): Pc
    requires t < |sch|
  {
    if t != 0 then Check else if s.joining then Join(1) else Enter(sch, 0, 0)
  }

  /** Whether thread t can take a step of its own. */
  predicate CanMove(sch: Schedule, s: State, t: nat)
    requires ValidReqs(sch) && Shaped(sch, s)
  {
    t < |sch| &&
    match s.pcs[t]
    case Idle => false
    case Gone => false
    case Spin(g) => s.generation != g
    case Await(i, r, v) => CounterAt(s, sch[t][i].reqs[r]) == v
    case AwaitLast(u, v) => CounterAt(s, Slot(u, |sch[u]| - 1)) == v
    case Join(u) => u == |sch| || s.pcs[u] == Gone
    case _ => true
  }

  /** Where the step of thread t leads. */
  function NextPc(sch: Schedule, s: State, t: nat): Pc
    requires ValidReqs(sch) && Shaped(sch, s) && CanMove(sch, s, t)
  {
    match s.pcs[t]
    case Load => Add(s.generation)
    case Add(g) => if s.count == |sch| - 1 then Clear(g) else Spin(g)
    case Clear(g) => Bump(g)
    case Bump(_) => Released(sch, s, t)
    case Spin(_) => Released(sch, s, t)
    case Check => if s.joining then Gone else Enter(sch, t, 0)
    case Fetch(i, r) => if r < |sch[t][i].reqs| then Await(i, r, s.stepCount + 1) else Execute(i)
    case Await(i, r, _) => Fetch(i, r + 1)
    case Execute(i) => Finish(i)
    case Finish(i) => Enter(sch, t, i + 1)
    case Last(u) =>
      if u == |sch| then Idle else if sch[u] == [] then Last(u + 1) else AwaitLast(u, s.stepCount + 1)
    case AwaitLast(u, _) => Last(u + 1)
    case Join(u) => if u == |sch| then Gone else Join(u + 1)
  }

  /** The step of thread t. */
  function Move(sch: Schedule, s: State, t: nat): State
    requires ValidReqs(sch) && Shaped(sch, s) && CanMove(sch, s, t)
  {
    var s' := s.(pcs := s.pcs[t := NextPc(sch, s, t)]);
    match s.pcs[t]
    case Add(_) => s'.(count := s.count + 1)
    case Clear(_) => s'.(count := 0)
    case Bump(_) => s'.(generation := s.generation + 1)
    case Execute(i) => s'.(current := s.current + [Event(Slot(t, i), s.time, s.stepCount)])
    case Finish(i) => s'.(counters := s.counters[t := s.counters[t][i := s.counters[t][i] + 1]])
    case Last(u) => if u == |sch| then s'.(past := s.past + [s.current], current := []) else s'
    case _ => s'
  }

  /** The next call of `step`: its count argument is the number of calls so far. */
  function CallStep(s: State, time: real): State
    requires |s.pcs| >= 1 && s.pcs[0] == Idle
  {
    s.(pcs := s.pcs[0 := Load], time := time, stepCount := |s.past|, times := s.times + [time])
  }

  /** The call of `stop`; without workers there is nothing to join. */
  function CallStop(s: State): State
    requires |s.pcs| >= 1 && s.pcs[0] == Idle
  {
    if |s.pcs| == 1 then s.(pcs := s.pcs[0 := Gone]) else s.(pcs := s.pcs[0 := Load], joining := true)
  }

  ghost predicate Next(sch: Schedule, s: State, s': State)
    requires ValidReqs(sch) && Shaped(sch, s)
  {
    || (exists t: nat :: CanMove(sch, s, t) && s' == Move(sch, s, t))
    || (s.pcs[0] == Idle && ((exists time :: s' == CallStep(s, time)) || s' == CallStop(s)))
  }

  /** A run of any length, from any state. */
  ghost predicate IsRun(sch: Schedule, run: seq<State>) {
    && ValidReqs(sch)
    && |run| >= 1
    && (forall k :: 0 <= k < |run| ==> Shaped(sch, run[k]))
    && forall k :: 0 <= k < |run| - 1 ==> Next(sch, run[k], run[k + 1])
  }

  ghost predicate Reachable(sch: Schedule, s: State) {
    exists run :: IsRun(sch, run) && run[0] == Init(sch) && run[|run| - 1] == s
  }

  // ---------------------------------------------------------------- the invariant

  predicate Arrived(pc: Pc, g: int) {
    (pc.Clear? || pc.Bump? || pc.Spin?) && pc.gen == g
  }

  function Arrivals(pcs: seq<Pc>, g: int): nat {
    if pcs == [] then 0 else Arrivals(pcs[..|pcs| - 1], g) + (if Arrived(pcs[|pcs| - 1], g) then 1 else 0)
  }

  lemma {:induction false} ArrivalsUpdate(pcs: seq<Pc>, t: nat, pc: Pc, g: int)
    requires t < |pcs|
    ensures Arrivals(pcs[t := pc], g) ==
            Arrivals(pcs, g) - (if Arrived(pcs[t], g) then 1 else 0) + (if Arrived(pc, g) then 1 else 0)
  {
    var n := |pcs| - 1;
    if t == n {
      assert pcs[t := pc][..n] == pcs[..n];
    } else {
      ArrivalsUpdate(pcs[..n], t, pc, g);
      assert pcs[t := pc][..n] == pcs[..n][t := pc];
    }
  }

  lemma {:induction false} ArrivalsFull(pcs: seq<Pc>, g: int)
    ensures Arrivals(pcs, g) <= |pcs|
    ensures Arrivals(pcs, g) == |pcs| <==> forall t :: 0 <= t < |pcs| ==> Arrived(pcs[t], g)
    ensures (forall t :: 0 <= t < |pcs| ==> !Arrived(pcs[t], g)) ==> Arrivals(pcs, g) == 0
  {
    if pcs != [] {
      var n := |pcs| - 1;
      ArrivalsFull(pcs[..n], g);
      assert forall t :: 0 <= t < n ==> pcs[..n][t] == pcs[t];
    }
  }

  ghost predicate BarrierOk(s: State) {
    && (forall t, u :: 0 <= t < u < |s.pcs| ==>
          !((s.pcs[t].Clear? || s.pcs[t].Bump?) && (s.pcs[u].Clear? || s.pcs[u].Bump?)))
    && (forall t :: 0 <= t < |s.pcs| && s.pcs[t].Bump? ==>
          s.count == 0 && Arrivals(s.pcs, s.generation) == |s.pcs|)
    && ((forall t :: 0 <= t < |s.pcs| ==> !s.pcs[t].Bump?) ==> s.count == Arrivals(s.pcs, s.generation))
    && (Arrivals(s.pcs, s.generation) == |s.pcs| ==>
          exists t :: 0 <= t < |s.pcs| && (s.pcs[t].Clear? || s.pcs[t].Bump?))
    && (forall t :: 0 <= t < |s.pcs| ==>
          match s.pcs[t]
          case Add(g) => g == s.generation
          case Clear(g) => g == s.generation && s.count == |s.pcs|
          case Bump(g) => g == s.generation
          case Spin(g) => g == s.generation || g == s.generation - 1
          case _ => true)
  }

  /** A worker that has finished the call in progress or the one before it. */
  predicate Ahead(pc: Pc, g: int) {
    pc.Load? || pc.Add? || Arrived(pc, g)
  }

  predicate InDoStep(pc: Pc) {
    pc.Fetch? || pc.Await? || pc.Execute? || pc.Finish?
  }

  /** Where thread 0 stands, and what that says about the call in progress. */
  ghost predicate CallOk(s: State)
    requires |s.pcs| >= 1
  {
    var k := |s.past|;
    var pc := s.pcs[0];
    && (s.joining ==> |s.pcs| > 1)
    && (pc.Idle? ==> s.generation == k && !s.joining)
    && (pc.Load? || pc.Add? || pc.Clear? || pc.Bump? ==> s.generation == k)
    && (pc.Spin? ==> pc.gen == k && (s.generation == k || s.generation == k + 1))
    && (InDoStep(pc) || pc.Last? || pc.AwaitLast? ==> s.generation == k + 1 && !s.joining)
    && (pc.Join? ==> s.generation == k + 1 && s.joining)
    && (pc.Gone? ==> if |s.pcs| > 1 then s.generation == k + 1 && s.joining else s.generation == k)
    && (if s.joining || pc.Idle? || pc.Gone? then |s.times| == k
        else |s.times| == k + 1 && s.time == s.times[k] && s.stepCount == k)
    && (s.joining || s.generation == k ==> s.current == [])
  }

  /** Where a worker may be meanwhile: g barriers passed by the last thread, k calls returned. */
  predicate WorkerOk(entries: nat, pc: Pc, g: int, k: int, joining: bool) {
    && (pc.Gone? ==> joining)
    && (g == k && entries > 0 ==> Ahead(pc, g))
    && (joining && g == k + 1 ==> pc.Gone? || pc.Check? || pc == Spin(k))
    && (joining || g == k ==> !InDoStep(pc))
  }

  predicate WorkersOk(sch: Schedule, s: State)
    requires Shaped(sch, s)
  {
    forall w :: 1 <= w < |sch| ==> WorkerOk(|sch[w]|, s.pcs[w], s.generation, |s.past|, s.joining)
  }

  /** All end counters that pc has already found raised are indeed raised to g. */
  ghost predicate Seen(sch: Schedule, counters: seq<seq<int>>, g: int, t: nat, pc: Pc)
    requires ValidReqs(sch) && |counters| == |sch| && t < |sch| && PcShaped(sch, t, pc)
    requires forall u :: 0 <= u < |sch| ==> |counters[u]| == |sch[u]|
  {
    match pc
    case Fetch(i, r) => Raised(sch, counters, g, sch[t][i].reqs[..r])
    case Await(i, r, v) => v == g && Raised(sch, counters, g, sch[t][i].reqs[..r])
    case Execute(i) => Raised(sch, counters, g, sch[t][i].reqs)
    case Finish(i) => Raised(sch, counters, g, sch[t][i].reqs)
    case Last(u) => WorkersDone(sch, counters, g, u)
    case AwaitLast(u, v) => v == g && WorkersDone(sch, counters, g, u)
    case _ => true
  }

  ghost predicate Raised(sch: Schedule, counters: seq<seq<int>>, g: int, reqs: seq<Slot>)
    requires |counters| == |sch| && forall u :: 0 <= u < |sch| ==> |counters[u]| == |sch[u]|
  {
    forall q :: 0 <= q < |reqs| ==> IsSlot(sch, reqs[q]) && counters[reqs[q].thread][reqs[q].index] == g
  }

  ghost predicate WorkersDone(sch: Schedule, counters: seq<seq<int>>, g: int, u: nat)
    requires |counters| == |sch| && u <= |sch| && forall w :: 0 <= w < |sch| ==> |counters[w]| == |sch[w]|
  {
    forall w :: 1 <= w < u && sch[w] != [] ==> counters[w][|sch[w]| - 1] == g
  }

  ghost predicate SeenOk(sch: Schedule, s: State)
    requires ValidReqs(sch) && Shaped(sch, s)
  {
    forall t :: 0 <= t < |sch| ==> Seen(sch, s.counters, s.generation, t, s.pcs[t])
  }

  /** The value of end counter j of a thread at pc, k calls having returned. */
  function Expected(k: int, g: int, joining: bool, pc: Pc, j: nat): int {
    if joining || g == k then k else
    match pc
    case Fetch(i, _) => if j < i then k + 1 else k
    case Await(i, _, _) => if j < i then k + 1 else k
    case Execute(i) => if j < i then k + 1 else k
    case Finish(i) => if j < i then k + 1 else k
    case Spin(h) => if h == g then k + 1 else k
    case Check => k
    case _ => k + 1
  }

  predicate AsExpected(values: seq<int>, k: int, g: int, joining: bool, pc: Pc) {
    forall j :: 0 <= j < |values| ==> values[j] == Expected(k, g, joining, pc, j)
  }

  predicate CountersOk(sch: Schedule, s: State)
    requires Shaped(sch, s)
  {
    && (s.generation == |s.past| || s.generation == |s.past| + 1)
    && forall t :: 0 <= t < |sch| ==> AsExpected(s.counters[t], |s.past|, s.generation, s.joining, s.pcs[t])
  }

  ghost predicate Ran(log: seq<Event>, x: Slot) {
    exists e :: 0 <= e < |log| && log[e].slot == x
  }

  /** Executions of one call: no entry twice, all with the arguments of the call, and each after
      the entries it waits for. */
  ghost predicate GoodLog(sch: Schedule, log: seq<Event>, time: real, k: int) {
    && (forall e :: 0 <= e < |log| ==> IsSlot(sch, log[e].slot) && log[e].time == time && log[e].count == k)
    && (forall d, e :: 0 <= d < e < |log| ==> log[d].slot != log[e].slot)
    && (forall e, q :: 0 <= e < |log| && 0 <= q < |Reqs(sch, log[e].slot)| ==>
          Ran(log[..e], Reqs(sch, log[e].slot)[q]))
  }

  ghost predicate CompleteLog(sch: Schedule, log: seq<Event>, time: real, k: int) {
    GoodLog(sch, log, time, k) && forall x: Slot :: IsSlot(sch, x) ==> Ran(log, x)
  }

  ghost predicate LogOk(sch: Schedule, s: State)
    requires Shaped(sch, s)
  {
    && |s.past| <= |s.times|
    && (forall k :: 0 <= k < |s.past| ==> CompleteLog(sch, s.past[k], s.times[k], k))
    && (!s.joining && s.generation == |s.past| + 1 ==>
          && |s.past| < |s.times|
          && GoodLog(sch, s.current, s.times[|s.past|], |s.past|)
          && forall x: Slot :: IsSlot(sch, x) ==>
               (Ran(s.current, x) <==> CounterAt(s, x) == |s.past| + 1 || s.pcs[x.thread] == Finish(x.index)))
  }

  ghost predicate Inv(sch: Schedule, s: State) {
    && ValidReqs(sch)
    && Shaped(sch, s)
    && BarrierOk(s)
    && CallOk(s)
    && WorkersOk(sch, s)
    && SeenOk(sch, s)
    && CountersOk(sch, s)
    && LogOk(sch, s)
  }

  lemma InitInv(sch: Schedule)
    requires ValidReqs(sch)
    ensures Inv(sch, Init(sch))
  {
    ArrivalsFull(Init(sch).pcs, 0);
  }

  // ---------------------------------------------------------------- every step keeps it

  lemma NextShape(sch: Schedule, s: State, t: nat)
    requires ValidReqs(sch) && Shaped(sch, s) && CanMove(sch, s, t)
    ensures PcShaped(sch, t, NextPc(sch, s, t))
  {
  }

  lemma MoveShape(sch: Schedule, s: State, t: nat)
    requires ValidReqs(sch) && Shaped(sch, s) && CanMove(sch, s, t)
    ensures Shaped(sch, Move(sch, s, t))
  {
    NextShape(sch, s, t);
  }

  /** A step that neither arrives at nor opens the barrier. */
  lemma {:induction false} QuietBarrier(s: State, t: nat, s': State)
    requires BarrierOk(s) && t < |s.pcs|
    requires |s'.pcs| == |s.pcs| && s'.pcs == s.pcs[t := s'.pcs[t]] && s'.count == s.count &&
             s'.generation == s.generation
    requires !Arrived(s.pcs[t], s.generation) && !s'.pcs[t].Clear? && !s'.pcs[t].Bump? && !s'.pcs[t].Spin?
    requires s'.pcs[t].Add? ==> s'.pcs[t].gen == s.generation
    ensures BarrierOk(s')
  {
    ArrivalsUpdate(s.pcs, t, s'.pcs[t], s.generation);
    ArrivalsFull(s.pcs, s.generation);
    assert Arrivals(s.pcs, s.generation) < |s.pcs|;
  }

  lemma {:induction false} ArriveBarrier(s: State, t: nat, s': State)
    requires BarrierOk(s) && t < |s.pcs| && s.pcs[t].Add?
    requires s'.pcs == s.pcs[t := if s.count == |s.pcs| - 1 then Clear(s.generation) else Spin(s.generation)]
    requires s'.count == s.count + 1 && s'.generation == s.generation
    ensures BarrierOk(s')
  {
    ArrivalsUpdate(s.pcs, t, s'.pcs[t], s.generation);
    ArrivalsFull(s.pcs, s.generation);
    assert Arrivals(s.pcs, s.generation) < |s.pcs|;
    assert !exists u :: 0 <= u < |s.pcs| && s.pcs[u].Bump?;
  }

  lemma {:induction false} ClearBarrier(s: State, t: nat, s': State)
    requires BarrierOk(s) && t < |s.pcs| && s.pcs[t].Clear?
    requires s'.pcs == s.pcs[t := Bump(s.generation)] && s'.count == 0 && s'.generation == s.generation
    ensures BarrierOk(s')
  {
    ArrivalsUpdate(s.pcs, t, s'.pcs[t], s.generation);
  }

  lemma {:induction false} OpenBarrier(s: State, t: nat, s': State)
    requires BarrierOk(s) && t < |s.pcs| && s.pcs[t].Bump?
    requires |s'.pcs| == |s.pcs| && s'.pcs == s.pcs[t := s'.pcs[t]] && s'.count == s.count &&
             s'.generation == s.generation + 1
    requires !s'.pcs[t].Add? && !s'.pcs[t].Clear? && !s'.pcs[t].Bump? && !s'.pcs[t].Spin?
    ensures BarrierOk(s')
  {
    ArrivalsFull(s.pcs, s.generation);
    ArrivalsFull(s'.pcs, s'.generation);
  }

  lemma {:induction false} MoveBarrier(sch: Schedule, s: State, t: nat)
    requires ValidReqs(sch) && Shaped(sch, s) && CanMove(sch, s, t) && BarrierOk(s)
    ensures BarrierOk(Move(sch, s, t))
  {
    var s' := Move(sch, s, t);
    match s.pcs[t]
    case Add(_) => ArriveBarrier(s, t, s');
    case Clear(_) => ClearBarrier(s, t, s');
    case Bump(_) => OpenBarrier(s, t, s');
    case _ => QuietBarrier(s, t, s');
  }

  lemma {:induction false} MoveCall(sch: Schedule, s: State, t: nat)
    requires ValidReqs(sch) && Shaped(sch, s) && CanMove(sch, s, t)
    requires BarrierOk(s) && CallOk(s) && WorkersOk(sch, s)
    ensures CallOk(Move(sch, s, t))
  {
    if t == 0 { MainCall(sch, s); } else { WorkerCall(sch, s, t); }
  }

  lemma {:induction false} MainCall(sch: Schedule, s: State)
    requires ValidReqs(sch) && Shaped(sch, s) && CanMove(sch, s, 0)
    requires BarrierOk(s) && CallOk(s)
    ensures CallOk(Move(sch, s, 0))
  {
  }

  lemma {:induction false} WorkerCall(sch: Schedule, s: State, t: nat)
    requires ValidReqs(sch) && Shaped(sch, s) && CanMove(sch, s, t) && t > 0
    requires BarrierOk(s) && CallOk(s) && WorkersOk(sch, s)
    ensures CallOk(Move(sch, s, t))
  {
    assert WorkerOk(|sch[t]|, s.pcs[t], s.generation, |s.past|, s.joining);
    ArrivalsFull(s.pcs, s.generation);
  }

  /** When thread 0 has found the last counter of every worker raised, all workers are done. */
  lemma {:induction false} AllDone(sch: Schedule, s: State)
    requires ValidReqs(sch) && Shaped(sch, s)
    requires BarrierOk(s) && CallOk(s) && WorkersOk(sch, s) && SeenOk(sch, s) && CountersOk(sch, s)
    requires s.pcs[0] == Last(|sch|)
    ensures forall w :: 1 <= w < |sch| ==> WorkerOk(|sch[w]|, s.pcs[w], s.generation, s.generation, false)
    ensures forall t :: 0 <= t < |sch| ==> AsExpected(s.counters[t], s.generation, s.generation, false, s.pcs[t])
  {
    assert Seen(sch, s.counters, s.generation, 0, s.pcs[0]);
    forall t | 0 <= t < |sch|
      ensures AsExpected(s.counters[t], s.generation, s.generation, false, s.pcs[t])
      ensures t > 0 ==> WorkerOk(|sch[t]|, s.pcs[t], s.generation, s.generation, false)
    {
      if sch[t] != [] {
        assert PcShaped(sch, t, s.pcs[t]);
        assert AsExpected(s.counters[t], |s.past|, s.generation, s.joining, s.pcs[t]);
        assert t > 0 ==> Expected(|s.past|, s.generation, s.joining, s.pcs[t], |sch[t]| - 1) == s.generation;
      }
    }
  }

  /** A step that changes nothing but the place of its thread and the barrier count. */
  predicate Plain(sch: Schedule, pc: Pc) {
    !pc.Bump? && !pc.Execute? && !pc.Finish? && pc != Last(|sch|)
  }

  lemma {:induction false} PlainWorker(sch: Schedule, s: State, t: nat)
    requires ValidReqs(sch) && Shaped(sch, s) && CanMove(sch, s, t) && Plain(sch, s.pcs[t])
    requires BarrierOk(s) && CallOk(s) && WorkersOk(sch, s)
    ensures t > 0 ==> WorkerOk(|sch[t]|, NextPc(sch, s, t), s.generation, |s.past|, s.joining)
  {
  }

  lemma {:induction false} PlainExpected(sch: Schedule, s: State, t: nat)
    requires ValidReqs(sch) && Shaped(sch, s) && CanMove(sch, s, t) && Plain(sch, s.pcs[t])
    requires BarrierOk(s) && CallOk(s) && WorkersOk(sch, s) && CountersOk(sch, s)
    ensures AsExpected(s.counters[t], |s.past|, s.generation, s.joining, NextPc(sch, s, t))
  {
  }

  lemma {:induction false} PlainSeen(sch: Schedule, s: State, t: nat)
    requires ValidReqs(sch) && Shaped(sch, s) && CanMove(sch, s, t) && (Plain(sch, s.pcs[t]) || s.pcs[t].Execute?)
    requires CallOk(s) && WorkersOk(sch, s) && SeenOk(sch, s) && CountersOk(sch, s)
    ensures PcShaped(sch, t, NextPc(sch, s, t))
    ensures Seen(sch, s.counters, s.generation, t, NextPc(sch, s, t))
  {
    NextShape(sch, s, t);
  }

  lemma {:induction false} PlainMove(sch: Schedule, s: State, t: nat)
    requires ValidReqs(sch) && Shaped(sch, s) && CanMove(sch, s, t) && Plain(sch, s.pcs[t])
    requires BarrierOk(s) && CallOk(s) && WorkersOk(sch, s) && SeenOk(sch, s) && CountersOk(sch, s)
    ensures var s' := Move(sch, s, t); Shaped(sch, s') && WorkersOk(sch, s') && SeenOk(sch, s') && CountersOk(sch, s')
  {
    MoveShape(sch, s, t);
    PlainWorker(sch, s, t);
    PlainExpected(sch, s, t);
    PlainSeen(sch, s, t);
  }

  lemma {:induction false} PlainLog(sch: Schedule, s: State, t: nat)
    requires ValidReqs(sch) && Shaped(sch, s) && CanMove(sch, s, t) && Plain(sch, s.pcs[t])
    requires LogOk(sch, s)
    ensures Shaped(sch, Move(sch, s, t)) && LogOk(sch, Move(sch, s, t))
  {
    MoveShape(sch, s, t);
  }

  /** When the barrier opens, all other threads are in it and no end counter is ahead. */
  lemma {:induction false} AllInBarrier(sch: Schedule, s: State, t: nat)
    requires ValidReqs(sch) && Shaped(sch, s) && t < |sch| && s.pcs[t].Bump?
    requires BarrierOk(s) && CallOk(s) && CountersOk(sch, s)
    ensures s.generation == |s.past|
    ensures forall u :: 0 <= u < |sch| && u != t ==> s.pcs[u] == Spin(s.generation)
    ensures forall u, i :: 0 <= u < |sch| && 0 <= i < |sch[u]| ==> s.counters[u][i] == |s.past|
  {
    ArrivalsFull(s.pcs, s.generation);
    assert forall u :: 0 <= u < |sch| ==> AsExpected(s.counters[u], |s.past|, s.generation, s.joining, s.pcs[u]);
  }

  lemma {:induction false} OpenMove(sch: Schedule, s: State, t: nat)
    requires ValidReqs(sch) && Shaped(sch, s) && CanMove(sch, s, t) && s.pcs[t].Bump?
    requires BarrierOk(s) && CallOk(s) && CountersOk(sch, s)
    ensures var s' := Move(sch, s, t); Shaped(sch, s') && WorkersOk(sch, s') && SeenOk(sch, s') && CountersOk(sch, s')
  {
    MoveShape(sch, s, t);
    AllInBarrier(sch, s, t);
  }

  lemma {:induction false} OpenLog(sch: Schedule, s: State, t: nat)
    requires ValidReqs(sch) && Shaped(sch, s) && CanMove(sch, s, t) && s.pcs[t].Bump?
    requires BarrierOk(s) && CallOk(s) && CountersOk(sch, s) && LogOk(sch, s)
    ensures Shaped(sch, Move(sch, s, t)) && LogOk(sch, Move(sch, s, t))
  {
    MoveShape(sch, s, t);
    AllInBarrier(sch, s, t);
  }

  lemma {:induction false} ExecuteLog(sch: Schedule, log: seq<Event>, time: real, k: int, x: Slot)
    requires GoodLog(sch, log, time, k) && IsSlot(sch, x) && !Ran(log, x)
    requires forall q :: 0 <= q < |Reqs(sch, x)| ==> Ran(log, Reqs(sch, x)[q])
    ensures GoodLog(sch, log + [Event(x, time, k)], time, k)
    ensures forall y :: Ran(log + [Event(x, time, k)], y) <==> Ran(log, y) || y == x
  {
    var log' := log + [Event(x, time, k)];
    assert log'[..|log|] == log;
    forall e, q | 0 <= e < |log'| && 0 <= q < |Reqs(sch, log'[e].slot)|
      ensures Ran(log'[..e], Reqs(sch, log'[e].slot)[q])
    {
      if e < |log| { assert log'[..e] == log[..e]; }
    }
    forall y ensures Ran(log', y) <==> Ran(log, y) || y == x {
      if Ran(log, y) { var e :| 0 <= e < |log| && log[e].slot == y; assert log'[e].slot == y; }
      assert log'[|log|].slot == x;
    }
  }

  lemma {:induction false} ExecuteMove(sch: Schedule, s: State, t: nat)
    requires Inv(sch, s) && CanMove(sch, s, t) && s.pcs[t].Execute?
    ensures var s' := Move(sch, s, t);
            Shaped(sch, s') && WorkersOk(sch, s') && SeenOk(sch, s') && CountersOk(sch, s') && LogOk(sch, s')
  {
    MoveShape(sch, s, t);
    PlainSeen(sch, s, t);
    var s', x := Move(sch, s, t), Slot(t, s.pcs[t].entry);
    assert Seen(sch, s.counters, s.generation, t, s.pcs[t]);
    assert AsExpected(s.counters[t], |s.past|, s.generation, s.joining, s.pcs[t]);
    ExecuteLog(sch, s.current, s.time, s.stepCount, x);
  }

  /** A counter that has been found raised is not the one that is about to be raised. */
  lemma {:induction false} FinishSeen(sch: Schedule, s: State, t: nat)
    requires ValidReqs(sch) && Shaped(sch, s) && CanMove(sch, s, t) && s.pcs[t].Finish?
    requires CallOk(s) && WorkersOk(sch, s) && SeenOk(sch, s) && CountersOk(sch, s)
    ensures Shaped(sch, Move(sch, s, t)) && SeenOk(sch, Move(sch, s, t))
  {
    MoveShape(sch, s, t);
    var s', i := Move(sch, s, t), s.pcs[t].entry;
    assert AsExpected(s.counters[t], |s.past|, s.generation, s.joining, s.pcs[t]);
    assert s.counters[t][i] != s.generation;
    forall u | 0 <= u < |sch| ensures Seen(sch, s'.counters, s'.generation, u, s'.pcs[u]) {
      assert Seen(sch, s.counters, s.generation, u, s.pcs[u]);
    }
  }

  lemma {:induction false} FinishMove(sch: Schedule, s: State, t: nat)
    requires ValidReqs(sch) && Shaped(sch, s) && CanMove(sch, s, t) && s.pcs[t].Finish?
    requires CallOk(s) && WorkersOk(sch, s) && CountersOk(sch, s) && LogOk(sch, s)
    ensures var s' := Move(sch, s, t); Shaped(sch, s') && WorkersOk(sch, s') && CountersOk(sch, s') && LogOk(sch, s')
  {
    MoveShape(sch, s, t);
    assert AsExpected(s.counters[t], |s.past|, s.generation, s.joining, s.pcs[t]);
  }

  lemma {:induction false} ReturnMove(sch: Schedule, s: State, t: nat)
    requires Inv(sch, s) && CanMove(sch, s, t) && s.pcs[t] == Last(|sch|)
    ensures var s' := Move(sch, s, t);
            Shaped(sch, s') && WorkersOk(sch, s') && SeenOk(sch, s') && CountersOk(sch, s') && LogOk(sch, s')
  {
    MoveShape(sch, s, t);
    AllDone(sch, s);
    var s', k := Move(sch, s, t), |s.past|;
    forall x: Slot | IsSlot(sch, x) ensures Ran(s.current, x) {
      assert AsExpected(s.counters[x.thread], s.generation, s.generation, false, s.pcs[x.thread]);
    }
  }

  lemma MoveInv(sch: Schedule, s: State, t: nat)
    requires Inv(sch, s) && CanMove(sch, s, t)
    ensures Inv(sch, Move(sch, s, t))
  {
    MoveBarrier(sch, s, t);
    MoveCall(sch, s, t);
    if s.pcs[t].Bump? { OpenMove(sch, s, t); OpenLog(sch, s, t); }
    else if s.pcs[t].Execute? { ExecuteMove(sch, s, t); }
    else if s.pcs[t].Finish? { FinishSeen(sch, s, t); FinishMove(sch, s, t); }
    else if s.pcs[t] == Last(|sch|) { ReturnMove(sch, s, t); }
    else { PlainMove(sch, s, t); PlainLog(sch, s, t); }
  }

  lemma CallInv(sch: Schedule, s: State, s': State)
    requires Inv(sch, s) && s.pcs[0] == Idle
    requires (exists time :: s' == CallStep(s, time)) || s' == CallStop(s)
    ensures Inv(sch, s')
  {
    QuietBarrier(s, 0, s');
  }

  lemma NextInv(sch: Schedule, s: State, s': State)
    requires Inv(sch, s) && Next(sch, s, s')
    ensures Inv(sch, s')
  {
    if t: nat :| CanMove(sch, s, t) && s' == Move(sch, s, t) {
      MoveInv(sch, s, t);
    } else {
      CallInv(sch, s, s');
    }
  }

  lemma {:induction false} RunInv(sch: Schedule, run: seq<State>)
    requires IsRun(sch, run) && Inv(sch, run[0])
    ensures Inv(sch, run[|run| - 1])
  {
    if |run| > 1 {
      var n := |run| - 1;
      assert IsRun(sch, run[..n]);
      RunInv(sch, run[..n]);
      assert Next(sch, run[n - 1], run[n - 1 + 1]);
      NextInv(sch, run[n - 1], run[n]);
    }
  }

  lemma ReachableInv(sch: Schedule, s: State)
    requires Reachable(sch, s)
    ensures Inv(sch, s)
  {
    var run :| IsRun(sch, run) && run[0] == Init(sch) && run[|run| - 1] == s;
    InitInv(sch);
    RunInv(sch, run);
  }

  // ---------------------------------------------------------------- safety

  /** At any moment of any run: a task being executed runs after every task it waits for, in the
      same call, and sees the arguments of that call. */
  lemma RunsAfterRequirements(sch: Schedule, s: State, t: nat)
    requires Reachable(sch, s) && t < |sch|
    ensures Shaped(sch, s)
    ensures s.pcs[t].Execute? || s.pcs[t].Finish? ==>
              && |s.times| == |s.past| + 1 && s.time == s.times[|s.past|] && s.stepCount == |s.past|
              && var reqs := sch[t][s.pcs[t].entry].reqs; forall q :: 0 <= q < |reqs| ==> Ran(s.current, reqs[q])
  {
    ReachableInv(sch, s);
    assert Seen(sch, s.counters, s.generation, t, s.pcs[t]);
    if t > 0 { assert WorkerOk(|sch[t]|, s.pcs[t], s.generation, |s.past|, s.joining); }
  }

  /** Every call of step that has returned ran every entry exactly once, after the entries it
      waits for, with the arguments of that call; between calls every end counter equals the
      number of calls. */
  lemma CallsAreComplete(sch: Schedule, s: State)
    requires Reachable(sch, s)
    ensures Inv(sch, s)
    ensures |s.past| <= |s.times| && forall k :: 0 <= k < |s.past| ==> CompleteLog(sch, s.past[k], s.times[k], k)
    ensures s.pcs[0] == Idle ==>
              |s.times| == |s.past| && forall x: Slot :: IsSlot(sch, x) ==> CounterAt(s, x) == |s.past|
  {
    ReachableInv(sch, s);
    forall x: Slot | IsSlot(sch, x) && s.pcs[0] == Idle ensures CounterAt(s, x) == |s.past| {
      assert AsExpected(s.counters[x.thread], |s.past|, s.generation, s.joining, s.pcs[x.thread]);
    }
  }

  /** When step overwrites mTime and mTimeStepCount, no worker is about to read them. */
  lemma NoWorkerReadsWhileIdle(sch: Schedule, s: State, w: nat)
    requires Reachable(sch, s) && 1 <= w < |sch|
    ensures Shaped(sch, s) && (s.pcs[0] == Idle ==> !InDoStep(s.pcs[w]))
  {
    ReachableInv(sch, s);
    assert WorkerOk(|sch[w]|, s.pcs[w], s.generation, |s.past|, s.joining);
  }

  // ---------------------------------------------------------------- every call takes finitely many steps

  function Work(entries: seq<Entry>, i: nat): nat
    decreases |entries| - i
  {
    if i >= |entries| then 0 else 2 * |entries[i].reqs| + 3 + Work(entries, i + 1)
  }

  /** Steps that a thread still has before it must wait for the next call: in doStep, its own
      steps and those that follow doStep; elsewhere, the steps up to there. */
  function Remaining(sch: Schedule, g: int, k: int, t: nat, pc: Pc): nat
    requires t < |sch| && PcShaped(sch, t, pc)
  {
    var after := if t == 0 then 2 * |sch| + 1 else 2;
    var all := Work(sch[t], 0) + after;
    match pc
    case Load => if g == k then all + 6 else 2
    case Add(_) => if g == k then all + 5 else 1
    case Clear(_) => all + 4
    case Bump(_) => all + 3
    case Spin(h) => if g == k then (if h == g then all + 2 else all + 8) else if h == g then 0 else all + 2
    case Check => if g == k then all + 7 else all + 1
    case Fetch(i, r) => 2 * (|sch[t][i].reqs| - r) + 3 + Work(sch[t], i + 1) + after
    case Await(i, r, _) => 2 * (|sch[t][i].reqs| - r) + 2 + Work(sch[t], i + 1) + after
    case Execute(i) => 2 + Work(sch[t], i + 1) + after
    case Finish(i) => 1 + Work(sch[t], i + 1) + after
    case Last(u) => 2 * (|sch| - u) + 1
    case AwaitLast(u, _) => 2 * (|sch| - u)
    case Join(u) => |sch| - u + 1
    case Idle => 0
    case Gone => 0
  }

  function Sum(xs: seq<nat>): nat {
    if xs == [] then 0 else xs[0] + Sum(xs[1..])
  }

  lemma {:induction false} SumUpdate(xs: seq<nat>, t: nat, x: nat)
    requires t < |xs|
    ensures Sum(xs[t := x]) == Sum(xs) - xs[t] + x
  {
    if t == 0 {
      assert xs[t := x][1..] == xs[1..];
    } else {
      SumUpdate(xs[1..], t - 1, x);
      assert xs[t := x][1..] == xs[1..][t - 1 := x];
    }
  }

  function Remainders(sch: Schedule, s: State): seq<nat>
    requires Shaped(sch, s)
  {
    seq(|sch|, t requires 0 <= t < |sch| => Remaining(sch, s.generation, |s.past|, t, s.pcs[t]))
  }

  function StepsLeft(sch: Schedule, s: State): nat
    requires Shaped(sch, s)
  {
    Sum(Remainders(sch, s))
  }

  /** The last thread to arrive finds the call of step, or of stop, in the barrier too. */
  lemma {:induction false} LastToArrive(sch: Schedule, s: State, t: nat)
    requires Inv(sch, s) && CanMove(sch, s, t) && s.pcs[t].Add? && s.count == |sch| - 1
    ensures s.generation == |s.past|
  {
    MoveInv(sch, s, t);
    ArrivalsFull(Move(sch, s, t).pcs, s.generation);
    assert Move(sch, s, t).pcs[0] == if t == 0 then Clear(s.generation) else s.pcs[0];
  }

  lemma {:induction false} NextRemaining(sch: Schedule, s: State, t: nat)
    requires Inv(sch, s) && CanMove(sch, s, t) && s.pcs[t] != Last(|sch|)
    ensures PcShaped(sch, t, NextPc(sch, s, t))
    ensures Remaining(sch, if s.pcs[t].Bump? then s.generation + 1 else s.generation, |s.past|, t, NextPc(sch, s, t))
            < Remaining(sch, s.generation, |s.past|, t, s.pcs[t])
  {
    hide SeenOk, CountersOk, LogOk;
    NextShape(sch, s, t);
    if t > 0 { assert WorkerOk(|sch[t]|, s.pcs[t], s.generation, |s.past|, s.joining); }
    if s.pcs[t].Add? && s.count == |sch| - 1 { LastToArrive(sch, s, t); }
  }

  lemma {:induction false} MoveUsesAStep(sch: Schedule, s: State, t: nat)
    requires Inv(sch, s) && CanMove(sch, s, t) && s.pcs[t] != Last(|sch|)
    ensures Shaped(sch, Move(sch, s, t)) && StepsLeft(sch, Move(sch, s, t)) < StepsLeft(sch, s)
  {
    var s' := Move(sch, s, t);
    MoveShape(sch, s, t);
    NextRemaining(sch, s, t);
    if s.pcs[t].Bump? { AllInBarrier(sch, s, t); }
    assert Remainders(sch, s') == Remainders(sch, s)[t := Remaining(sch, s'.generation, |s'.past|, t, s'.pcs[t])];
    SumUpdate(Remainders(sch, s), t, Remaining(sch, s'.generation, |s'.past|, t, s'.pcs[t]));
  }

  // ---------------------------------------------------------------- some thread can always move

  ghost predicate Pending(sch: Schedule, s: State, x: Slot)
    requires Shaped(sch, s)
  {
    IsSlot(sch, x) && CounterAt(s, x) != s.generation
  }

  /** Among the entries not yet finished, one of lowest rank. */
  lemma {:induction false} FirstPending(sch: Schedule, s: State, rank: map<Slot, nat>, x: Slot) returns (y: Slot)
    requires ValidReqs(sch) && Shaped(sch, s) && Ranked(sch, rank) && Pending(sch, s, x)
    ensures Pending(sch, s, y)
    ensures forall z: Slot :: Pending(sch, s, z) ==> rank[y] <= rank[z]
    decreases rank[x]
  {
    if z: Slot :| Pending(sch, s, z) && rank[z] < rank[x] {
      y := FirstPending(sch, s, rank, z);
    } else {
      y := x;
    }
  }

  /** A worker with nothing to do, still in the barrier of the call in progress or just past it. */
  predicate Late(sch: Schedule, s: State, t: nat)
    requires t < |sch| && |s.pcs| == |sch|
  {
    t > 0 && sch[t] == [] && (s.pcs[t].Check? || s.pcs[t].Spin?)
  }

  /** During the tasks of a call, some thread can move, even if the late workers never do. */
  lemma {:induction false} TasksProgress(sch: Schedule, s: State) returns (t: nat)
    requires WellFormed(sch) && Inv(sch, s)
    requires !s.joining && s.generation == |s.past| + 1
    ensures CanMove(sch, s, t) && !Late(sch, s, t)
  {
    var rank :| Ranked(sch, rank);
    assert Seen(sch, s.counters, s.generation, 0, s.pcs[0]);
    if x: Slot :| Pending(sch, s, x) {
      var y := FirstPending(sch, s, rank, x);
      t := y.thread;
      assert AsExpected(s.counters[t], |s.past|, s.generation, s.joining, s.pcs[t]);
      assert Seen(sch, s.counters, s.generation, t, s.pcs[t]);
      assert t > 0 ==> WorkerOk(|sch[t]|, s.pcs[t], s.generation, |s.past|, s.joining);
      if s.pcs[t].Await? {
        var i, r := s.pcs[t].entry, s.pcs[t].req;
        if i < y.index { assert Pending(sch, s, Slot(t, i)); }
        assert rank[Reqs(sch, Slot(t, i))[r]] < rank[Slot(t, i)];
        assert !Pending(sch, s, sch[t][i].reqs[r]);
      }
    } else {
      t := 0;
      if s.pcs[0].Await? {
        assert !Pending(sch, s, sch[0][s.pcs[0].entry].reqs[s.pcs[0].req]);
      } else if s.pcs[0].AwaitLast? {
        var u := s.pcs[0].worker;
        assert !Pending(sch, s, Slot(u, |sch[u]| - 1));
      }
    }
  }

  /** Before the barrier opens, some thread can move unless a worker has left. */
  lemma {:induction false} BarrierProgress(sch: Schedule, s: State) returns (t: nat)
    requires Inv(sch, s) && s.generation == |s.past| && !s.pcs[0].Idle? && !s.pcs[0].Gone?
    requires forall w :: 1 <= w < |sch| ==> !s.pcs[w].Gone?
    ensures CanMove(sch, s, t)
  {
    ArrivalsFull(s.pcs, s.generation);
    if u :| 0 <= u < |sch| && !Arrived(s.pcs[u], s.generation) {
      t := u;
      assert t > 0 ==> WorkerOk(|sch[t]|, s.pcs[t], s.generation, |s.past|, s.joining);
    } else {
      t :| 0 <= t < |sch| && (s.pcs[t].Clear? || s.pcs[t].Bump?);
    }
  }

  /** Once the barrier of stop has opened, some thread can move until stop returns. */
  lemma {:induction false} JoinProgress(sch: Schedule, s: State) returns (t: nat)
    requires Inv(sch, s) && s.joining && s.generation == |s.past| + 1 && !s.pcs[0].Gone?
    ensures CanMove(sch, s, t)
  {
    if u :| 1 <= u < |sch| && !s.pcs[u].Gone? {
      t := u;
      assert WorkerOk(|sch[u]|, s.pcs[u], s.generation, |s.past|, s.joining);
    } else {
      t := 0;
    }
  }

  /** Inside step, in any run, some thread can move. */
  lemma StepNeverDeadlocks(sch: Schedule, s: State)
    requires WellFormed(sch) && Reachable(sch, s)
    ensures Shaped(sch, s)
    ensures !s.joining && !s.pcs[0].Idle? && !s.pcs[0].Gone? ==> exists t: nat :: CanMove(sch, s, t)
  {
    ReachableInv(sch, s);
    if !s.joining && !s.pcs[0].Idle? && !s.pcs[0].Gone? {
      if s.generation == |s.past| {
        assert forall w :: 1 <= w < |sch| ==> WorkerOk(|sch[w]|, s.pcs[w], s.generation, |s.past|, s.joining);
        var t := BarrierProgress(sch, s);
      } else {
        var t := TasksProgress(sch, s);
      }
    }
  }

  /** Steps of threads, in any order, without a new call. */
  ghost predicate IsSpell(sch: Schedule, run: seq<State>)
    requires ValidReqs(sch)
  {
    && |run| >= 1
    && forall k :: 0 <= k < |run| - 1 ==> IsMove(sch, run[k], run[k + 1])
  }

  ghost predicate IsMove(sch: Schedule, s: State, s': State)
    requires ValidReqs(sch)
  {
    Shaped(sch, s) && exists t: nat :: CanMove(sch, s, t) && s' == Move(sch, s, t)
  }

  lemma MoveEither(sch: Schedule, s: State, s': State)
    requires Inv(sch, s) && IsMove(sch, s, s')
    ensures Inv(sch, s')
    ensures |s'.past| > |s.past| || (s'.past == s.past && StepsLeft(sch, s') < StepsLeft(sch, s))
  {
    var t: nat :| CanMove(sch, s, t) && s' == Move(sch, s, t);
    MoveInv(sch, s, t);
    if s.pcs[t] != Last(|sch|) { MoveUsesAStep(sch, s, t); }
  }

  /** However the threads are interleaved: a call of step returns, or no thread can move any
      more, within StepsLeft steps. */
  lemma {:induction false} CallsTerminate(sch: Schedule, run: seq<State>)
    requires ValidReqs(sch) && IsSpell(sch, run) && Inv(sch, run[0])
    ensures |run[|run| - 1].past| > |run[0].past| || |run| - 1 <= StepsLeft(sch, run[0])
    ensures |run[|run| - 1].past| >= |run[0].past|
    decreases |run|
  {
    if |run| > 1 {
      assert IsMove(sch, run[0], run[0 + 1]);
      MoveEither(sch, run[0], run[1]);
      var rest := run[1..];
      forall k | 0 <= k < |rest| - 1 ensures IsMove(sch, rest[k], rest[k + 1]) {
        var j := k + 1;
        assert IsMove(sch, run[j], run[j + 1]);
      }
      CallsTerminate(sch, rest);
    }
  }

  // ---------------------------------------------------------------- stop

  /** No run gets stuck inside a call of step or stop. */
  ghost predicate NoDeadlock(sch: Schedule)
    requires ValidReqs(sch)
  {
    forall s :: Reachable(sch, s) && Shaped(sch, s) && !s.pcs[0].Idle? && !s.pcs[0].Gone? ==>
                  exists t: nat :: CanMove(sch, s, t)
  }

  lemma ExtendRun(sch: Schedule, run: seq<State>, s': State)
    requires IsRun(sch, run) && Shaped(sch, s') && Next(sch, run[|run| - 1], s')
    ensures IsRun(sch, run + [s'])
  {
  }

  lemma ReachableNext(sch: Schedule, s: State, s': State)
    requires ValidReqs(sch) && Reachable(sch, s) && Inv(sch, s) && Next(sch, s, s')
    ensures Reachable(sch, s') && Inv(sch, s')
  {
    NextInv(sch, s, s');
    var run :| IsRun(sch, run) && run[0] == Init(sch) && run[|run| - 1] == s;
    ExtendRun(sch, run, s');
    assert (run + [s'])[|run|] == s';
  }

  lemma ReachableMove(sch: Schedule, s: State, t: nat)
    requires ValidReqs(sch) && Reachable(sch, s) && Inv(sch, s) && CanMove(sch, s, t)
    ensures Reachable(sch, Move(sch, s, t)) && Inv(sch, Move(sch, s, t))
  {
    assert Next(sch, s, Move(sch, s, t));
    ReachableNext(sch, s, Move(sch, s, t));
  }

  /** A move of another thread in the first call of step; it leaves worker w in the barrier. */
  lemma {:induction false} MoveWithout(sch: Schedule, s: State, w: nat) returns (t: nat)
    requires WellFormed(sch) && Inv(sch, s)
    requires 1 <= w < |sch| && sch[w] == [] && s.pcs[w] == Spin(0)
    requires !s.joining && s.past == [] && !s.pcs[0].Idle? && !s.pcs[0].Gone?
    ensures CanMove(sch, s, t) && t != w
  {
    if s.generation == 0 {
      assert forall v :: 1 <= v < |sch| ==> WorkerOk(|sch[v]|, s.pcs[v], s.generation, |s.past|, s.joining);
      t := BarrierProgress(sch, s);
    } else {
      t := TasksProgress(sch, s);
    }
  }

  /** The first call of step can return while worker w, with nothing to do, is still in the barrier. */
  lemma {:induction false} FinishWithout(sch: Schedule, s: State, w: nat) returns (r: State)
    requires WellFormed(sch) && Reachable(sch, s) && Inv(sch, s)
    requires 1 <= w < |sch| && sch[w] == [] && s.pcs[w] == Spin(0)
    requires !s.joining && s.past == [] && !s.pcs[0].Idle? && !s.pcs[0].Gone?
    ensures Reachable(sch, r) && Inv(sch, r) && r.pcs[w] == Spin(0) && r.pcs[0].Idle? && |r.past| == 1
    decreases StepsLeft(sch, s)
  {
    var t := MoveWithout(sch, s, w);
    r := Move(sch, s, t);
    ReachableMove(sch, s, t);
    MoveEither(sch, s, r);
    if s.pcs[t] != Last(|sch|) {
      r := FinishWithout(sch, r, w);
    }
  }

  /** Worker w has left and the barrier of stop is not open: from here stop cannot return. */
  ghost predicate Doomed(s: State, w: nat) {
    1 <= w < |s.pcs| && s.pcs[w].Gone? && s.joining && s.generation == |s.past|
  }

  lemma {:induction false} DoomedForGood(sch: Schedule, s: State, w: nat) returns (r: State)
    requires ValidReqs(sch) && Reachable(sch, s) && Inv(sch, s) && Doomed(s, w)
    ensures Reachable(sch, r) && Inv(sch, r) && Doomed(r, w) && !exists t: nat :: CanMove(sch, r, t)
    decreases StepsLeft(sch, s)
  {
    r := s;
    if t: nat :| CanMove(sch, s, t) {
      ArrivalsFull(s.pcs, s.generation);
      ReachableMove(sch, s, t);
      MoveUsesAStep(sch, s, t);
      r := DoomedForGood(sch, Move(sch, s, t), w);
    }
  }

  /** In the first call of step, worker w may be the first to arrive. */
  lemma {:induction false} ArriveEarly(sch: Schedule, w: nat) returns (r: State)
    requires ValidReqs(sch) && 1 <= w < |sch|
    ensures Reachable(sch, r) && Inv(sch, r) && r.pcs[w] == Spin(0)
    ensures !r.joining && r.past == [] && r.pcs[0] == Load
  {
    var s0 := Init(sch);
    InitInv(sch);
    assert IsRun(sch, [s0]) && Reachable(sch, [s0][0]);
    var s1 := CallStep(s0, 0.0);
    ReachableNext(sch, s0, s1);
    ReachableMove(sch, s1, w);
    var s2 := Move(sch, s1, w);
    ReachableMove(sch, s2, w);
    r := Move(sch, s2, w);
  }

  /** Between the last step and stop, worker w may still be in the barrier; then it may leave. */
  lemma {:induction false} LeaveEarly(sch: Schedule, s: State, w: nat) returns (r: State)
    requires ValidReqs(sch) && Reachable(sch, s) && Inv(sch, s) && 1 <= w < |sch|
    requires s.pcs[w] == Spin(0) && s.pcs[0].Idle? && |s.past| == 1
    ensures Reachable(sch, r) && Inv(sch, r) && Doomed(r, w)
  {
    var s1 := CallStop(s);
    ReachableNext(sch, s, s1);
    ReachableMove(sch, s1, w);
    var s2 := Move(sch, s1, w);
    ReachableMove(sch, s2, w);
    r := Move(sch, s2, w);
  }

  /** A worker with an empty schedule may see mJoining before it leaves the barrier of the last
      step; it then returns without joining the barrier of stop, which never opens. */
  lemma {:induction false} IdleWorkerDeadlocksStop(sch: Schedule, w: nat) returns (r: State)
    requires WellFormed(sch) && 1 <= w < |sch| && sch[w] == []
    ensures Reachable(sch, r) && Inv(sch, r) && r.joining && !r.pcs[0].Gone? && !exists t: nat :: CanMove(sch, r, t)
  {
    r := ArriveEarly(sch, w);
    r := FinishWithout(sch, r, w);
    r := LeaveEarly(sch, r, w);
    r := DoomedForGood(sch, r, w);
  }

  /** step and stop never deadlock exactly when every worker has at least one task. */
  lemma NoDeadlockIff(sch: Schedule)
    requires WellFormed(sch)
    ensures NoDeadlock(sch) <==> forall w :: 1 <= w < |sch| ==> sch[w] != []
  {
    if w :| 1 <= w < |sch| && sch[w] == [] {
      var r := IdleWorkerDeadlocksStop(sch, w);
    } else {
      forall s | Reachable(sch, s) && Shaped(sch, s) && !s.pcs[0].Idle? && !s.pcs[0].Gone?
        ensures exists t: nat :: CanMove(sch, s, t)
      {
        ReachableInv(sch, s);
        if !s.joining {
          StepNeverDeadlocks(sch, s);
        } else if s.generation == |s.past| {
          assert forall w :: 1 <= w < |sch| ==> WorkerOk(|sch[w]|, s.pcs[w], s.generation, |s.past|, s.joining);
          var t := BarrierProgress(sch, s);
        } else {
          var t := JoinProgress(sch, s);
        }
      }
    }
  }
}
