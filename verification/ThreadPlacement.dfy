module ThreadPlacement {

  // ThreadScheduler: placing tasks on threads, turning the placement into schedule entries with
  // the counters they wait for, and what a parallel run of these entries does to the attributes.

  import opened TaskGraph
  import opened Scheduler
  import opened ThreadProtocol
  import opened TaskEffects

  /** For each thread, its tasks in order (mTempSchedules). */
  type Plan = seq<seq<Task>>

  predicate InPlan(plan: Plan, x: Slot) {
    x.thread < |plan| && x.index < |plan[x.thread]|
  }

  function TaskAt(plan: Plan, x: Slot): Task
    requires InPlan(plan, x)
  {
    plan[x.thread][x.index]
  }

  /** The plan holds exactly the tasks of `order`, task k of it in slot at[k]; each thread runs its
      tasks in that order. */
  ghost predicate Placed(plan: Plan, order: seq<Task>, at: seq<Slot>) {
    && |at| == |order|
    && (forall k :: 0 <= k < |at| ==> InPlan(plan, at[k]) && TaskAt(plan, at[k]) == order[k])
    && (forall x: Slot :: InPlan(plan, x) ==> x in at)
    && (forall k, l :: 0 <= k < l < |at| && at[k].thread == at[l].thread ==> at[k].index < at[l].index)
  }

  lemma {:induction false} PlaceOne(plan: Plan, order: seq<Task>, at: seq<Slot>, thread: nat, task: Task)
    requires Placed(plan, order, at) && thread < |plan|
    ensures Placed(plan[thread := plan[thread] + [task]], order + [task], at + [Slot(thread, |plan[thread]|)])
  {
    var plan', at' := plan[thread := plan[thread] + [task]], at + [Slot(thread, |plan[thread]|)];
    forall x: Slot | InPlan(plan', x) ensures x in at' {
      if InPlan(plan, x) { assert x in at; }
    }
    assert forall k :: 0 <= k < |at| ==> InPlan(plan, at[k]);
  }

  /** The entries belong to the plan: each waits for the counters of the tasks it depends on. */
  ghost predicate Describes(sch: Schedule, plan: Plan, inEdges: Edges) {
    |sch| == |plan| && forall t :: 0 <= t < |sch| ==> EntriesOk(sch[t], plan[t], plan, inEdges)
  }

  ghost predicate EntriesOk(entries: seq<Entry>, tasks: seq<Task>, plan: Plan, inEdges: Edges) {
    && |entries| == |tasks|
    && forall i :: 0 <= i < |entries| ==>
         entries[i].task == tasks[i] && IsReqs(entries[i].reqs, plan, Get(inEdges, tasks[i]))
  }

  ghost predicate IsReqs(reqs: seq<Slot>, plan: Plan, befores: seq<Task>) {
    |reqs| == |befores| && forall q :: 0 <= q < |reqs| ==> InPlan(plan, reqs[q]) && TaskAt(plan, reqs[q]) == befores[q]
  }

  /** Each counter in the map is that of a slot that holds the task. */
  ghost predicate CountersOk(counters: map<Task, Slot>, plan: Plan) {
    forall x :: x in counters ==> InPlan(plan, counters[x]) && TaskAt(plan, counters[x]) == x
  }

  method Counters(plan: Plan) returns (counters: map<Task, Slot>)
    ensures CountersOk(counters, plan)
    ensures forall x: Slot :: InPlan(plan, x) ==> TaskAt(plan, x) in counters
  {
    counters := map[];
    for t := 0 to |plan|
      invariant CountersOk(counters, plan)
      invariant forall x: Slot :: InPlan(plan, x) && x.thread < t ==> TaskAt(plan, x) in counters
    {
      for i := 0 to |plan[t]|
        invariant CountersOk(counters, plan)
        invariant forall x: Slot :: InPlan(plan, x) && (x.thread < t || (x.thread == t && x.index < i)) ==>
                    TaskAt(plan, x) in counters
      {
        counters := counters[plan[t][i] := Slot(t, i)];
      }
    }
  }

  method Requirements(befores: seq<Task>, counters: map<Task, Slot>, plan: Plan) returns (reqs: seq<Slot>)
    requires CountersOk(counters, plan) && forall x :: x in befores ==> x in counters
    ensures IsReqs(reqs, plan, befores)
  {
    reqs := [];
    for q := 0 to |befores|
      invariant IsReqs(reqs, plan, befores[..q])
    {
      reqs := reqs + [counters[befores[q]]];
    }
  }

  method Entries(tasks: seq<Task>, counters: map<Task, Slot>, plan: Plan, inEdges: Edges) returns (entries: seq<Entry>)
    requires CountersOk(counters, plan) && forall i, x :: 0 <= i < |tasks| && x in Get(inEdges, tasks[i]) ==>
               x in counters
    ensures EntriesOk(entries, tasks, plan, inEdges)
  {
    entries := [];
    for i := 0 to |tasks|
      invariant EntriesOk(entries, tasks[..i], plan, inEdges)
    {
      var reqs := Requirements(Get(inEdges, tasks[i]), counters, plan);
      entries := entries + [Entry(tasks[i], reqs)];
    }
    assert tasks[..|tasks|] == tasks;
  }

  /** Every task that a placed task depends on has a counter. */
  lemma {:induction false} HasCounter(plan: Plan, order: seq<Task>, at: seq<Slot>, inEdges: Edges,
                                      counters: map<Task, Slot>, x: Slot, before: Task)
    requires Placed(plan, order, at) && Respects(inEdges, order) && InPlan(plan, x) &&
             before in Get(inEdges, TaskAt(plan, x))
    requires forall y: Slot :: InPlan(plan, y) ==> TaskAt(plan, y) in counters
    ensures before in counters
  {
    var k :| 0 <= k < |at| && at[k] == x;
    assert HasEdge(inEdges, before, order[k]);
    var l :| 0 <= l < k && order[l] == before;
    assert InPlan(plan, at[l]);
  }

  /** The placement order ranks the entries, so the entries cannot wait for each other in a circle. */
  lemma {:induction false} PlacementRanks(sch: Schedule, plan: Plan, order: seq<Task>, at: seq<Slot>, inEdges: Edges)
    requires |plan| >= 1 && Placed(plan, order, at) && Distinct(order) && Respects(inEdges, order) &&
             Describes(sch, plan, inEdges)
    ensures WellFormed(sch)
  {
    hide Describes, Respects, Placed, Distinct;
    ReqsAreSlots(sch, plan, inEdges);
    var rank := Ranks(plan, order, at);
    forall x: Slot | IsSlot(sch, x) ensures x in rank { SlotsAlike(sch, plan, inEdges, x); }
    forall x: Slot, q | IsSlot(sch, x) && 0 <= q < |Reqs(sch, x)| ensures rank[Reqs(sch, x)[q]] < rank[x] {
      ReqBefore(sch, plan, order, at, inEdges, x, q);
    }
    forall t: nat, i: nat, j: nat | IsSlot(sch, Slot(t, i)) && IsSlot(sch, Slot(t, j)) && i < j
      ensures rank[Slot(t, i)] < rank[Slot(t, j)]
    {
      SlotsAlike(sch, plan, inEdges, Slot(t, i));
      SlotsAlike(sch, plan, inEdges, Slot(t, j));
      RanksRise(plan, order, at, t, i, j);
    }
    assert Ranked(sch, rank);
  }

  lemma RanksRise(plan: Plan, order: seq<Task>, at: seq<Slot>, t: nat, i: nat, j: nat)
    requires Placed(plan, order, at) && InPlan(plan, Slot(t, i)) && InPlan(plan, Slot(t, j)) && i < j
    ensures Ranks(plan, order, at)[Slot(t, i)] < Ranks(plan, order, at)[Slot(t, j)]
  {
  }

  lemma ReqsAreSlots(sch: Schedule, plan: Plan, inEdges: Edges)
    requires Describes(sch, plan, inEdges)
    ensures |sch| == |plan|
    ensures forall t, i, q :: 0 <= t < |sch| && 0 <= i < |sch[t]| && 0 <= q < |sch[t][i].reqs| ==>
              IsSlot(sch, sch[t][i].reqs[q])
  {
    forall t, i, q | 0 <= t < |sch| && 0 <= i < |sch[t]| && 0 <= q < |sch[t][i].reqs|
      ensures IsSlot(sch, sch[t][i].reqs[q])
    {
      assert EntriesOk(sch[t], plan[t], plan, inEdges);
      assert IsReqs(sch[t][i].reqs, plan, Get(inEdges, plan[t][i]));
      SlotsAlike(sch, plan, inEdges, sch[t][i].reqs[q]);
    }
  }

  lemma SlotsAlike(sch: Schedule, plan: Plan, inEdges: Edges, x: Slot)
    requires Describes(sch, plan, inEdges)
    ensures IsSlot(sch, x) <==> InPlan(plan, x)
  {
    if x.thread < |sch| { assert EntriesOk(sch[x.thread], plan[x.thread], plan, inEdges); }
  }

  ghost function Ranks(plan: Plan, order: seq<Task>, at: seq<Slot>): (rank: map<Slot, nat>)
    requires Placed(plan, order, at)
    ensures forall x: Slot :: InPlan(plan, x) ==> x in rank && rank[x] < |at| && at[rank[x]] == x
  {
    map x: Slot | x in at :: IndexOf(at, x)
  }

  function IndexOf(at: seq<Slot>, x: Slot): (k: nat)
    requires x in at
    ensures k < |at| && at[k] == x
  {
    if at[0] == x then 0 else IndexOf(at[1..], x) + 1
  }

  /** What an entry waits for was placed before it. */
  lemma {:induction false} ReqBefore(sch: Schedule, plan: Plan, order: seq<Task>, at: seq<Slot>, inEdges: Edges,
                                     x: Slot, q: nat)
    requires Placed(plan, order, at) && Distinct(order) && Respects(inEdges, order) && Describes(sch, plan, inEdges)
    requires IsSlot(sch, x) && q < |Reqs(sch, x)|
    ensures InPlan(plan, x) && InPlan(plan, Reqs(sch, x)[q])
    ensures Ranks(plan, order, at)[Reqs(sch, x)[q]] < Ranks(plan, order, at)[x]
  {
    assert EntriesOk(sch[x.thread], plan[x.thread], plan, inEdges);
    var rank, y := Ranks(plan, order, at), Reqs(sch, x)[q];
    var before := Get(inEdges, order[rank[x]])[q];
    assert HasEdge(inEdges, before, order[rank[x]]);
    assert TaskAt(plan, y) == before;
    var l :| 0 <= l < rank[x] && order[l] == before;
    assert order[rank[y]] == before;
  }

  class ThreadScheduler {
    var tempSchedules: Plan
    ghost var order: seq<Task>
    ghost var at: seq<Slot>

    ghost predicate Valid()
      reads this
    {
      |tempSchedules| >= 1 && Placed(tempSchedules, order, at)
    }

    constructor (threads: nat)
      requires threads >= 1
      ensures Valid() && tempSchedules == seq(threads, t => []) && order == [] && at == []
    {
      tempSchedules := seq(threads, t => []);
      order, at := [], [];
    }

    /** The constructor refuses fewer than one thread. */
    static method Create(threads: int) returns (r: Result<ThreadScheduler>)
      ensures r.Ok? <==> threads >= 1
      ensures r.Ok? ==> fresh(r.value) && r.value.Valid() && |r.value.tempSchedules| == threads && r.value.order == []
    {
      if threads < 1 {
        return SchedulingException;
      }
      var s := new ThreadScheduler(threads);
      return Ok(s);
    }

    method ScheduleTask(thread: nat, task: Task)
      requires Valid() && thread < |tempSchedules|
      modifies this
      ensures Valid()
      ensures tempSchedules == old(tempSchedules[thread := tempSchedules[thread] + [task]])
      ensures order == old(order) + [task] && at == old(at) + [Slot(thread, |old(tempSchedules)[thread]|)]
    {
      PlaceOne(tempSchedules, order, at, thread, task);
      at := at + [Slot(thread, |tempSchedules[thread]|)];
      order := order + [task];
      tempSchedules := tempSchedules[thread := tempSchedules[thread] + [task]];
    }

    /** Builds the entries. The counter of a task that was never placed would be a null pointer:
        every task that an entry waits for must have been placed. */
    method FinishSchedule(inEdges: Edges) returns (sch: Schedule)
      requires Valid() && Distinct(order) && Respects(inEdges, order)
      ensures Describes(sch, tempSchedules, inEdges) && WellFormed(sch)
    {
      var counters := Counters(tempSchedules);
      sch := [];
      for t := 0 to |tempSchedules|
        invariant |sch| == t && forall u :: 0 <= u < t ==> EntriesOk(sch[u], tempSchedules[u], tempSchedules, inEdges)
      {
        forall i, x | 0 <= i < |tempSchedules[t]| && x in Get(inEdges, tempSchedules[t][i]) ensures x in counters {
          HasCounter(tempSchedules, order, at, inEdges, counters, Slot(t, i), x);
        }
        var entries := Entries(tempSchedules[t], counters, tempSchedules, inEdges);
        sch := sch + [entries];
      }
      PlacementRanks(sch, tempSchedules, order, at, inEdges);
    }
  }

  // ---------------------------------------------------------------- parallel and sequential steps

  /** The tasks of a log, in the order in which they ran. */
  function TaskLog(sch: Schedule, log: seq<Event>): seq<Task>
    requires forall e :: 0 <= e < |log| ==> IsSlot(sch, log[e].slot)
  {
    seq(|log|, e requires 0 <= e < |log| && IsSlot(sch, log[e].slot) => sch[log[e].slot.thread][log[e].slot.index].task)
  }

  /** A complete call runs the placed tasks, each once and after those it depends on. */
  lemma {:induction false} LogIsOrder(sch: Schedule, plan: Plan, order: seq<Task>, at: seq<Slot>, inEdges: Edges,
                                      log: seq<Event>, time: real, k: int)
    requires Placed(plan, order, at) && Distinct(order) && Respects(inEdges, order) && Describes(sch, plan, inEdges)
    requires CompleteLog(sch, log, time, k)
    ensures Distinct(TaskLog(sch, log)) && Respects(inEdges, TaskLog(sch, log))
    ensures forall x :: x in TaskLog(sch, log) <==> x in order
  {
    LogHolds(sch, plan, order, at, inEdges, log, time, k);
    hide Placed, Describes, Ran, TaskAt, InPlan;
    var tasks := TaskLog(sch, log);
    forall e, x | 0 <= e < |tasks| && HasEdge(inEdges, x, tasks[e]) ensures x in tasks[..e] {
      LogAfter(sch, plan, inEdges, log, time, k, e, x);
    }
  }

  lemma {:induction false} LogHolds(sch: Schedule, plan: Plan, order: seq<Task>, at: seq<Slot>, inEdges: Edges,
                                    log: seq<Event>, time: real, k: int)
    requires Placed(plan, order, at) && Distinct(order) && Describes(sch, plan, inEdges)
    requires CompleteLog(sch, log, time, k)
    ensures Distinct(TaskLog(sch, log)) && forall x :: x in TaskLog(sch, log) <==> x in order
  {
    hide Describes;
    var tasks := TaskLog(sch, log);
    forall e | 0 <= e < |log| ensures InPlan(plan, log[e].slot) && tasks[e] == TaskAt(plan, log[e].slot) {
      EventTask(sch, plan, inEdges, log[e].slot);
    }
    LogDistinct(sch, plan, order, at, log);
    forall x ensures x in tasks <==> x in order {
      if x in order {
        var k :| 0 <= k < |order| && order[k] == x;
        SlotsAlike(sch, plan, inEdges, at[k]);
        assert Ran(log, at[k]);
        var e :| 0 <= e < |log| && log[e].slot == at[k];
        assert tasks[e] == x;
      }
      if x in tasks {
        var e :| 0 <= e < |tasks| && tasks[e] == x;
        var k :| 0 <= k < |at| && at[k] == log[e].slot;
        assert order[k] == x;
      }
    }
  }

  lemma EventTask(sch: Schedule, plan: Plan, inEdges: Edges, x: Slot)
    requires Describes(sch, plan, inEdges) && IsSlot(sch, x)
    ensures InPlan(plan, x) && sch[x.thread][x.index].task == TaskAt(plan, x)
    ensures IsReqs(Reqs(sch, x), plan, Get(inEdges, TaskAt(plan, x)))
  {
    assert EntriesOk(sch[x.thread], plan[x.thread], plan, inEdges);
  }

  lemma {:induction false} LogDistinct(sch: Schedule, plan: Plan, order: seq<Task>, at: seq<Slot>, log: seq<Event>)
    requires Placed(plan, order, at) && Distinct(order)
    requires forall d, e :: 0 <= d < e < |log| ==> log[d].slot != log[e].slot
    requires forall e :: 0 <= e < |log| ==> IsSlot(sch, log[e].slot) && InPlan(plan, log[e].slot)
    requires forall e :: 0 <= e < |log| ==> TaskLog(sch, log)[e] == TaskAt(plan, log[e].slot)
    ensures Distinct(TaskLog(sch, log))
  {
    forall d, e | 0 <= d < e < |log| ensures TaskAt(plan, log[d].slot) != TaskAt(plan, log[e].slot) {
      var j :| 0 <= j < |at| && at[j] == log[d].slot;
      var k :| 0 <= k < |at| && at[k] == log[e].slot;
      assert order[j] != order[k];
    }
  }

  lemma {:induction false} LogAfter(sch: Schedule, plan: Plan, inEdges: Edges, log: seq<Event>, time: real, k: int,
                                    e: nat, x: Task)
    requires Describes(sch, plan, inEdges) && CompleteLog(sch, log, time, k)
    requires e < |log| && HasEdge(inEdges, x, TaskLog(sch, log)[e])
    ensures x in TaskLog(sch, log)[..e]
  {
    EventTask(sch, plan, inEdges, log[e].slot);
    var befores := Get(inEdges, TaskAt(plan, log[e].slot));
    var q :| 0 <= q < |befores| && befores[q] == x;
    var y := Reqs(sch, log[e].slot)[q];
    assert Ran(log[..e], y);
    var d :| 0 <= d < e && log[..e][d].slot == y;
    EventTask(sch, plan, inEdges, y);
    assert TaskLog(sch, log)[..e][d] == x;
  }

  /** The store after the first n calls of a sequential scheduler with this order. */
  function Sequential(body: Body, order: seq<Task>, times: seq<real>, n: nat, st: Store): Store
    requires n <= |times|
  {
    if n == 0 then st else Effect(body, order, times[n - 1], n - 1, Sequential(body, order, times, n - 1, st))
  }

  /** The store after the first n of the logged calls. */
  function Parallel(body: Body, sch: Schedule, logs: seq<seq<Event>>, times: seq<real>, n: nat, st: Store): Store
    requires n <= |times| && n <= |logs|
    requires forall k, e :: 0 <= k < |logs| && 0 <= e < |logs[k]| ==> IsSlot(sch, logs[k][e].slot)
  {
    if n == 0 then st
       else Effect(body, TaskLog(sch, logs[n - 1]), times[n - 1], n - 1, Parallel(body, sch, logs, times, n - 1, st))
  }

  lemma LogsInRange(sch: Schedule, s: State)
    requires WellFormed(sch) && Reachable(sch, s)
    ensures |s.past| <= |s.times| && forall k :: 0 <= k < |s.past| ==> CompleteLog(sch, s.past[k], s.times[k], k)
    ensures forall k, e :: 0 <= k < |s.past| && 0 <= e < |s.past[k]| ==> IsSlot(sch, s.past[k][e].slot)
  {
    hide Inv, WellFormed, Reachable, IsSlot;
    CallsAreComplete(sch, s);
    forall k, e | 0 <= k < |s.past| && 0 <= e < |s.past[k]| ensures IsSlot(sch, s.past[k][e].slot) {
      assert CompleteLog(sch, s.past[k], s.times[k], k);
    }
  }

  /** In every reachable state of the thread protocol on these entries, the calls that have
      returned left the store that a sequential scheduler leaves with any order of the same tasks
      that respects the edges - provided conflicting tasks are joined by a path. */
  lemma {:induction false} ParallelIsSequential(body: Body, fp: Footprint, sch: Schedule, plan: Plan, order: seq<Task>,
                                                at: seq<Slot>, inEdges: Edges, sorted: seq<Task>, s: State, n: nat,
                                                st: Store)
    requires |plan| >= 1 && Placed(plan, order, at) && Distinct(order) && Respects(inEdges, order) &&
             Describes(sch, plan, inEdges)
    requires Reachable(sch, s) && n <= |s.past|
    requires Distinct(sorted) && Respects(inEdges, sorted) && forall x :: x in sorted <==> x in order
    requires Honours(body, fp) && ConflictsJoined(inEdges, fp, sorted)
    ensures |s.past| <= |s.times| && forall k, e :: 0 <= k < |s.past| && 0 <= e < |s.past[k]| ==>
              IsSlot(sch, s.past[k][e].slot)
    ensures Parallel(body, sch, s.past, s.times, n, st) == Sequential(body, sorted, s.times, n, st)
  {
    hide CompleteLog, Placed, Respects, Distinct, Describes, Honours, ConflictsJoined, Reachable, Effect, TaskLog,
         IsSlot, WellFormed;
    PlacementRanks(sch, plan, order, at, inEdges);
    LogsInRange(sch, s);
    if n > 0 {
      ParallelIsSequential(body, fp, sch, plan, order, at, inEdges, sorted, s, n - 1, st);
      LogIsOrder(sch, plan, order, at, inEdges, s.past[n - 1], s.times[n - 1], n - 1);
      EdgesDetermineEffect(body, fp, inEdges, sorted, TaskLog(sch, s.past[n - 1]), s.times[n - 1], n - 1,
                           Sequential(body, sorted, s.times, n - 1, st));
    }
  }
}
