module ThreadListScheduler {

  // ThreadListScheduler: list scheduling by highest level first with estimated times (HLFET).

  import opened TaskGraph
  import opened Scheduler
  import opened TaskLevels
  import opened LoadBalance
  import opened ThreadPlacement
  import opened ThreadLevelScheduler
  import ThreadProtocol

  // ---------------------------------------------------------------- priorities

  /** The summed cost of a list of tasks. */
  function PathCost(cost: map<Task, int>, p: seq<Task>): int {
    if p == [] then 0 else (if p[0] in cost then cost[p[0]] else 0) + PathCost(cost, p[1..])
  }

  /** A path from t through tasks of the list. */
  ghost predicate PathFrom(inEdges: Edges, tasks: seq<Task>, t: Task, p: seq<Task>) {
    IsPath(inEdges, p) && p[0] == t && forall x :: x in p ==> x in tasks
  }

  /** v is the largest cost of a path from t through tasks of the list. */
  ghost predicate LongestCost(inEdges: Edges, tasks: seq<Task>, cost: map<Task, int>, t: Task, v: int) {
    && (forall p :: PathFrom(inEdges, tasks, t, p) ==> PathCost(cost, p) <= v)
    && exists p :: PathFrom(inEdges, tasks, t, p) && PathCost(cost, p) == v
  }

  /** The largest priority among the dependents, at least 0; a task without one counts as 0. */
  function MaxPriority(prio: map<Task, int>, dependents: seq<Task>): (r: int)
    ensures r >= 0 && forall d :: d in dependents && d in prio ==> prio[d] <= r
    ensures r == 0 || exists d :: d in dependents && d in prio && prio[d] == r
  {
    if dependents == [] then 0 else
    var n := |dependents| - 1;
    var r := MaxPriority(prio, dependents[..n]);
    assert dependents == dependents[..n] + [dependents[n]];
    if dependents[n] in prio && prio[dependents[n]] > r then prio[dependents[n]] else r
  }

  lemma {:induction false} PathTail(inEdges: Edges, p: seq<Task>)
    requires IsPath(inEdges, p) && |p| >= 2
    ensures IsPath(inEdges, p[1..]) && HasEdge(inEdges, p[0], p[1])
  {
    assert EdgeAt(inEdges, p, 0);
    forall i: nat | i < |p[1..]| - 1 ensures EdgeAt(inEdges, p[1..], i) { assert EdgeAt(inEdges, p, i + 1); }
  }

  lemma {:induction false} PathCons(inEdges: Edges, t: Task, p: seq<Task>)
    requires IsPath(inEdges, p) && HasEdge(inEdges, t, p[0])
    ensures IsPath(inEdges, [t] + p)
  {
    forall i: nat | i < |[t] + p| - 1 ensures EdgeAt(inEdges, [t] + p, i) {
      if i > 0 { assert EdgeAt(inEdges, p, i - 1); }
    }
  }

  /** The priority of a task, given those of all its dependents within the list. */
  lemma {:induction false} PriorityStep(inEdges: Edges, outEdges: Edges, tasks: seq<Task>, cost: map<Task, int>,
                                        prio: map<Task, int>, t: Task)
    requires Mirrored(inEdges, outEdges) && t in tasks && t in cost
    requires forall d :: d in tasks && HasEdge(inEdges, t, d) ==> d in prio
    requires forall d :: d in prio ==> d in tasks && LongestCost(inEdges, tasks, cost, d, prio[d])
    ensures LongestCost(inEdges, tasks, cost, t, cost[t] + MaxPriority(prio, Get(outEdges, t)))
  {
    var best := MaxPriority(prio, Get(outEdges, t));
    forall p | PathFrom(inEdges, tasks, t, p) ensures PathCost(cost, p) <= cost[t] + best {
      PathBound(inEdges, outEdges, tasks, cost, prio, t, p);
    }
    PathReached(inEdges, outEdges, tasks, cost, prio, t);
  }

  lemma {:induction false} PathBound(inEdges: Edges, outEdges: Edges, tasks: seq<Task>, cost: map<Task, int>,
                                     prio: map<Task, int>, t: Task, p: seq<Task>)
    requires Mirrored(inEdges, outEdges) && t in tasks && t in cost && PathFrom(inEdges, tasks, t, p)
    requires forall d :: d in tasks && HasEdge(inEdges, t, d) ==> d in prio
    requires forall d :: d in prio ==> d in tasks && LongestCost(inEdges, tasks, cost, d, prio[d])
    ensures PathCost(cost, p) <= cost[t] + MaxPriority(prio, Get(outEdges, t))
  {
    hide MaxPriority;
    if |p| >= 2 {
      PathTail(inEdges, p);
      assert p[1] in p;
      MirrorEdge(inEdges, outEdges, t, p[1]);
      assert PathFrom(inEdges, tasks, p[1], p[1..]);
    } else {
      assert p[1..] == [];
    }
  }

  lemma {:induction false} PathReached(inEdges: Edges, outEdges: Edges, tasks: seq<Task>, cost: map<Task, int>,
                                       prio: map<Task, int>, t: Task)
    requires Mirrored(inEdges, outEdges) && t in tasks && t in cost
    requires forall d :: d in prio ==> d in tasks && LongestCost(inEdges, tasks, cost, d, prio[d])
    ensures exists p ::
              PathFrom(inEdges, tasks, t, p) && PathCost(cost, p) == cost[t] + MaxPriority(prio, Get(outEdges, t))
  {
    hide MaxPriority;
    var outs := Get(outEdges, t);
    if MaxPriority(prio, outs) == 0 {
      OneTask(inEdges, tasks, cost, t);
    } else {
      var d :| d in outs && d in prio && prio[d] == MaxPriority(prio, outs);
      MirrorEdge(inEdges, outEdges, t, d);
      var p :| PathFrom(inEdges, tasks, d, p) && PathCost(cost, p) == prio[d];
      PathCons(inEdges, t, p);
      assert ([t] + p)[1..] == p;
      assert PathFrom(inEdges, tasks, t, [t] + p);
    }
  }

  lemma OneTask(inEdges: Edges, tasks: seq<Task>, cost: map<Task, int>, t: Task)
    requires t in tasks && t in cost
    ensures PathFrom(inEdges, tasks, t, [t]) && PathCost(cost, [t]) == cost[t]
  {
    assert PathCost(cost, [t][1..]) == 0;
  }

  lemma MirrorEdge(inEdges: Edges, outEdges: Edges, x: Task, y: Task)
    requires Mirrored(inEdges, outEdges)
    ensures HasEdge(inEdges, x, y) <==> y in Get(outEdges, x)
  {
    CountPositive(Get(inEdges, y), x);
    CountPositive(Get(outEdges, x), y);
  }

  method BestDependent(prio: map<Task, int>, dependents: seq<Task>) returns (maxLevel: int)
    ensures maxLevel == MaxPriority(prio, dependents)
  {
    maxLevel := 0;
    for i := 0 to |dependents|
      invariant maxLevel == MaxPriority(prio, dependents[..i])
    {
      assert dependents[..i + 1][..i] == dependents[..i];
      if dependents[i] in prio && prio[dependents[i]] > maxLevel {
        maxLevel := prio[dependents[i]];
      }
    }
    assert dependents[..|dependents|] == dependents;
  }

  /** The priorities, computed from the end of the list. */
  method Priorities(ordered: seq<Task>, inEdges: Edges, outEdges: Edges, cost: map<Task, int>)
    returns (prio: map<Task, int>)
    requires Mirrored(inEdges, outEdges) && Distinct(ordered) && Respects(inEdges, ordered)
    requires forall t :: t in ordered ==> t in cost
    ensures forall t :: t in prio <==> t in ordered
    ensures forall t :: t in ordered ==> LongestCost(inEdges, ordered, cost, t, prio[t])
  {
    prio := map[];
    var i := |ordered|;
    while i > 0
      invariant 0 <= i <= |ordered|
      invariant forall j :: i <= j < |ordered| ==> ordered[j] in prio
      invariant forall t :: t in prio ==> t in ordered && LongestCost(inEdges, ordered, cost, t, prio[t])
    {
      i := i - 1;
      forall d | d in ordered && HasEdge(inEdges, ordered[i], d) ensures d in prio {
        LaterInOrder(inEdges, ordered, i, d);
      }
      PriorityStep(inEdges, outEdges, ordered, cost, prio, ordered[i]);
      var maxLevel := BestDependent(prio, Get(outEdges, ordered[i]));
      prio := prio[ordered[i] := cost[ordered[i]] + maxLevel];
    }
  }

  lemma {:induction false} LaterInOrder(inEdges: Edges, order: seq<Task>, i: nat, d: Task)
    requires Distinct(order) && Respects(inEdges, order) && i < |order| && d in order && HasEdge(inEdges, order[i], d)
    ensures exists j :: i < j < |order| && order[j] == d
  {
    var j :| 0 <= j < |order| && order[j] == d;
    assert order[i] in order[..j];
  }

  // ---------------------------------------------------------------- the ready queue

  /** The needed sources: the loop stops at the first task with in-edges, which loses none because
      the sources form a prefix of the sorted list. */
  method Sources(ordered: seq<Task>, inEdges: Edges) returns (queue: seq<Task>)
    requires Distinct(ordered) && Respects(inEdges, ordered) && Climbing(Levels(inEdges, ordered), ordered)
    ensures Distinct(queue) && forall t :: t in queue <==> t in ordered && Get(inEdges, t) == []
  {
    queue := [];
    var i := 0;
    while i < |ordered| && Get(inEdges, ordered[i]) == []
      invariant 0 <= i <= |ordered| && queue == ordered[..i]
      invariant forall j :: 0 <= j < i ==> Get(inEdges, ordered[j]) == []
    {
      queue := queue + [ordered[i]];
      i := i + 1;
    }
    forall t | t in ordered && Get(inEdges, t) == [] ensures t in queue {
      var j :| 0 <= j < |ordered| && ordered[j] == t;
      if i <= j { SourcesFirst(inEdges, ordered, i, j); }
    }
  }

  /** Takes a task of highest priority from the queue; which one of several is left open. */
  method Pop(queue: seq<Task>, prio: map<Task, int>) returns (task: Task, rest: seq<Task>)
    requires queue != [] && Distinct(queue) && forall t :: t in Elements(queue) ==> t in prio
    ensures task in Elements(queue) && forall t :: t in Elements(queue) ==> prio[t] <= prio[task]
    ensures Distinct(rest) && Elements(rest) == Elements(queue) - {task}
  {
    assert forall i :: 0 <= i < |queue| ==> queue[i] in Elements(queue);
    var k := 0;
    for i := 1 to |queue|
      invariant 0 <= k < i && forall j :: 0 <= j < i ==> prio[queue[j]] <= prio[queue[k]]
    {
      if prio[queue[i]] > prio[queue[k]] { k := i; }
    }
    task, rest := queue[k], queue[..k] + queue[k + 1..];
    TakenOut(queue, k);
  }

  lemma TakenOut(queue: seq<Task>, k: nat)
    requires k < |queue| && Distinct(queue)
    ensures Distinct(queue[..k] + queue[k + 1..]) &&
            Elements(queue[..k] + queue[k + 1..]) == Elements(queue) - {queue[k]}
  {
    var rest := queue[..k] + queue[k + 1..];
    TakenAt(queue, k);
    forall x ensures x in rest <==> x in queue && x != queue[k] {
      if x in queue && x != queue[k] {
        var i :| 0 <= i < |queue| && queue[i] == x;
        assert rest[if i < k then i else i - 1] == x;
      }
      if x in rest {
        var i :| 0 <= i < |rest| && rest[i] == x;
        assert queue[if i < k then i else i + 1] == x;
      }
    }
  }

  lemma TakenAt(queue: seq<Task>, k: nat)
    requires k < |queue|
    ensures var rest := queue[..k] + queue[k + 1..];
            |rest| == |queue| - 1 && forall i :: 0 <= i < |rest| ==> rest[i] == queue[if i < k then i else i + 1]
  {
  }

  /** Pushes those of the tasks that are in the list. */
  method PushKnown(queue: seq<Task>, newly: seq<Task>, ordered: seq<Task>) returns (r: seq<Task>)
    requires Distinct(queue) && Distinct(newly) && Elements(newly) !! Elements(queue)
    ensures Distinct(r) && Elements(r) == Elements(queue) + Elements(newly) * Elements(ordered)
  {
    r := queue;
    for i := 0 to |newly|
      invariant Distinct(r) && Elements(r) == Elements(queue) + Elements(newly[..i]) * Elements(ordered)
    {
      assert newly[..i + 1] == newly[..i] + [newly[i]];
      assert newly[i] in Elements(newly) && newly[i] !in newly[..i];
      if newly[i] in ordered {
        DistinctAppend(r, [newly[i]]);
        ElementsAppend(r, newly[i]);
        r := r + [newly[i]];
      }
    }
    assert newly[..|newly|] == newly;
  }

  /** The tasks placed so far and those waiting: a task of the list waits or is placed exactly when
      all tasks that it depends on have been placed. */
  ghost predicate ListOk(inEdges: Edges, rest: Edges, ordered: seq<Task>, placed: seq<Task>, waiting: set<Task>) {
    && Distinct(placed) && Respects(inEdges, placed)
    && Elements(placed) !! waiting && Elements(placed) + waiting <= Elements(ordered)
    && (forall u, v :: Count(Get(rest, v), u) == if u in placed then 0 else Count(Get(inEdges, v), u))
    && forall v :: v in ordered ==> (v in placed || v in waiting <==> Get(rest, v) == [])
  }

  /** The tasks of the list that could be placed next. */
  ghost predicate Ready(inEdges: Edges, ordered: seq<Task>, placed: seq<Task>, v: Task) {
    v in ordered && v !in placed && forall x :: x in Get(inEdges, v) ==> x in placed
  }

  lemma CountsMean(inEdges: Edges, rest: Edges, ordered: seq<Task>, placed: seq<Task>, waiting: set<Task>, u: Task,
                   v: Task)
    requires ListOk(inEdges, rest, ordered, placed, waiting)
    ensures Count(Get(rest, v), u) == if u in placed then 0 else Count(Get(inEdges, v), u)
  {
    hide Respects, Distinct;
  }

  lemma {:induction false} WaitingIsReady(inEdges: Edges, rest: Edges, ordered: seq<Task>, placed: seq<Task>,
                                          waiting: set<Task>, v: Task)
    requires ListOk(inEdges, rest, ordered, placed, waiting) && v !in placed
    ensures v in waiting <==> Ready(inEdges, ordered, placed, v)
  {
    if v in ordered {
      if Get(rest, v) == [] {
        forall x | x in Get(inEdges, v) ensures x in placed {
          CountPositive(Get(inEdges, v), x);
          CountPositive(Get(rest, v), x);
        }
      } else {
        var u := Get(rest, v)[0];
        assert u in Get(rest, v);
        CountPositive(Get(rest, v), u);
        CountPositive(Get(inEdges, v), u);
        CountsMean(inEdges, rest, ordered, placed, waiting, u, v);
      }
    }
  }

  lemma {:induction false} ListStep(inEdges: Edges, rest: Edges, rest': Edges, ordered: seq<Task>, placed: seq<Task>,
                                    waiting: set<Task>, t: Task, newly: seq<Task>)
    requires ListOk(inEdges, rest, ordered, placed, waiting) && t in waiting
    requires Removed(rest, rest', t, []) && Emptied(rest, rest', newly)
    ensures ListOk(inEdges, rest', ordered, placed + [t], waiting - {t} + Elements(newly) * Elements(ordered))
    ensures Elements(newly) !! waiting && t !in newly
  {
    var placed', waiting' := placed + [t], waiting - {t} + Elements(newly) * Elements(ordered);
    WaitingIsReady(inEdges, rest, ordered, placed, waiting, t);
    assert Respects(inEdges, placed') by { RespectsAppend(inEdges, placed, t); }
    DistinctAppend(placed, [t]);
    ElementsAppend(placed, t);
    assert forall v :: v in Elements(placed) + waiting ==> v in ordered && Get(rest, v) == [];
    forall v | v in ordered ensures v in placed' || v in waiting' <==> Get(rest', v) == [] {
      if Get(rest, v) == [] { StaysEmpty(rest, rest', t, v); }
    }
  }

  lemma {:induction false} ListFacts(inEdges: Edges, outEdges: Edges, rest: Edges, ordered: seq<Task>,
                                     placed: seq<Task>, waiting: set<Task>)
    requires ListOk(inEdges, rest, ordered, placed, waiting) && Mirrored(inEdges, outEdges)
    ensures |placed| <= |ordered| && forall t :: t in placed ==> t in ordered
    ensures forall t :: t in waiting ==> t in ordered && t !in placed
    ensures forall t, v :: t in waiting ==> Count(Get(rest, v), t) == Count(Get(outEdges, t), v)
  {
    forall t | t in placed ensures t in ordered { assert t in Elements(placed); }
    forall t | t in waiting ensures t in ordered && t !in placed { assert t in Elements(ordered); }
    DistinctBound(placed, ordered);
  }

  lemma StaysEmpty(rest: Edges, rest': Edges, t: Task, v: Task)
    requires Removed(rest, rest', t, []) && Get(rest, v) == []
    ensures Get(rest', v) == []
  {
    if Get(rest', v) != [] {
      CountPositive(Get(rest', v), Get(rest', v)[0]);
      assert Count(Get(rest, v), Get(rest', v)[0]) == 0;
    }
  }

  lemma {:induction false} ListStart(inEdges: Edges, ordered: seq<Task>, queue: seq<Task>)
    requires forall t :: t in queue <==> t in ordered && Get(inEdges, t) == []
    ensures ListOk(inEdges, inEdges, ordered, [], Elements(queue))
  {
  }

  /** When nothing waits, everything has been placed. */
  lemma {:induction false} ListEnds(inEdges: Edges, rest: Edges, ordered: seq<Task>, placed: seq<Task>, j: nat)
    requires ListOk(inEdges, rest, ordered, placed, {}) && Respects(inEdges, ordered) && j <= |ordered|
    ensures forall i :: 0 <= i < j ==> ordered[i] in placed
  {
    if j > 0 {
      ListEnds(inEdges, rest, ordered, placed, j - 1);
      var v := ordered[j - 1];
      forall x | x in Get(inEdges, v) ensures x in placed {
        assert HasEdge(inEdges, x, v);
      }
      if v !in placed { WaitingIsReady(inEdges, rest, ordered, placed, {}, v); }
    }
  }

  /** Every task had the highest priority among those that were ready. */
  ghost predicate HighestFirst(inEdges: Edges, ordered: seq<Task>, prio: map<Task, int>, placed: seq<Task>) {
    forall k :: 0 <= k < |placed| ==> Highest(inEdges, ordered, prio, placed[..k], placed[k])
  }

  ghost predicate Highest(inEdges: Edges, ordered: seq<Task>, prio: map<Task, int>, before: seq<Task>, t: Task) {
    t in prio && forall v :: Ready(inEdges, ordered, before, v) ==> v in prio && prio[v] <= prio[t]
  }

  lemma {:induction false} HighestStep(inEdges: Edges, rest: Edges, ordered: seq<Task>, prio: map<Task, int>,
                                       placed: seq<Task>, waiting: set<Task>, t: Task)
    requires ListOk(inEdges, rest, ordered, placed, waiting) && HighestFirst(inEdges, ordered, prio, placed)
    requires t in waiting && t in prio && (forall v :: v in waiting ==> v in prio && prio[v] <= prio[t])
    ensures HighestFirst(inEdges, ordered, prio, placed + [t])
  {
    var placed' := placed + [t];
    forall v | Ready(inEdges, ordered, placed, v) ensures v in waiting {
      WaitingIsReady(inEdges, rest, ordered, placed, waiting, v);
    }
    forall k | 0 <= k < |placed'| ensures Highest(inEdges, ordered, prio, placed'[..k], placed'[k]) {
      assert placed'[..k] == placed[..k] && placed[..|placed|] == placed;
    }
  }

  // ---------------------------------------------------------------- the schedule

  lemma {:induction false} LoadCosts(p: seq<int>, c: int, g: seq<nat>, n: nat, u: nat)
    requires n <= |p| && n <= |g|
    ensures Load(p + [c], g, n, u) == Load(p, g, n, u)
  {
    if n > 0 { LoadCosts(p, c, g, n - 1, u); }
  }

  /** A further job that was not known before. */
  lemma {:induction false} GreedyNewJob(p: seq<int>, c: int, g: seq<nat>, totals: seq<int>)
    requires GreedyUpTo(p, g, totals) && |g| == |p|
    ensures GreedyUpTo(p + [c], g, totals)
  {
    forall i | 0 <= i < |g| ensures LeastLoaded(p + [c], g, |totals|, i) {
      assert LeastLoaded(p, g, |totals|, i);
      forall u | 0 <= u < |totals| ensures Load(p + [c], g, i, g[i]) <= Load(p + [c], g, i, u) {
        LoadCosts(p, c, g, i, u);
        LoadCosts(p, c, g, i, g[i]);
      }
    }
    forall u | 0 <= u < |totals| ensures totals[u] == Load(p + [c], g, |g|, u) { LoadCosts(p, c, g, |g|, u); }
  }

  /** The threads of the tasks placed so far. */
  ghost predicate OnThreads(s: ThreadScheduler, g: seq<nat>, m: nat)
    reads s
  {
    s.Valid() && |s.tempSchedules| == m && |g| == |s.order| && forall i :: 0 <= i < |g| ==> s.at[i].thread == g[i]
  }

  method PlaceTask(s: ThreadScheduler, ghost g: seq<nat>, thread: nat, task: Task)
    requires OnThreads(s, g, |s.tempSchedules|) && thread < |s.tempSchedules|
    modifies s
    ensures OnThreads(s, g + [thread], old(|s.tempSchedules|)) && s.order == old(s.order) + [task]
  {
    s.ScheduleTask(thread, task);
  }

  ghost predicate AllCosts(cost: map<Task, int>, tasks: seq<Task>) {
    forall t :: t in tasks ==> t in cost
  }

  lemma GreedyPlaced(cost: map<Task, int>, placed: seq<Task>, t: Task, g: seq<nat>, totals: seq<int>, k: nat)
    requires AllCosts(cost, placed + [t]) && AllCosts(cost, placed) && t in cost
    requires GreedyUpTo(Costs(cost, placed), g, totals) && |g| == |placed| && k < |totals|
    requires forall u :: 0 <= u < |totals| ==> totals[k] <= totals[u]
    ensures GreedyUpTo(Costs(cost, placed + [t]), g + [k], totals[k := totals[k] + cost[t]])
  {
    assert Costs(cost, placed + [t]) == Costs(cost, placed) + [cost[t]];
    GreedyNewJob(Costs(cost, placed), cost[t], g, totals);
    GreedyOneMore(Costs(cost, placed) + [cost[t]], g, totals, k);
  }

  /** The main loop of createSchedule. */
  method PlaceAll(s: ThreadScheduler, ordered: seq<Task>, inEdges: Edges, outEdges: Edges, cost: map<Task, int>,
                  prio: map<Task, int>)
    returns (ghost g: seq<nat>)
    requires s.Valid() && s.order == [] && Mirrored(inEdges, outEdges) && AllCosts(cost, ordered)
    requires Distinct(ordered) && Respects(inEdges, ordered) && Climbing(Levels(inEdges, ordered), ordered)
    requires forall t :: t in ordered ==> t in prio
    modifies s
    ensures OnThreads(s, g, old(|s.tempSchedules|))
    ensures Distinct(s.order) && Respects(inEdges, s.order) && forall t :: t in s.order <==> t in ordered
    ensures HighestFirst(inEdges, ordered, prio, s.order)
    ensures Greedy(Costs(cost, s.order), g, old(|s.tempSchedules|))
  {
    var m := |s.tempSchedules|;
    var queue := Sources(ordered, inEdges);
    ListStart(inEdges, ordered, queue);
    var totals, rest := seq(m, u => 0), inEdges;
    g := [];
    assert GreedyUpTo(Costs(cost, []), g, totals);
    assert Elements([]) == {};
    hide Removed, Emptied, GreedyUpTo, LeastLoaded, HighestFirst, ListOk, Levels, Climbing, Mirrored, Distinct,
         Elements, Respects;
    while queue != []
      invariant OnThreads(s, g, m) && |totals| == m
      invariant Distinct(queue) && ListOk(inEdges, rest, ordered, s.order, Elements(queue))
      invariant HighestFirst(inEdges, ordered, prio, s.order)
      invariant AllCosts(cost, s.order) && GreedyUpTo(Costs(cost, s.order), g, totals)
      decreases |ordered| - |s.order|
    {
      ListFacts(inEdges, outEdges, rest, ordered, s.order, Elements(queue));
      var task, queue' := Pop(queue, prio);
      var k := MinElement(totals);
      ghost var placed := s.order;
      PlaceTask(s, g, k, task);
      GreedyPlaced(cost, placed, task, g, totals, k);
      totals, g := totals[k := totals[k] + cost[task]], g + [k];
      var rest', newly := Release(task, Get(outEdges, task), rest);
      ListStep(inEdges, rest, rest', ordered, placed, Elements(queue), task, newly);
      HighestStep(inEdges, rest, ordered, prio, placed, Elements(queue), task);
      queue := PushKnown(queue', newly, ordered);
      rest := rest';
      ListFacts(inEdges, outEdges, rest, ordered, s.order, Elements(queue));
    }
    ListFacts(inEdges, outEdges, rest, ordered, s.order, {});
    ListEnds(inEdges, rest, ordered, s.order, |ordered|);
  }

  /** The measured costs, or cost 1 for every task. */
  function CostsOf(options: Options, ordered: seq<Task>): map<Task, int> {
    if options.measured then options.cost else map t | t in ordered :: 1
  }

  /** List scheduling of the needed tasks: each task that is placed has the costliest path among
      those that are ready, and goes to a thread with the smallest total so far. */
  ghost predicate ListScheduled(s: ThreadScheduler, inEdges: Edges, ordered: seq<Task>, cost: map<Task, int>,
                                prio: map<Task, int>, g: seq<nat>)
    reads s
  {
    && (forall t :: t in ordered ==> t in prio && LongestCost(inEdges, ordered, cost, t, prio[t]))
    && HighestFirst(inEdges, ordered, prio, s.order)
    && AllCosts(cost, s.order) && Greedy(Costs(cost, s.order), g, |s.tempSchedules|) &&
       OnThreads(s, g, |s.tempSchedules|)
  }

  method CreateSchedule(s: ThreadScheduler, tasks: seq<Task>, inEdges: Edges, outEdges: Edges, root: Task,
                        options: Options)
    returns (r: Result<ThreadProtocol.Schedule>, ghost ordered: seq<Task>, ghost prio: map<Task, int>,
             ghost g: seq<nat>)
    requires s.Valid() && s.order == [] && IsGraph(tasks, inEdges, outEdges, root)
    modifies s
    ensures r.Ok? <==> !HasCycle(inEdges) && !CostsMissing(inEdges, root, options)
    ensures r.Ok? ==> ScheduleOk(s, inEdges, root, r.value)
    ensures r.Ok? ==>
              IsSort(inEdges, root, ordered) && ListScheduled(s, inEdges, ordered, CostsOf(options, ordered), prio, g)
  {
    hide HasCycle, Describes, ThreadProtocol.WellFormed, Levels, Climbing, Respects, Distinct, Mirrored, Within,
         LongestCost, HighestFirst, Greedy;
    ordered, prio, g := [], map[], [];
    var sort := TopologicalSort(tasks, inEdges, outEdges, root);
    if sort.SchedulingException? {
      return SchedulingException, ordered, prio, g;
    }
    var sorted := sort.value;
    var cost := CostsOf(options, sorted);
    var ok := Complete(sorted, cost);
    if !ok {
      return SchedulingException, ordered, prio, g;
    }
    var priorities := Priorities(sorted, inEdges, outEdges, cost);
    g := PlaceAll(s, sorted, inEdges, outEdges, cost, priorities);
    var sch := s.FinishSchedule(inEdges);
    ordered, prio := sorted, priorities;
    return Ok(sch), ordered, prio, g;
  }
}
