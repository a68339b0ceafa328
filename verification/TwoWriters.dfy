module TwoWriters {

  // Two tasks that modify one attribute, and nothing else in common: resolveDeps joins them by no
  // path, and the threads may leave either value.

  import opened TaskGraph
  import opened Scheduler
  import opened DependencyGraph
  import opened TaskEffects
  import opened TaskConflicts
  import opened ThreadProtocol
  import ThreadPlacement

  const EXTERNAL: Attr := 1

  /** Tasks 0 and 1 modify attribute 0 and the external attribute, which the root, task 2, reads. */
  function Example(): Accesses {
    Accesses(map[2 := [EXTERNAL]], map[], map[0 := [0, EXTERNAL], 1 := [0, EXTERNAL]])
  }

  /** All edges lead to the root. */
  lemma {:induction false} ExampleEdges(inEdges: Edges)
    requires IsResolved(inEdges, Example(), map[], EXTERNAL, [0, 1, 2], 2)
    ensures forall x, y :: HasEdge(inEdges, x, y) <==> x in {0, 1} && y == 2
  {
    forall x, y ensures HasEdge(inEdges, x, y) <==> x in {0, 1} && y == 2 {
      if HasEdge(inEdges, x, y) {
        var a :| a in Get(Example().modified, x) && Triggers(Example(), map[], EXTERNAL, [0, 1, 2], 2, a, y);
      }
      if x in {0, 1} && y == 2 {
        assert EXTERNAL in Get(Example().modified, x);
        assert Reaches(map[], EXTERNAL, EXTERNAL, [EXTERNAL][0]) && Reads(map[], EXTERNAL, [EXTERNAL], EXTERNAL);
        assert Triggers(Example(), map[], EXTERNAL, [0, 1, 2], 2, EXTERNAL, 2);
      }
    }
  }

  lemma {:induction false} ExampleSources(inEdges: Edges)
    requires forall x, y :: HasEdge(inEdges, x, y) <==> x in {0, 1} && y == 2
    ensures Get(inEdges, 0) == [] && Get(inEdges, 1) == [] && !Leads(inEdges, 0, 1) && !Leads(inEdges, 1, 0)
  {
    if Get(inEdges, 0) != [] { assert HasEdge(inEdges, Get(inEdges, 0)[0], 0); }
    if Get(inEdges, 1) != [] { assert HasEdge(inEdges, Get(inEdges, 1)[0], 1); }
    forall p | IsPath(inEdges, p) && |p| >= 2 ensures p[|p| - 1] == 2 { assert EdgeAt(inEdges, p, |p| - 2); }
  }

  lemma {:induction false} PairLevels(inEdges: Edges, u: Task, v: Task)
    requires u != v && Get(inEdges, u) == [] && Get(inEdges, v) == []
    ensures Levels(inEdges, [u, v]) == map[u := 0, v := 0]
  {
    LevelsAppend(inEdges, [], u);
    LevelsAppend(inEdges, [u], v);
    assert [] + [u] == [u] && [u] + [v] == [u, v];
  }

  /** The sort puts both tasks on the list, in either order. */
  lemma {:induction false} ExampleSorts(inEdges: Edges, u: Task, v: Task)
    requires IsResolved(inEdges, Example(), map[], EXTERNAL, [0, 1, 2], 2) && {u, v} == {0, 1}
    ensures IsSort(inEdges, 2, [u, v]) && !Leads(inEdges, u, v)
  {
    assert u in {0, 1} && v in {0, 1} && u != v by { assert 0 in {u, v} && 1 in {u, v} && u in {u, v} && v in {u, v}; }
    ExampleEdges(inEdges);
    ExampleSources(inEdges);
    PairLevels(inEdges, u, v);
    hide Leads, Needed, Levels, IsResolved;
    forall t ensures Needed(inEdges, 2, t) && t != 2 <==> t in [u, v] { ExamplePaths(inEdges, t); }
  }

  lemma {:induction false} ExamplePaths(inEdges: Edges, t: Task)
    requires forall x, y :: HasEdge(inEdges, x, y) <==> x in {0, 1} && y == 2
    ensures Needed(inEdges, 2, t) <==> t in {0, 1, 2}
  {
    if Needed(inEdges, 2, t) && t != 2 {
      var p :| IsPath(inEdges, p) && p[0] == t && p[|p| - 1] == 2;
      assert EdgeAt(inEdges, p, 0);
    }
    if t == 2 { assert IsPath(inEdges, [2]) && [2][0] == 2; }
    if t in {0, 1} { EdgeLeads(inEdges, t, 2); }
  }

  // ---------------------------------------------------------------- two runs

  /** Each task on a thread of its own, as the list scheduler places them. */
  function Plan(): ThreadPlacement.Plan { [[0], [1]] }

  function Entries(): Schedule { [[Entry(0, [])], [Entry(1, [])]] }

  /** A state of the first call of step, with argument 0. */
  function During(pc0: Pc, pc1: Pc, c0: int, c1: int, count: int, generation: int, log: seq<Event>): State {
    State([pc0, pc1], [[c0], [c1]], count, generation, 0.0, 0, false, [0.0], log, [])
  }

  function Ran0(): Event { Event(Slot(0, 0), 0.0, 0) }

  function Ran1(): Event { Event(Slot(1, 0), 0.0, 0) }

  ghost predicate Reached(s: State) {
    ValidReqs(Entries()) && Reachable(Entries(), s) && Inv(Entries(), s)
  }

  /** A move of thread t, whose result is known. */
  lemma Go(s: State, t: nat, r: State)
    requires Reached(s) && Shaped(Entries(), s) && CanMove(Entries(), s, t) && r == Move(Entries(), s, t)
    ensures Reached(r)
  {
    ReachableMove(Entries(), s, t);
  }

  function Start(): State { State([Idle, Load], [[0], [0]], 0, 0, 0.0, 0, false, [], [], []) }

  lemma StartIsInit()
    ensures Start() == Init(Entries())
  {
    var init := Init(Entries());
    assert init.counters[0] == [0] && init.counters[1] == [0];
    assert init.pcs == [Idle, Load] && init.counters == [[0], [0]];
  }

  lemma InitReached(sch: Schedule)
    requires ValidReqs(sch)
    ensures Reachable(sch, Init(sch)) && Inv(sch, Init(sch))
  {
    InitInv(sch);
    assert IsRun(sch, [Init(sch)]) && Reachable(sch, [Init(sch)][0]);
  }

  lemma CallFirst()
    ensures Reached(During(Load, Load, 0, 0, 0, 0, []))
  {
    InitReached(Entries());
    StartIsInit();
    hide Reachable, Inv, Init;
    assert CallStep(Start(), 0.0) == During(Load, Load, 0, 0, 0, 0, []);
    ReachableNext(Entries(), Start(), CallStep(Start(), 0.0));
  }

  /** Thread 0 arrives at the barrier first. */
  lemma Arrive()
    ensures Reached(During(Spin(0), Clear(0), 0, 0, 2, 0, []))
  {
    CallFirst();
    hide Reached;
    Go(During(Load, Load, 0, 0, 0, 0, []), 0, During(Add(0), Load, 0, 0, 0, 0, []));
    Go(During(Add(0), Load, 0, 0, 0, 0, []), 0, During(Spin(0), Load, 0, 0, 1, 0, []));
    Go(During(Spin(0), Load, 0, 0, 1, 0, []), 1, During(Spin(0), Add(0), 0, 0, 1, 0, []));
    Go(During(Spin(0), Add(0), 0, 0, 1, 0, []), 1, During(Spin(0), Clear(0), 0, 0, 2, 0, []));
  }

  lemma Pass()
    ensures Reached(During(Fetch(0, 0), Check, 0, 0, 0, 1, []))
  {
    Arrive();
    hide Reached;
    Go(During(Spin(0), Clear(0), 0, 0, 2, 0, []), 1, During(Spin(0), Bump(0), 0, 0, 0, 0, []));
    Go(During(Spin(0), Bump(0), 0, 0, 0, 0, []), 1, During(Spin(0), Check, 0, 0, 0, 1, []));
    Go(During(Spin(0), Check, 0, 0, 0, 1, []), 0, During(Fetch(0, 0), Check, 0, 0, 0, 1, []));
  }

  /** Both threads have passed the barrier and are about to run their task. */
  lemma BothReady()
    ensures Reached(During(Execute(0), Execute(0), 0, 0, 0, 1, []))
  {
    Pass();
    hide Reached;
    Go(During(Fetch(0, 0), Check, 0, 0, 0, 1, []), 1, During(Fetch(0, 0), Fetch(0, 0), 0, 0, 0, 1, []));
    Go(During(Fetch(0, 0), Fetch(0, 0), 0, 0, 0, 1, []), 0, During(Execute(0), Fetch(0, 0), 0, 0, 0, 1, []));
    Go(During(Execute(0), Fetch(0, 0), 0, 0, 0, 1, []), 1, During(Execute(0), Execute(0), 0, 0, 0, 1, []));
  }

  lemma CountersUp(a: int, b: int)
    ensures [[a], [b]][0 := [a][0 := a + 1]] == [[a + 1], [b]] && [[a], [b]][1 := [b][0 := b + 1]] == [[a], [b + 1]]
  {
    assert [a][0 := a + 1] == [a + 1] && [b][0 := b + 1] == [b + 1];
  }

  /** Thread 0 runs its task. */
  lemma RunZero(pc: Pc, b: int, log: seq<Event>)
    requires pc in {Execute(0), Load} && Reached(During(Execute(0), pc, 0, b, 0, 1, log))
    ensures Reached(During(Last(1), pc, 1, b, 0, 1, log + [Ran0()]))
  {
    hide Reached;
    CountersUp(0, b);
    var s, r := During(Execute(0), pc, 0, b, 0, 1, log), During(Finish(0), pc, 0, b, 0, 1, log + [Ran0()]);
    Go(s, 0, r);
    Go(r, 0, During(Last(1), pc, 1, b, 0, 1, log + [Ran0()]));
  }

  /** Thread 1 runs its task. */
  lemma RunOne(pc: Pc, a: int, log: seq<Event>)
    requires pc in {Execute(0), Last(1)} && Reached(During(pc, Execute(0), a, 0, 0, 1, log))
    ensures Reached(During(pc, Load, a, 1, 0, 1, log + [Ran1()]))
  {
    hide Reached;
    CountersUp(a, 0);
    var s, r := During(pc, Execute(0), a, 0, 0, 1, log), During(pc, Finish(0), a, 0, 0, 1, log + [Ran1()]);
    Go(s, 1, r);
    Go(r, 1, During(pc, Load, a, 1, 0, 1, log + [Ran1()]));
  }

  /** Either thread may be first. */
  lemma EitherFirst()
    ensures Reached(During(Last(1), Load, 1, 1, 0, 1, [Ran0(), Ran1()]))
    ensures Reached(During(Last(1), Load, 1, 1, 0, 1, [Ran1(), Ran0()]))
  {
    BothReady();
    hide Reached, During;
    RunZero(Execute(0), 0, []);
    RunOne(Last(1), 1, [] + [Ran0()]);
    assert [] + [Ran0()] + [Ran1()] == [Ran0(), Ran1()];
    RunOne(Execute(0), 0, []);
    RunZero(Load, 1, [] + [Ran1()]);
    assert [] + [Ran1()] + [Ran0()] == [Ran1(), Ran0()];
  }

  /** step returns. */
  lemma Return(log: seq<Event>) returns (r: State)
    requires Reached(During(Last(1), Load, 1, 1, 0, 1, log))
    ensures Reached(r) && r.past == [log] && r.times == [0.0]
  {
    hide Reached;
    Go(During(Last(1), Load, 1, 1, 0, 1, log), 0, During(AwaitLast(1, 1), Load, 1, 1, 0, 1, log));
    Go(During(AwaitLast(1, 1), Load, 1, 1, 0, 1, log), 0, During(Last(2), Load, 1, 1, 0, 1, log));
    r := State([Idle, Load], [[1], [1]], 0, 1, 0.0, 0, false, [0.0], [], [log]);
    Go(During(Last(2), Load, 1, 1, 0, 1, log), 0, r);
  }

  // ---------------------------------------------------------------- two results

  /** Each of the two tasks writes its number to attribute 0. */
  function Mark(x: Task, st: Store): Store {
    if st == [] || x > 1 then st else st[0 := x]
  }

  function Marking(): Body {
    (x: Task, time: real, k: int, st: Store) => Mark(x, st)
  }

  /** What the tasks declare: they modify attribute 0, and may read what they modify. */
  function Declared(): Footprint {
    Footprint(map[0 := {0}, 1 := {0}], map[0 := {0}, 1 := {0}])
  }

  lemma DeclaredIs()
    ensures Declares(Declared(), Example(), map[], EXTERNAL, [0, 1])
  {
    forall x, a | x in [0, 1]
      ensures a in Of(Declared().read, x) <==> a != EXTERNAL && MayRead(Example(), map[], EXTERNAL, x, a)
    {
      assert Get(Example().read, x) == [] && !Reads(map[], EXTERNAL, [], a);
    }
  }

  lemma DeclaredHonoured()
    ensures MayKeep(Declared()) && Honours(Marking(), Declared())
  {
    hide Mark;
    forall x, time, k, st ensures Marking()(x, time, k, st) == Mark(x, st) {}
    MarkHonours(Marking(), Declared());
  }

  lemma MarkHonours(body: Body, fp: Footprint)
    requires fp == Declared() && forall x, t, n, st :: body(x, t, n, st) == Mark(x, st)
    ensures Honours(body, fp)
  {
    forall x ensures Of(fp.write, x) == if x in {0, 1} then {0} else {} {}
  }

  lemma TwoEffects(body: Body, x: Task, y: Task, time: real, k: int, st: Store)
    ensures Effect(body, [x, y], time, k, st) == body(y, time, k, body(x, time, k, st))
  {
    EffectFirst(body, x, [y], time, k, st);
    EffectFirst(body, y, [], time, k, body(x, time, k, st));
    assert [x] + [y] == [x, y] && [y] + [] == [y];
  }

  /** The entries are those that finishSchedule makes of the plan. */
  lemma EntriesDescribePlan(inEdges: Edges)
    requires Get(inEdges, 0) == [] && Get(inEdges, 1) == []
    ensures ThreadPlacement.Describes(Entries(), Plan(), inEdges)
  {
  }

  lemma PlanIsPlaced()
    ensures ThreadPlacement.Placed(Plan(), [0, 1], [Slot(0, 0), Slot(1, 0)])
  {
  }

  /** A reachable state after one call of step, which has left this value in the attribute. */
  ghost predicate Results(r: State, value: int) {
    && Reachable(Entries(), r) && |r.past| == |r.times| == 1
    && (forall k, e :: 0 <= k < |r.past| && 0 <= e < |r.past[k]| ==> IsSlot(Entries(), r.past[k][e].slot))
    && ThreadPlacement.Parallel(Marking(), Entries(), r.past, r.times, 1, [7]) == [value]
  }

  lemma ResultIs(r: State, x: Task, y: Task, log: seq<Event>)
    requires Reached(r) && r.past == [log] && r.times == [0.0] && |log| == 2
    requires x <= 1 && y <= 1 && log[0].slot == Slot(x, 0) && log[1].slot == Slot(y, 0)
    ensures Results(r, y)
  {
    hide Reachable, Inv, Marking;
    assert ThreadPlacement.TaskLog(Entries(), log) == [x, y];
    TwoEffects(Marking(), x, y, 0.0, 0, [7]);
    assert ThreadPlacement.Parallel(Marking(), Entries(), r.past, r.times, 0, [7]) == [7];
    MarkedTwice(x, y);
  }

  lemma MarkedTwice(x: Task, y: Task)
    requires x <= 1 && y <= 1
    ensures Marking()(y, 0.0, 0, Marking()(x, 0.0, 0, [7])) == [y]
  {
  }

  /** Both results are reachable. */
  lemma BothResults() returns (r0: State, r1: State)
    ensures Results(r0, 1) && Results(r1, 0)
  {
    hide Results, Reached;
    EitherFirst();
    r0 := Return([Ran0(), Ran1()]);
    r1 := Return([Ran1(), Ran0()]);
    ResultIs(r0, 0, 1, [Ran0(), Ran1()]);
    ResultIs(r1, 1, 0, [Ran1(), Ran0()]);
  }

  lemma {:induction false} ExampleIsOpen(inEdges: Edges)
    requires IsResolved(inEdges, Example(), map[], EXTERNAL, [0, 1, 2], 2)
    ensures !OpenJoined(inEdges, Example(), EXTERNAL, [0, 1])
  {
    ExampleEdges(inEdges);
    ExampleSources(inEdges);
    assert 0 in Get(Example().modified, 0) && LeftOpen(Example(), EXTERNAL, 0, 1);
    assert 0 in [0, 1] && 1 in [0, 1];
  }

  /** The counterexample. On the graph that resolveDeps builds, with the entries of a schedule for it,
      and with tasks that do what they declare, step may return with either value in the attribute. */
  lemma {:induction false} TwoResults(inEdges: Edges) returns (r0: State, r1: State)
    requires IsResolved(inEdges, Example(), map[], EXTERNAL, [0, 1, 2], 2)
    ensures IsSort(inEdges, 2, [0, 1]) && !OpenJoined(inEdges, Example(), EXTERNAL, [0, 1])
    ensures Declares(Declared(), Example(), map[], EXTERNAL, [0, 1]) && Honours(Marking(), Declared())
    ensures ThreadPlacement.Describes(Entries(), Plan(), inEdges) &&
            ThreadPlacement.Placed(Plan(), [0, 1], [Slot(0, 0), Slot(1, 0)])
    ensures Results(r0, 1) && Results(r1, 0)
  {
    ExampleSorts(inEdges, 0, 1);
    ExampleIsOpen(inEdges);
    ExampleEdges(inEdges);
    ExampleSources(inEdges);
    hide IsSort, Declares, Honours, Results, Leads, IsResolved, OpenJoined, Example;
    EntriesDescribePlan(inEdges);
    PlanIsPlaced();
    DeclaredIs();
    DeclaredHonoured();
    r0, r1 := BothResults();
  }

  /** That graph is what resolveDeps returns, and the sort accepts it. */
  method ResolveExample() returns (inEdges: Edges, r: Result<seq<Task>>)
    ensures IsResolved(inEdges, Example(), map[], EXTERNAL, [0, 1, 2], 2)
    ensures r.Ok? && IsSort(inEdges, 2, r.value)
  {
    var all, ins, outs := ResolveDeps([0, 1], 2, Example(), map[], map[], EXTERNAL);
    assert all == [0, 1, 2];
    inEdges := ins;
    ExampleEdges(inEdges);
    forall p | IsPath(inEdges, p) && |p| >= 2 ensures p[0] != p[|p| - 1] {
      assert EdgeAt(inEdges, p, 0) && EdgeAt(inEdges, p, |p| - 2);
    }
    r := TopologicalSort(all, ins, outs, 2);
  }
}
