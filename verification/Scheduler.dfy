module Scheduler {

  // Scheduler::topologicalSort: the tasks that the root depends on, in an order that respects the edges.

  import opened TaskGraph

  /** A normal return, or the SchedulingException. */
  datatype Result<T> = Ok(value: T) | SchedulingException

  // ---------------------------------------------------------------- the tasks that are needed

  ghost predicate Needed(inEdges: Edges, root: Task, t: Task) {
    Leads(inEdges, t, root)
  }

  lemma {:induction false} NeededBack(inEdges: Edges, root: Task, x: Task, y: Task)
    requires Needed(inEdges, root, y) && HasEdge(inEdges, x, y)
    ensures Needed(inEdges, root, x)
  {
    var p :| IsPath(inEdges, p) && p[0] == y && p[|p| - 1] == root;
    var q := [x] + p;
    forall i: nat | i < |q| - 1 ensures EdgeAt(inEdges, q, i) {
      if i > 0 { assert EdgeAt(inEdges, p, i - 1); }
    }
    assert IsPath(inEdges, q) && q[0] == x && q[|q| - 1] == root;
  }

  lemma {:induction false} ClosedHoldsPath(inEdges: Edges, s: set<Task>, p: seq<Task>)
    requires IsPath(inEdges, p) && p[|p| - 1] in s
    requires forall x, y :: y in s && HasEdge(inEdges, x, y) ==> x in s
    ensures p[0] in s
    decreases |p|
  {
    if |p| > 1 {
      var n := |p| - 1;
      assert EdgeAt(inEdges, p, n - 1);
      forall k: nat | k < n - 1 ensures EdgeAt(inEdges, p[..n], k) {
        assert EdgeAt(inEdges, p, k);
      }
      ClosedHoldsPath(inEdges, s, p[..n]);
    }
  }

  function Elements(q: seq<Task>): set<Task> {
    set t | t in q
  }

  /** What the backward search keeps: visited and pending tasks are needed, and the tasks with an
      edge to a visited task are visited or pending. */
  ghost predicate SearchOk(inEdges: Edges, tasks: seq<Task>, root: Task, visited: set<Task>, pending: set<Task>) {
    && visited + pending <= Elements(tasks)
    && root in visited + pending
    && (forall t :: t in visited + pending ==> Needed(inEdges, root, t))
    && (forall x, y :: y in visited && HasEdge(inEdges, x, y) ==> x in visited + pending)
  }

  lemma {:induction false} SearchStep(inEdges: Edges, tasks: seq<Task>, root: Task, visited: set<Task>,
                                      pending: set<Task>, t: Task)
    requires Within(inEdges, tasks) && SearchOk(inEdges, tasks, root, visited, pending + {t})
    ensures SearchOk(inEdges, tasks, root, visited + {t}, pending + (Elements(Get(inEdges, t)) - (visited + {t})))
  {
    forall x | x in Get(inEdges, t) ensures x in tasks && Needed(inEdges, root, x) {
      assert HasEdge(inEdges, x, t);
      NeededBack(inEdges, root, x, t);
    }
  }

  lemma {:induction false} SearchStart(inEdges: Edges, tasks: seq<Task>, root: Task)
    requires root in tasks
    ensures SearchOk(inEdges, tasks, root, {}, Elements([root]))
  {
    assert IsPath(inEdges, [root]) && [root][0] == root && Needed(inEdges, root, root);
  }

  lemma {:induction false} SearchDone(inEdges: Edges, tasks: seq<Task>, root: Task, visited: set<Task>)
    requires SearchOk(inEdges, tasks, root, visited, {})
    ensures forall t :: t in visited <==> Needed(inEdges, root, t)
  {
    forall t | Needed(inEdges, root, t) ensures t in visited {
      var p :| IsPath(inEdges, p) && p[0] == t && p[|p| - 1] == root;
      ClosedHoldsPath(inEdges, visited, p);
    }
  }

  lemma ElementsAppend(q: seq<Task>, t: Task)
    ensures Elements(q + [t]) == Elements(q) + {t}
  {
    assert forall x :: x in q + [t] <==> x in q || x == t;
  }

  lemma ElementsPop(q: seq<Task>)
    requires q != []
    ensures Elements(q) == Elements(q[1..]) + {q[0]}
  {
    assert q == [q[0]] + q[1..];
    assert forall x :: x in q <==> x in q[1..] || x == q[0];
  }

  /** The search backwards from the root; the queue may hold a task several times. */
  method FindNeeded(inEdges: Edges, tasks: seq<Task>, root: Task) returns (visited: set<Task>)
    requires Within(inEdges, tasks) && root in tasks
    ensures visited <= Elements(tasks) && forall t :: t in visited <==> Needed(inEdges, root, t)
  {
    visited := {};
    var q := [root];
    SearchStart(inEdges, tasks, root);
    while q != []
      invariant SearchOk(inEdges, tasks, root, visited, Elements(q))
      decreases |Elements(tasks) - visited|, |q|
    {
      var t := q[0];
      ElementsPop(q);
      q := q[1..];
      if t !in visited {
        SearchStep(inEdges, tasks, root, visited, Elements(q), t);
        assert Elements(tasks) - visited == (Elements(tasks) - (visited + {t})) + {t};
        visited := visited + {t};
        q := AddUnvisited(Get(inEdges, t), visited, q);
      } else {
        assert visited + (Elements(q) + {t}) == visited + Elements(q);
      }
    }
    assert Elements(q) == {};
    SearchDone(inEdges, tasks, root, visited);
  }

  method AddUnvisited(deps: seq<Task>, visited: set<Task>, q: seq<Task>) returns (q': seq<Task>)
    ensures Elements(q') == Elements(q) + (Elements(deps) - visited)
  {
    q' := q;
    for i := 0 to |deps|
      invariant Elements(q') == Elements(q) + (Elements(deps[..i]) - visited)
    {
      ElementsAppend(deps[..i], deps[i]);
      assert deps[..i + 1] == deps[..i] + [deps[i]];
      if deps[i] !in visited {
        ElementsAppend(q', deps[i]);
        q' := q' + [deps[i]];
      }
    }
    assert deps[..|deps|] == deps;
  }

  // ---------------------------------------------------------------- removing edges

  /** The list without the first occurrence of t, as the erase loop leaves it. */
  function RemoveFirst(xs: seq<Task>, t: Task): (r: seq<Task>)
    ensures forall u :: Count(r, u) == if u == t && Count(xs, u) > 0 then Count(xs, u) - 1 else Count(xs, u)
  {
    if xs == [] then [] else if xs[0] == t then xs[1..] else [xs[0]] + RemoveFirst(xs[1..], t)
  }

  /** rest is inEdges, except that of the edges from t only those to the tasks of left remain. */
  ghost predicate Removed(inEdges: Edges, rest: Edges, t: Task, left: seq<Task>) {
    forall u, v :: Count(Get(rest, v), u) == if u == t then Count(left, v) else Count(Get(inEdges, v), u)
  }

  /** newly lists once each task that has lost its last in-edge. */
  ghost predicate Emptied(inEdges: Edges, rest: Edges, newly: seq<Task>) {
    Distinct(newly) && forall v :: v in newly <==> Get(inEdges, v) != [] && Get(rest, v) == []
  }

  lemma {:induction false} RemoveOne(inEdges: Edges, rest: Edges, t: Task, outs: seq<Task>, i: nat)
    requires i < |outs| && Removed(inEdges, rest, t, outs[i..])
    ensures Get(rest, outs[i]) != []
    ensures Removed(inEdges, rest[outs[i] := RemoveFirst(Get(rest, outs[i]), t)], t, outs[i + 1..])
  {
    assert outs[i..][0] == outs[i] && outs[i..][1..] == outs[i + 1..];
    assert Count(Get(rest, outs[i]), t) > 0;
  }

  /** For each edge that leaves t, removes one occurrence of t from the in-edges of its end, and
      lists the ends that have no in-edges left. */
  method Release(t: Task, outs: seq<Task>, inEdges: Edges) returns (rest: Edges, newly: seq<Task>)
    requires forall v :: Count(Get(inEdges, v), t) == Count(outs, v)
    ensures Removed(inEdges, rest, t, [])
    ensures Emptied(inEdges, rest, newly)
  {
    rest, newly := inEdges, [];
    assert outs[0..] == outs;
    for i := 0 to |outs|
      invariant Removed(inEdges, rest, t, outs[i..])
      invariant Emptied(inEdges, rest, newly)
    {
      var after := outs[i];
      assert Count(outs, after) > 0 && Count(Get(inEdges, after), t) > 0 by { CountPositive(outs, after); }
      RemoveOne(inEdges, rest, t, outs, i);
      ghost var before := rest;
      rest := rest[after := RemoveFirst(Get(rest, after), t)];
      EmptiedStep(inEdges, before, rest, newly, t, after);
      if rest[after] == [] {
        newly := newly + [after];
      }
    }
  }

  lemma {:induction false} EmptiedStep(inEdges: Edges, rest: Edges, rest': Edges, newly: seq<Task>, t: Task,
                                       after: Task)
    requires Emptied(inEdges, rest, newly) && Get(rest, after) != [] && Get(inEdges, after) != []
    requires rest' == rest[after := RemoveFirst(Get(rest, after), t)]
    ensures Emptied(inEdges, rest', if rest'[after] == [] then newly + [after] else newly)
  {
    forall v ensures v in newly + [after] <==> v in newly || v == after {}
  }

  // ---------------------------------------------------------------- the order

  /** The levels do not decrease along the order. */
  ghost predicate Climbing(level: map<Task, nat>, order: seq<Task>) {
    && (forall x :: x in order ==> x in level)
    && forall i, j :: 0 <= i <= j < |order| ==> level[order[i]] <= level[order[j]]
  }

  /** All tasks that have entered the queue so far, n of which have left it again. */
  ghost predicate KahnOk(inEdges: Edges, rest: Edges, tasks: seq<Task>, listed: seq<Task>, n: nat) {
    && n <= |listed| && Distinct(listed)
    && (forall t :: t in listed ==> t in tasks)
    && (forall u, v :: Count(Get(rest, v), u) == if u in listed[..n] then 0 else Count(Get(inEdges, v), u))
    && (forall v :: v in tasks ==> (v in listed <==> Get(rest, v) == []))
    && Respects(inEdges, listed)
  }

  /** First in, first out: the levels climb, by at most one within the queue. */
  ghost predicate FifoOk(inEdges: Edges, listed: seq<Task>, n: nat) {
    var level := Levels(inEdges, listed);
    && n <= |listed| && Climbing(level, listed)
    && (n < |listed| ==> level[listed[|listed| - 1]] <= level[listed[n]] + 1)
  }

  /** A task whose last in-edge came from t has an edge from t and none from a pending task. */
  lemma {:induction false} LastEdgeFrom(inEdges: Edges, rest: Edges, rest': Edges, tasks: seq<Task>, listed: seq<Task>,
                                        n: nat, v: Task)
    requires KahnOk(inEdges, rest, tasks, listed, n) && n < |listed|
    requires Removed(rest, rest', listed[n], []) && Get(rest, v) != [] && Get(rest', v) == []
    ensures HasEdge(inEdges, listed[n], v)
    ensures forall x :: HasEdge(inEdges, x, v) ==> x in listed[..n + 1]
  {
    var t := listed[n];
    assert listed[..n + 1] == listed[..n] + [t];
    forall x | HasEdge(inEdges, x, v) ensures x in listed[..n + 1] {
      CountPositive(Get(inEdges, v), x);
      CountPositive(Get(rest, v), x);
      assert Count(Get(rest', v), x) == 0;
    }
    var u := Get(rest, v)[0];
    assert u in Get(rest, v);
    CountPositive(Get(rest, v), u);
    assert Count(Get(rest', v), u) == 0;
    assert u == t;
    CountPositive(Get(inEdges, v), u);
    assert Count(Get(rest, v), u) > 0 && u !in listed[..n];
  }

  lemma {:induction false} KahnCounts(inEdges: Edges, rest: Edges, rest': Edges, tasks: seq<Task>, listed: seq<Task>,
                                      n: nat, newly: seq<Task>)
    requires KahnOk(inEdges, rest, tasks, listed, n) && n < |listed|
    requires Removed(rest, rest', listed[n], [])
    ensures forall u, v :: Count(Get(rest', v), u) ==
              if u in (listed + newly)[..n + 1] then 0 else Count(Get(inEdges, v), u)
  {
    assert (listed + newly)[..n + 1] == listed[..n] + [listed[n]];
  }

  lemma DistinctAppend(xs: seq<Task>, ys: seq<Task>)
    requires Distinct(xs) && Distinct(ys) && forall y :: y in ys ==> y !in xs
    ensures Distinct(xs + ys)
  {
    var all := xs + ys;
    assert forall i :: 0 <= i < |xs| ==> all[i] in xs;
    assert forall i :: |xs| <= i < |all| ==> all[i] in ys && all[i] == ys[i - |xs|];
  }

  lemma {:induction false} KahnStep(inEdges: Edges, rest: Edges, rest': Edges, tasks: seq<Task>, listed: seq<Task>,
                                    n: nat, newly: seq<Task>)
    requires KahnOk(inEdges, rest, tasks, listed, n) && n < |listed| && Within(inEdges, tasks)
    requires Removed(rest, rest', listed[n], []) && Emptied(rest, rest', newly)
    ensures KahnOk(inEdges, rest', tasks, listed + newly, n + 1)
  {
    KahnCounts(inEdges, rest, rest', tasks, listed, n, newly);
    var listed' := listed + newly;
    assert forall v :: v in listed' <==> v in listed || v in newly;
    assert forall v :: v in newly ==> v !in listed;
    DistinctAppend(listed, newly);
    forall v | v in listed ensures v in tasks && Get(rest', v) == [] {
      if Get(rest', v) != [] {
        var u := Get(rest', v)[0];
        CountPositive(Get(rest', v), u);
        assert Count(Get(rest, v), u) == 0;
      }
    }
    forall v | v in newly ensures v in tasks {
      LastEdgeFrom(inEdges, rest, rest', tasks, listed, n, v);
    }
    forall j, x | 0 <= j < |listed'| && HasEdge(inEdges, x, listed'[j]) ensures x in listed'[..j] {
      if j < |listed| {
        assert listed'[..j] == listed[..j];
      } else {
        assert listed'[j] == newly[j - |listed|] && listed'[j] in newly;
        LastEdgeFrom(inEdges, rest, rest', tasks, listed, n, listed'[j]);
        assert listed[..n + 1] <= listed'[..j];
      }
    }
  }

  /** A task that enters the queue when t has left it is one level above t. */
  lemma {:induction false} NewLevel(inEdges: Edges, rest: Edges, rest': Edges, tasks: seq<Task>, listed: seq<Task>,
                                    n: nat, listed': seq<Task>, level': map<Task, nat>, v: Task)
    requires KahnOk(inEdges, rest, tasks, listed, n) && n < |listed|
    requires Removed(rest, rest', listed[n], []) && Get(rest, v) != [] && Get(rest', v) == []
    requires Distinct(listed') && Respects(inEdges, listed') && v in listed' && level' == Levels(inEdges, listed')
    requires listed[n] in level' && forall i :: 0 <= i <= n ==>
               listed[i] in level' && level'[listed[i]] <= level'[listed[n]]
    ensures v in level' && level'[v] == level'[listed[n]] + 1
  {
    LastEdgeFrom(inEdges, rest, rest', tasks, listed, n, v);
    LevelFromEdges(inEdges, listed', v);
    MaxLevelBounds(level', Get(inEdges, v));
    forall x | x in Get(inEdges, v) ensures x in level' && level'[x] <= level'[listed[n]] {
      assert HasEdge(inEdges, x, v);
      var i :| 0 <= i <= n && listed[i] == x;
    }
  }

  lemma {:induction false} FifoStep(inEdges: Edges, rest: Edges, rest': Edges, tasks: seq<Task>, listed: seq<Task>,
                                    n: nat, newly: seq<Task>)
    requires KahnOk(inEdges, rest, tasks, listed, n) && n < |listed| && FifoOk(inEdges, listed, n)
    requires Removed(rest, rest', listed[n], []) && Emptied(rest, rest', newly)
    requires KahnOk(inEdges, rest', tasks, listed + newly, n + 1)
    ensures FifoOk(inEdges, listed + newly, n + 1)
  {
    var listed', level' := listed + newly, Levels(inEdges, listed + newly);
    ListedLevels(inEdges, listed, newly);
    forall v | v in newly ensures v in level' && level'[v] == level'[listed[n]] + 1 {
      assert v in listed';
      NewLevel(inEdges, rest, rest', tasks, listed, n, listed', level', v);
    }
    ClimbingAppend(level', listed, newly, n);
  }

  lemma {:induction false} ListedLevels(inEdges: Edges, listed: seq<Task>, newly: seq<Task>)
    requires Distinct(listed + newly)
    ensures forall i :: 0 <= i < |listed| ==>
      listed[i] in Levels(inEdges, listed) && listed[i] in Levels(inEdges, listed + newly) &&
        Levels(inEdges, listed)[listed[i]] == Levels(inEdges, listed + newly)[listed[i]]
  {
    LevelsPrefix(inEdges, listed + newly, |listed|);
    assert (listed + newly)[..|listed|] == listed;
    assert forall i :: 0 <= i < |listed| ==> listed[i] in listed;
  }

  lemma {:induction false} ClimbingAppend(level: map<Task, nat>, listed: seq<Task>, newly: seq<Task>, n: nat)
    requires Climbing(level, listed) && n < |listed| && level[listed[|listed| - 1]] <= level[listed[n]] + 1
    requires forall v :: v in newly ==> v in level && level[v] == level[listed[n]] + 1
    ensures Climbing(level, listed + newly)
    ensures n + 1 < |listed + newly| ==>
      level[(listed + newly)[|listed + newly| - 1]] <= level[(listed + newly)[n + 1]] + 1
  {
    var all := listed + newly;
    assert forall i :: |listed| <= i < |all| ==> all[i] in newly;
    assert forall i :: 0 <= i < |listed| ==> level[listed[i]] <= level[listed[|listed| - 1]];
  }

  lemma {:induction false} RespectsAppend(inEdges: Edges, order: seq<Task>, t: Task)
    requires Respects(inEdges, order) && forall x :: HasEdge(inEdges, x, t) ==> x in order
    ensures Respects(inEdges, order + [t])
  {
    forall j, x | 0 <= j < |order + [t]| && HasEdge(inEdges, x, (order + [t])[j]) ensures x in (order + [t])[..j] {
      assert (order + [t])[..j] == order[..j];
      assert order[..|order|] == order;
    }
  }

  /** Tasks with an edge to a needed task are needed, and the root has no edge to any task. */
  ghost predicate Closed(inEdges: Edges, needed: set<Task>, root: Task) {
    && (forall x, y :: y in needed && x in Get(inEdges, y) ==> x in needed)
    && (forall y :: root !in Get(inEdges, y))
  }

  /** sorted holds the tasks of done that are needed, without the root. */
  ghost predicate SortedOk(inEdges: Edges, needed: set<Task>, root: Task, done: seq<Task>, sorted: seq<Task>) {
    && Distinct(sorted) && Respects(inEdges, sorted)
    && forall t :: t in sorted <==> t in done && t in needed && t != root
  }

  /** Along sorted, whose levels are in level', levels climb and are those in level. */
  ghost predicate SameLevels(level: map<Task, nat>, level': map<Task, nat>, sorted: seq<Task>) {
    && Climbing(level', sorted)
    && forall t :: t in sorted ==> t in level && level[t] == level'[t]
  }

  lemma {:induction false} SortedStep(inEdges: Edges, needed: set<Task>, root: Task, done: seq<Task>, sorted: seq<Task>,
                                      t: Task)
    requires SortedOk(inEdges, needed, root, done, sorted) && Closed(inEdges, needed, root)
    requires t !in done && forall x :: x in Get(inEdges, t) ==> x in done
    ensures SortedOk(inEdges, needed, root, done + [t], if t in needed && t != root then sorted + [t] else sorted)
  {
    if t in needed && t != root {
      DistinctAppend(sorted, [t]);
      assert forall x :: HasEdge(inEdges, x, t) ==> x in sorted;
      RespectsAppend(inEdges, sorted, t);
    }
  }

  lemma {:induction false} LevelsStep(keep: bool, level: map<Task, nat>, level': map<Task, nat>, done: seq<Task>,
                                      sorted: seq<Task>, t: Task, befores: seq<Task>)
    requires SameLevels(level, level', sorted) && t !in done && forall x :: x in sorted ==> x in done
    requires keep ==> forall x :: x in befores ==> x in sorted
    requires Climbing(level[t := LevelAfter(level, befores)], done + [t])
    ensures keep ==>
              SameLevels(level[t := LevelAfter(level, befores)], level'[t := LevelAfter(level', befores)], sorted + [t])
    ensures SameLevels(level[t := LevelAfter(level, befores)], level', sorted)
  {
    var a := LevelAfter(level, befores);
    assert t !in sorted;
    OtherLevels(level, level', sorted, t, a);
    if keep {
      assert forall x :: x in befores ==> x in level && x in level' && level[x] == level'[x];
      MaxLevelSame(level, level', befores);
      SortedClimbs(level[t := a], level'[t := a], done, sorted, t);
    }
  }

  lemma OtherLevels(level: map<Task, nat>, level': map<Task, nat>, sorted: seq<Task>, t: Task, a: nat)
    requires SameLevels(level, level', sorted) && t !in sorted
    ensures SameLevels(level[t := a], level', sorted) && SameLevels(level[t := a], level'[t := a], sorted)
  {
    assert forall i :: 0 <= i < |sorted| ==> sorted[i] in sorted;
  }

  lemma {:induction false} SortedClimbs(level: map<Task, nat>, level': map<Task, nat>, done: seq<Task>,
                                        sorted: seq<Task>, t: Task)
    requires Climbing(level, done + [t]) && t in level' && level'[t] == level[t] && t !in done
    requires SameLevels(level, level', sorted) && forall x :: x in sorted ==> x in done
    ensures SameLevels(level, level', sorted + [t])
  {
    var all, sorted' := done + [t], sorted + [t];
    forall i | 0 <= i < |sorted| ensures level'[sorted[i]] <= level'[t] {
      assert sorted[i] in sorted;
      var a :| 0 <= a < |done| && done[a] == sorted[i];
      assert all[a] == sorted[i] && all[|done|] == t;
    }
    assert forall x :: x in sorted' <==> x in sorted || x == t;
  }

  lemma {:induction false} DistinctBound(xs: seq<Task>, ys: seq<Task>)
    requires Distinct(xs) && forall x :: x in xs ==> x in ys
    ensures |xs| <= |ys|
  {
    if xs != [] {
      var n := |xs| - 1;
      assert xs[n] in xs;
      var k :| 0 <= k < |ys| && ys[k] == xs[n];
      var rest := ys[..k] + ys[k + 1..];
      forall x | x in xs[..n] ensures x in rest {
        assert x in xs && x in ys && x != xs[n];
        var m :| 0 <= m < |ys| && ys[m] == x;
        assert rest[if m < k then m else m - 1] == x;
      }
      DistinctBound(xs[..n], rest);
    }
  }

  /** What resolveDeps hands over: distinct tasks, among them the root, which modifies nothing, and
      edges between them that both lists agree on. */
  ghost predicate IsGraph(tasks: seq<Task>, inEdges: Edges, outEdges: Edges, root: Task) {
    Distinct(tasks) && root in tasks && Within(inEdges, tasks) && Mirrored(inEdges, outEdges) &&
      Get(outEdges, root) == []
  }

  lemma {:induction false} RootIsSink(tasks: seq<Task>, inEdges: Edges, outEdges: Edges, root: Task, y: Task)
    requires IsGraph(tasks, inEdges, outEdges, root)
    ensures root !in Get(inEdges, y)
  {
    CountPositive(Get(inEdges, y), root);
    assert Count(Get(inEdges, y), root) == Count(Get(outEdges, root), y);
  }

  /** The state of the sorting loop, listed being all tasks that have entered the queue and n the
      number of those that have left it. */
  ghost predicate SortOk(tasks: seq<Task>, inEdges: Edges, outEdges: Edges, root: Task, needed: set<Task>,
                         rest: Edges, outs: Edges, listed: seq<Task>, n: nat, sorted: seq<Task>) {
    && KahnOk(inEdges, rest, tasks, listed, n)
    && FifoOk(inEdges, listed, n)
    && LeftOk(inEdges, outEdges, root, needed, outs, listed[..n], sorted)
  }

  lemma {:induction false} SortStart(tasks: seq<Task>, inEdges: Edges, outEdges: Edges, root: Task, needed: set<Task>,
                                     listed: seq<Task>)
    requires Distinct(listed) && forall t :: t in listed <==> t in tasks && Get(inEdges, t) == []
    ensures SortOk(tasks, inEdges, outEdges, root, needed, inEdges, outEdges, listed, 0, [])
  {
    assert listed[..0] == [];
    assert Respects(inEdges, listed) by {
      forall j, x | 0 <= j < |listed| ensures !HasEdge(inEdges, x, listed[j]) { assert listed[j] in listed; }
    }
    forall t | t in listed ensures t in Levels(inEdges, listed) && Levels(inEdges, listed)[t] == 0 {
      LevelFromEdges(inEdges, listed, t);
    }
    assert forall j :: 0 <= j < |listed| ==> listed[j] in listed;
  }

  lemma {:induction false} ReadyToLeave(inEdges: Edges, listed: seq<Task>, n: nat)
    requires Distinct(listed) && Respects(inEdges, listed) && Climbing(Levels(inEdges, listed), listed) && n < |listed|
    ensures listed[..n + 1] == listed[..n] + [listed[n]] && listed[n] !in listed[..n]
    ensures forall x :: x in Get(inEdges, listed[n]) ==> x in listed[..n]
    ensures Climbing(Levels(inEdges,
                            listed[..n])[listed[n] :=
                                         LevelAfter(Levels(inEdges, listed[..n]), Get(inEdges, listed[n]))],
                     listed[..n] + [listed[n]])
  {
    forall x | x in Get(inEdges, listed[n]) ensures x in listed[..n] { assert HasEdge(inEdges, x, listed[n]); }
    assert listed[..n + 1] == listed[..n] + [listed[n]];
    PrefixClimbs(inEdges, listed, n + 1);
    LevelsAppend(inEdges, listed[..n], listed[n]);
  }

  /** What leaving the queue does to the sorted list. */
  lemma {:induction false} SortedLeaves(inEdges: Edges, needed: set<Task>, root: Task, done: seq<Task>, t: Task,
                                        sorted: seq<Task>)
    requires t !in done && forall x :: x in Get(inEdges, t) ==> x in done
    requires Climbing(Levels(inEdges, done)[t := LevelAfter(Levels(inEdges, done), Get(inEdges, t))], done + [t])
    requires SortedOk(inEdges, needed, root, done, sorted) && Closed(inEdges, needed, root)
    requires SameLevels(Levels(inEdges, done), Levels(inEdges, sorted), sorted)
    ensures var sorted' := if t in needed && t != root then sorted + [t] else sorted;
            && SortedOk(inEdges, needed, root, done + [t], sorted')
            && SameLevels(Levels(inEdges, done + [t]), Levels(inEdges, sorted'), sorted')
  {
    SortedStep(inEdges, needed, root, done, sorted, t);
    var befores := Get(inEdges, t);
    var keep := t in needed && t != root;
    assert keep ==> forall x :: x in befores ==> x in sorted by {
      if keep { forall x | x in befores ensures x in sorted {} }
    }
    assert forall x :: x in sorted ==> x in done;
    LevelsAppend(inEdges, done, t);
    LevelsAppend(inEdges, sorted, t);
    LevelsStep(keep, Levels(inEdges, done), Levels(inEdges, sorted), done, sorted, t, befores);
  }

  lemma {:induction false} PrefixClimbs(inEdges: Edges, order: seq<Task>, n: nat)
    requires Distinct(order) && Climbing(Levels(inEdges, order), order) && n <= |order|
    ensures Climbing(Levels(inEdges, order[..n]), order[..n])
  {
    LevelsPrefix(inEdges, order, n);
    assert forall i :: 0 <= i < n ==> order[..n][i] in order[..n] && order[..n][i] == order[i];
  }

  /** The pending edges from t are those of the graph. */
  lemma {:induction false} EdgesLeft(tasks: seq<Task>, inEdges: Edges, outEdges: Edges, root: Task, rest: Edges,
                                     outs: Edges, listed: seq<Task>, n: nat)
    requires IsGraph(tasks, inEdges, outEdges, root) && KahnOk(inEdges, rest, tasks, listed, n) && n < |listed|
    requires forall t :: Get(outs, t) == if t in listed[..n] then [] else Get(outEdges, t)
    ensures forall v :: Count(Get(rest, v), listed[n]) == Count(Get(outs, listed[n]), v)
  {
    assert listed[n] !in listed[..n];
  }

  /** The part of SortOk about what has left the queue. */
  ghost predicate LeftOk(inEdges: Edges, outEdges: Edges, root: Task, needed: set<Task>, outs: Edges, done: seq<Task>,
                         sorted: seq<Task>) {
    && (forall t :: Get(outs, t) == if t in done then [] else Get(outEdges, t))
    && SortedOk(inEdges, needed, root, done, sorted)
    && SameLevels(Levels(inEdges, done), Levels(inEdges, sorted), sorted)
  }

  lemma {:induction false} SortStep(tasks: seq<Task>, inEdges: Edges, outEdges: Edges, root: Task, needed: set<Task>,
                                    rest: Edges, outs: Edges, listed: seq<Task>, n: nat, sorted: seq<Task>,
                                    rest': Edges, newly: seq<Task>)
    requires Within(inEdges, tasks) && Closed(inEdges, needed, root)
    requires SortOk(tasks, inEdges, outEdges, root, needed, rest, outs, listed, n, sorted) && n < |listed|
    requires Removed(rest, rest', listed[n], []) && Emptied(rest, rest', newly)
    ensures var t := listed[n];
            SortOk(tasks, inEdges, outEdges, root, needed, rest', outs - {t}, listed + newly, n + 1,
                   if t in needed && t != root then sorted + [t] else sorted)
  {
    hide LeftOk, Respects, Distinct, Climbing, Levels, Removed, Emptied;
    KahnStep(inEdges, rest, rest', tasks, listed, n, newly);
    FifoStep(inEdges, rest, rest', tasks, listed, n, newly);
    LeftStep(inEdges, outEdges, root, needed, outs, listed, n, sorted);
    assert (listed + newly)[..n + 1] == listed[..n + 1];
  }

  lemma {:induction false} LeftStep(inEdges: Edges, outEdges: Edges, root: Task, needed: set<Task>, outs: Edges,
                                    listed: seq<Task>, n: nat, sorted: seq<Task>)
    requires Distinct(listed) && Respects(inEdges, listed) && Climbing(Levels(inEdges, listed), listed) && n < |listed|
    requires Closed(inEdges, needed, root) && LeftOk(inEdges, outEdges, root, needed, outs, listed[..n], sorted)
    ensures var t := listed[n];
            LeftOk(inEdges, outEdges, root, needed, outs - {t}, listed[..n + 1],
                   if t in needed && t != root then sorted + [t] else sorted)
  {
    hide SortedOk, SameLevels, Closed, Levels, Climbing, Respects, Distinct;
    ReadyToLeave(inEdges, listed, n);
    SortedLeaves(inEdges, needed, root, listed[..n], listed[n], sorted);
    OutsLeft(outEdges, outs, listed[..n], listed[n]);
  }

  lemma OutsLeft(outEdges: Edges, outs: Edges, done: seq<Task>, t: Task)
    requires forall u :: Get(outs, u) == if u in done then [] else Get(outEdges, u)
    ensures forall u :: Get(outs - {t}, u) == if u in done + [t] then [] else Get(outEdges, u)
  {
  }

  /** All tasks without in-edges, in the order of the list. */
  method Sources(tasks: seq<Task>, inEdges: Edges) returns (q: seq<Task>)
    requires Distinct(tasks)
    ensures Distinct(q) && forall t :: t in q <==> t in tasks && Get(inEdges, t) == []
  {
    q := [];
    for i := 0 to |tasks|
      invariant Distinct(q) && forall t :: t in q <==> t in tasks[..i] && Get(inEdges, t) == []
    {
      assert tasks[..i + 1] == tasks[..i] + [tasks[i]] && tasks[i] !in tasks[..i];
      if Get(inEdges, tasks[i]) == [] {
        q := q + [tasks[i]];
      }
    }
    assert tasks[..|tasks|] == tasks;
  }

  /** The sanity check after the sort: are all edges gone? */
  method AllRemoved(tasks: seq<Task>, ins: Edges, outs: Edges) returns (ok: bool)
    ensures ok <==> forall t :: t in tasks ==> Get(ins, t) == [] && Get(outs, t) == []
  {
    for i := 0 to |tasks|
      invariant forall t :: t in tasks[..i] ==> Get(ins, t) == [] && Get(outs, t) == []
    {
      assert tasks[i] in tasks;
      if Get(outs, tasks[i]) != [] || Get(ins, tasks[i]) != [] { return false; }
      assert tasks[..i + 1] == tasks[..i] + [tasks[i]];
    }
    assert tasks[..|tasks|] == tasks;
    return true;
  }

  /** What topologicalSort promises: the strict backward closure of the root, each task once and
      after all tasks it depends on, with levels that do not decrease. */
  ghost predicate IsSort(inEdges: Edges, root: Task, sorted: seq<Task>) {
    && Distinct(sorted) && Respects(inEdges, sorted)
    && (forall t :: t in sorted <==> Needed(inEdges, root, t) && t != root)
    && Climbing(Levels(inEdges, sorted), sorted)
  }

  lemma {:induction false} NeededIsClosed(tasks: seq<Task>, inEdges: Edges, outEdges: Edges, root: Task,
                                          needed: set<Task>)
    requires IsGraph(tasks, inEdges, outEdges, root)
    requires forall t :: t in needed <==> Needed(inEdges, root, t)
    ensures Closed(inEdges, needed, root)
  {
    forall x, y | y in needed && x in Get(inEdges, y) ensures x in needed {
      assert HasEdge(inEdges, x, y);
      NeededBack(inEdges, root, x, y);
    }
    forall y ensures root !in Get(inEdges, y) { RootIsSink(tasks, inEdges, outEdges, root, y); }
  }

  lemma {:induction false} UnlistedEdge(tasks: seq<Task>, inEdges: Edges, rest: Edges, listed: seq<Task>, y: Task)
    returns (u: Task)
    requires Within(inEdges, tasks) && KahnOk(inEdges, rest, tasks, listed, |listed|)
    requires y in tasks && y !in listed
    ensures u in tasks && u !in listed && HasEdge(inEdges, u, y)
  {
    hide Respects, Distinct;
    assert listed[..|listed|] == listed;
    u := Get(rest, y)[0];
    CountPositive(Get(rest, y), u);
    assert u in Get(rest, y);
    CountPositive(Get(inEdges, y), u);
  }

  /** The tasks that never entered the queue keep an in-edge from each other. */
  lemma {:induction false} UnlistedCycle(tasks: seq<Task>, inEdges: Edges, rest: Edges, listed: seq<Task>, t: Task)
    requires Within(inEdges, tasks) && KahnOk(inEdges, rest, tasks, listed, |listed|)
    requires t in tasks && t !in listed
    ensures HasCycle(inEdges)
  {
    hide KahnOk, HasEdge, HasCycle;
    var s := Elements(tasks) - Elements(listed);
    assert t in s;
    forall y | y in s ensures EnteredFrom(inEdges, s, y) {
      var u := UnlistedEdge(tasks, inEdges, rest, listed, y);
      assert u in s;
    }
    NoSourceCycle(inEdges, s);
  }

  lemma {:induction false} SortEnds(tasks: seq<Task>, inEdges: Edges, outEdges: Edges, root: Task, needed: set<Task>,
                                    rest: Edges, outs: Edges, listed: seq<Task>, sorted: seq<Task>, clean: bool)
    requires IsGraph(tasks, inEdges, outEdges, root)
    requires SortOk(tasks, inEdges, outEdges, root, needed, rest, outs, listed, |listed|, sorted)
    requires clean <==> forall t :: t in tasks ==> Get(rest, t) == [] && Get(outs, t) == []
    requires needed <= Elements(tasks) && forall t :: t in needed <==> Needed(inEdges, root, t)
    ensures clean <==> !HasCycle(inEdges)
    ensures clean ==> IsSort(inEdges, root, sorted)
  {
    assert listed[..|listed|] == listed;
    if t :| t in tasks && t !in listed {
      hide Levels, Respects, Distinct;
      UnlistedCycle(tasks, inEdges, rest, listed, t);
    } else {
      assert clean;
      OrderExcludesCycles(inEdges, listed, tasks);
    }
  }

  /** The sort; it fails exactly when the graph has a cycle, be it among tasks nobody needs. */
  method TopologicalSort(tasks: seq<Task>, inEdges: Edges, outEdges: Edges, root: Task) returns (r: Result<seq<Task>>)
    requires IsGraph(tasks, inEdges, outEdges, root)
    ensures r.Ok? <==> !HasCycle(inEdges)
    ensures r.Ok? ==> IsSort(inEdges, root, r.value)
  {
    hide IsSort, HasCycle, SortOk, Removed, Emptied, Closed, Needed;
    var needed := FindNeeded(inEdges, tasks, root);
    NeededIsClosed(tasks, inEdges, outEdges, root, needed);
    var rest, outs, sorted := inEdges, outEdges, [];
    var q := Sources(tasks, inEdges);
    ghost var listed, n := q, 0;
    SortStart(tasks, inEdges, outEdges, root, needed, listed);
    while q != []
      invariant n <= |listed| && q == listed[n..]
      invariant SortOk(tasks, inEdges, outEdges, root, needed, rest, outs, listed, n, sorted)
      decreases |tasks| - n
    {
      var t := q[0];
      ListedBound(tasks, inEdges, outEdges, root, needed, rest, outs, listed, n, sorted);
      var rest', newly := Release(t, Get(outs, t), rest);
      SortStep(tasks, inEdges, outEdges, root, needed, rest, outs, listed, n, sorted, rest', newly);
      if t in needed && t != root {
        sorted := sorted + [t];
      }
      rest, outs := rest', outs - {t};
      q := q[1..] + newly;
      listed, n := listed + newly, n + 1;
    }
    var clean := AllRemoved(tasks, rest, outs);
    SortEnds(tasks, inEdges, outEdges, root, needed, rest, outs, listed, sorted, clean);
    r := if clean then Ok(sorted) else SchedulingException;
  }

  lemma {:induction false} ListedBound(tasks: seq<Task>, inEdges: Edges, outEdges: Edges, root: Task, needed: set<Task>,
                                       rest: Edges, outs: Edges, listed: seq<Task>, n: nat, sorted: seq<Task>)
    requires IsGraph(tasks, inEdges, outEdges, root) && n < |listed|
    requires SortOk(tasks, inEdges, outEdges, root, needed, rest, outs, listed, n, sorted)
    ensures |listed| <= |tasks|
    ensures forall v :: Count(Get(rest, v), listed[n]) == Count(Get(outs, listed[n]), v)
  {
    DistinctBound(listed, tasks);
    EdgesLeft(tasks, inEdges, outEdges, root, rest, outs, listed, n);
  }
}
