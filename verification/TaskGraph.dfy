module TaskGraph {

  // The task graph: edge lists as Scheduler builds them, paths, orders and levels.

  type Task = nat

  /** For each task, the tasks it has an edge from (inEdges) or to (outEdges), with repetitions. */
  type Edges = map<Task, seq<Task>>

  /** The list of a task; an absent list counts as empty. */
  function Get(edges: Edges, t: Task): seq<Task> {
    if t in edges then edges[t] else []
  }

  predicate HasEdge(inEdges: Edges, x: Task, y: Task) {
    x in Get(inEdges, y)
  }

  predicate EdgeAt(inEdges: Edges, p: seq<Task>, i: nat)
    requires i + 1 < |p|
  {
    HasEdge(inEdges, p[i], p[i + 1])
  }

  /** p leads from its first to its last task along edges. */
  predicate IsPath(inEdges: Edges, p: seq<Task>) {
    |p| >= 1 && forall i: nat :: i < |p| - 1 ==> EdgeAt(inEdges, p, i)
  }

  ghost predicate Leads(inEdges: Edges, x: Task, y: Task) {
    exists p :: IsPath(inEdges, p) && p[0] == x && p[|p| - 1] == y
  }

  ghost predicate HasCycle(inEdges: Edges) {
    exists p :: IsPath(inEdges, p) && |p| >= 2 && p[0] == p[|p| - 1]
  }

  predicate Distinct(xs: seq<Task>) {
    forall i, j :: 0 <= i < j < |xs| ==> xs[i] != xs[j]
  }

  /** Every task comes after all tasks it has an edge from. */
  ghost predicate Respects(inEdges: Edges, order: seq<Task>) {
    forall j, x :: 0 <= j < |order| && HasEdge(inEdges, x, order[j]) ==> x in order[..j]
  }

  function Count(xs: seq<Task>, t: Task): nat {
    if xs == [] then 0 else (if xs[0] == t then 1 else 0) + Count(xs[1..], t)
  }

  lemma {:induction false} CountPositive(xs: seq<Task>, t: Task)
    ensures Count(xs, t) > 0 <==> t in xs
  {
    if xs != [] {
      CountPositive(xs[1..], t);
      assert xs == [xs[0]] + xs[1..];
    }
  }

  lemma {:induction false} CountAppend(xs: seq<Task>, ys: seq<Task>, t: Task)
    ensures Count(xs + ys, t) == Count(xs, t) + Count(ys, t)
  {
    if xs == [] {
      assert xs + ys == ys;
    } else {
      CountAppend(xs[1..], ys, t);
      assert (xs + ys)[1..] == xs[1..] + ys;
    }
  }

  /** inEdges and outEdges list the same edges, with equal multiplicity. */
  ghost predicate Mirrored(inEdges: Edges, outEdges: Edges) {
    forall u, v :: Count(Get(inEdges, v), u) == Count(Get(outEdges, u), v)
  }

  /** All edges lead from a task of the list to a task of the list. */
  ghost predicate Within(inEdges: Edges, tasks: seq<Task>) {
    forall x, y :: HasEdge(inEdges, x, y) ==> x in tasks && y in tasks
  }

  function Max(x: nat, y: nat): nat {
    if x < y then y else x
  }

  /** The largest level among xs; a task without a level counts as 0. */
  function MaxLevel(level: map<Task, nat>, xs: seq<Task>): nat {
    if xs == [] then 0
       else Max(MaxLevel(level, xs[..|xs| - 1]), if xs[|xs| - 1] in level then level[xs[|xs| - 1]] else 0)
  }

  function LevelAfter(level: map<Task, nat>, befores: seq<Task>): nat {
    if befores == [] then 0 else MaxLevel(level, befores) + 1
  }

  /** The level of each task of an order, computed from left to right. */
  function Levels(inEdges: Edges, order: seq<Task>): map<Task, nat> {
    if order == [] then map[] else
    var n := |order| - 1;
    var before := Levels(inEdges, order[..n]);
    before[order[n] := LevelAfter(before, Get(inEdges, order[n]))]
  }

  lemma LevelsAppend(inEdges: Edges, order: seq<Task>, t: Task)
    ensures Levels(inEdges, order + [t]) ==
            Levels(inEdges, order)[t := LevelAfter(Levels(inEdges, order), Get(inEdges, t))]
  {
    assert (order + [t])[..|order|] == order;
  }

  lemma {:induction false} LevelsDomain(inEdges: Edges, order: seq<Task>)
    ensures forall x :: x in Levels(inEdges, order) <==> x in order
  {
    if order != [] {
      var n := |order| - 1;
      LevelsDomain(inEdges, order[..n]);
      assert order == order[..n] + [order[n]];
    }
  }

  lemma {:induction false} MaxLevelSame(a: map<Task, nat>, b: map<Task, nat>, xs: seq<Task>)
    requires forall x :: x in xs ==> x in a && x in b && a[x] == b[x]
    ensures MaxLevel(a, xs) == MaxLevel(b, xs)
  {
    if xs != [] {
      assert xs[|xs| - 1] in xs;
      MaxLevelSame(a, b, xs[..|xs| - 1]);
    }
  }

  lemma {:induction false} MaxLevelBounds(level: map<Task, nat>, xs: seq<Task>)
    ensures forall x :: x in xs && x in level ==> level[x] <= MaxLevel(level, xs)
    ensures MaxLevel(level, xs) == 0 || exists x :: x in xs && x in level && level[x] == MaxLevel(level, xs)
  {
    if xs != [] {
      var n := |xs| - 1;
      MaxLevelBounds(level, xs[..n]);
      assert xs == xs[..n] + [xs[n]] && xs[n] in xs;
    }
  }

  /** Extending an order does not change the levels it has assigned. */
  lemma {:induction false} LevelsPrefix(inEdges: Edges, order: seq<Task>, n: nat)
    requires Distinct(order) && n <= |order|
    ensures forall x :: x in order[..n] ==>
      x in Levels(inEdges, order[..n]) && x in Levels(inEdges, order) &&
        Levels(inEdges, order)[x] == Levels(inEdges, order[..n])[x]
  {
    LevelsDomain(inEdges, order[..n]);
    if n < |order| {
      var m := |order| - 1;
      LevelsPrefix(inEdges, order[..m], n);
      assert order[..m][..n] == order[..n];
      assert order[m] !in order[..n];
      LevelsAppend(inEdges, order[..m], order[m]);
      assert order == order[..m] + [order[m]];
    } else {
      assert order[..n] == order;
    }
  }

  /** In an order that respects the edges, the level of a task is 0 without in-edges and otherwise
      one more than the largest level it has an edge from. */
  lemma {:induction false} LevelFromEdges(inEdges: Edges, order: seq<Task>, t: Task)
    requires Distinct(order) && Respects(inEdges, order) && t in order
    ensures t in Levels(inEdges, order)
    ensures Levels(inEdges, order)[t] == LevelAfter(Levels(inEdges, order), Get(inEdges, t))
  {
    var j :| 0 <= j < |order| && order[j] == t;
    LevelsPrefix(inEdges, order, j + 1);
    LevelsPrefix(inEdges, order, j);
    assert order[..j + 1][..j] == order[..j] && t in order[..j + 1];
    forall x | x in Get(inEdges, t) ensures x in order[..j] {
      assert HasEdge(inEdges, x, order[j]);
    }
    MaxLevelSame(Levels(inEdges, order[..j]), Levels(inEdges, order), Get(inEdges, t));
  }

  /** Every edge leads to a strictly larger level. */
  lemma {:induction false} EdgesClimb(inEdges: Edges, order: seq<Task>, x: Task, y: Task)
    requires Distinct(order) && Respects(inEdges, order) && y in order && HasEdge(inEdges, x, y)
    ensures x in order && x in Levels(inEdges, order) && y in Levels(inEdges, order)
    ensures Levels(inEdges, order)[x] < Levels(inEdges, order)[y]
  {
    var j :| 0 <= j < |order| && order[j] == y;
    assert x in order[..j];
    LevelsDomain(inEdges, order);
    LevelFromEdges(inEdges, order, y);
    MaxLevelBounds(Levels(inEdges, order), Get(inEdges, y));
  }

  /** No path to a task has more edges than its level. */
  lemma {:induction false} PathWithinLevel(inEdges: Edges, order: seq<Task>, p: seq<Task>)
    requires Distinct(order) && Respects(inEdges, order) && IsPath(inEdges, p) && p[|p| - 1] in order
    ensures p[|p| - 1] in Levels(inEdges, order) && |p| - 1 <= Levels(inEdges, order)[p[|p| - 1]]
    decreases |p|
  {
    LevelsDomain(inEdges, order);
    if |p| > 1 {
      var n := |p| - 1;
      assert EdgeAt(inEdges, p, n - 1);
      EdgesClimb(inEdges, order, p[n - 1], p[n]);
      var q := p[..n];
      forall i: nat | i < |q| - 1 ensures EdgeAt(inEdges, q, i) { assert EdgeAt(inEdges, p, i); }
      PathWithinLevel(inEdges, order, q);
    }
  }

  lemma PathLonger(inEdges: Edges, p: seq<Task>, t: Task)
    requires IsPath(inEdges, p) && HasEdge(inEdges, p[|p| - 1], t)
    ensures IsPath(inEdges, p + [t])
  {
    forall i: nat | i < |p| ensures EdgeAt(inEdges, p + [t], i) {
      if i < |p| - 1 { assert EdgeAt(inEdges, p, i); }
    }
  }

  /** Some path to a task has as many edges as its level. */
  lemma {:induction false} PathOfLevel(inEdges: Edges, order: seq<Task>, t: Task) returns (p: seq<Task>)
    requires Distinct(order) && Respects(inEdges, order) && t in order
    ensures t in Levels(inEdges, order)
    ensures IsPath(inEdges, p) && p[|p| - 1] == t && |p| - 1 == Levels(inEdges, order)[t]
    decreases if t in Levels(inEdges, order) then Levels(inEdges, order)[t] else 0
  {
    LevelFromEdges(inEdges, order, t);
    p := [t];
    var befores := Get(inEdges, t);
    if befores != [] {
      var level := Levels(inEdges, order);
      MaxLevelBounds(level, befores);
      LevelsDomain(inEdges, order);
      assert HasEdge(inEdges, befores[0], t);
      EdgesClimb(inEdges, order, befores[0], t);
      var x :| x in befores && x in level && level[x] == MaxLevel(level, befores);
      assert HasEdge(inEdges, x, t);
      EdgesClimb(inEdges, order, x, t);
      var q := PathOfLevel(inEdges, order, x);
      PathLonger(inEdges, q, t);
      p := q + [t];
    }
  }

  /** The level of a task is the number of edges of a longest path that ends in it. */
  lemma {:induction false} LevelsAreLongestPaths(inEdges: Edges, order: seq<Task>, t: Task)
    requires Distinct(order) && Respects(inEdges, order) && t in order
    ensures t in Levels(inEdges, order)
    ensures forall p :: IsPath(inEdges, p) && p[|p| - 1] == t ==> |p| - 1 <= Levels(inEdges, order)[t]
    ensures exists p :: IsPath(inEdges, p) && p[|p| - 1] == t && |p| - 1 == Levels(inEdges, order)[t]
  {
    var q := PathOfLevel(inEdges, order, t);
    forall p | IsPath(inEdges, p) && p[|p| - 1] == t ensures |p| - 1 <= Levels(inEdges, order)[t] {
      PathWithinLevel(inEdges, order, p);
    }
  }

  // ---------------------------------------------------------------- cycles

  /** A sequence longer than the set it draws from repeats an element. */
  lemma {:induction false} Pigeonhole(xs: seq<Task>, s: set<Task>) returns (i: nat, j: nat)
    requires |xs| > |s| && forall x :: x in xs ==> x in s
    ensures i < j < |xs| && xs[i] == xs[j]
    decreases |xs|
  {
    var x := xs[0];
    assert x in xs && x in s;
    if k :| 1 <= k < |xs| && xs[k] == x {
      i, j := 0, k;
    } else {
      assert forall y :: y in xs[1..] ==> y in xs && y != x;
      i, j := Pigeonhole(xs[1..], s - {x});
      i, j := i + 1, j + 1;
    }
  }

  ghost predicate EnteredFrom(inEdges: Edges, s: set<Task>, y: Task) {
    exists x :: x in s && HasEdge(inEdges, x, y)
  }

  /** Where every task of a non-empty set has an edge from within the set, there is a path of any length. */
  lemma {:induction false} WalkBack(inEdges: Edges, s: set<Task>, n: nat) returns (p: seq<Task>)
    requires s != {} && forall y {:trigger EnteredFrom(inEdges, s, y)} :: y in s ==> EnteredFrom(inEdges, s, y)
    ensures |p| == n + 1 && IsPath(inEdges, p) && forall y :: y in p ==> y in s
  {
    if n == 0 {
      var y :| y in s;
      p := [y];
    } else {
      var p' := WalkBack(inEdges, s, n - 1);
      assert p'[0] in p' && EnteredFrom(inEdges, s, p'[0]);
      var x :| x in s && HasEdge(inEdges, x, p'[0]);
      p := [x] + p';
      forall i: nat | i < |p| - 1 ensures EdgeAt(inEdges, p, i) {
        if i > 0 { assert EdgeAt(inEdges, p', i - 1); }
      }
    }
  }

  lemma {:induction false} NoSourceCycle(inEdges: Edges, s: set<Task>)
    requires s != {} && forall y {:trigger EnteredFrom(inEdges, s, y)} :: y in s ==> EnteredFrom(inEdges, s, y)
    ensures HasCycle(inEdges)
  {
    var p := WalkBack(inEdges, s, |s|);
    var i, j := Pigeonhole(p, s);
    var c := p[i..j + 1];
    forall k: nat | k < |c| - 1 ensures EdgeAt(inEdges, c, k) {
      assert EdgeAt(inEdges, p, i + k);
    }
    assert IsPath(inEdges, c) && c[0] == c[|c| - 1];
  }

  lemma {:induction false} PathOrder(inEdges: Edges, order: seq<Task>, p: seq<Task>, j: nat) returns (i: nat)
    requires Distinct(order) && Respects(inEdges, order) && IsPath(inEdges, p)
    requires j < |order| && order[j] == p[|p| - 1]
    ensures i <= j && order[i] == p[0] && (|p| >= 2 ==> i < j)
    decreases |p|
  {
    var n := |p| - 1;
    if n == 0 {
      i := j;
    } else {
      assert EdgeAt(inEdges, p, n - 1);
      forall k: nat | k < n - 1 ensures EdgeAt(inEdges, p[..n], k) {
        assert EdgeAt(inEdges, p, k);
      }
      var m :| 0 <= m < j && order[m] == p[n - 1];
      i := PathOrder(inEdges, order, p[..n], m);
    }
  }

  /** A complete order that respects the edges excludes cycles. */
  lemma {:induction false} OrderExcludesCycles(inEdges: Edges, order: seq<Task>, tasks: seq<Task>)
    requires Within(inEdges, tasks) && Distinct(order) && Respects(inEdges, order)
    requires forall t :: t in tasks ==> t in order
    ensures !HasCycle(inEdges)
  {
    if HasCycle(inEdges) {
      var p :| IsPath(inEdges, p) && |p| >= 2 && p[0] == p[|p| - 1];
      assert EdgeAt(inEdges, p, 0);
      var j :| 0 <= j < |order| && order[j] == p[0];
      var i := PathOrder(inEdges, order, p, j);
      assert false;
    }
  }
}
