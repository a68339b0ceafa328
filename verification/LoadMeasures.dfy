module LoadMeasures {

  // What the loads, totals and averages of a distribution are, in terms of the costs of the tasks.

  import opened TaskGraph
  import opened LoadBalance
  import opened ThreadLevelScheduler
  import opened ThreadListScheduler

  /** The cost of a job counts in the load of its thread, in full, and in no other. */
  lemma {:induction false} LoadCountsEach(p: seq<int>, a: seq<nat>, n: nat, u: nat, k: nat, d: int)
    requires k < n <= |p| && n <= |a|
    ensures Load(p[k := p[k] + d], a, n, u) == Load(p, a, n, u) + if a[k] == u then d else 0
  {
    if k < n - 1 { LoadCountsEach(p, a, n - 1, u, k, d); } else { LoadOfSame(p, p[k := p[k] + d], a, n - 1, u); }
  }

  lemma {:induction false} LoadOfSame(p: seq<int>, p': seq<int>, a: seq<nat>, n: nat, u: nat)
    requires n <= |p| && n <= |p'| && n <= |a| && forall i :: 0 <= i < n ==> p[i] == p'[i]
    ensures Load(p, a, n, u) == Load(p', a, n, u)
  {
    if n > 0 { LoadOfSame(p, p', a, n - 1, u); }
  }

  lemma {:induction false} LoadOfZeros(p: seq<int>, a: seq<nat>, n: nat, u: nat)
    requires n <= |p| && n <= |a| && forall i :: 0 <= i < n ==> p[i] == 0
    ensures Load(p, a, n, u) == 0
  {
    if n > 0 { LoadOfZeros(p, a, n - 1, u); }
  }

  /** The total is the load of a single thread that has all jobs. */
  lemma {:induction false} TotalIsLoad(p: seq<int>, a: seq<nat>, n: nat, u: nat)
    requires n <= |p| && n <= |a| && forall i :: 0 <= i < n ==> a[i] == u
    ensures Total(p, n) == Load(p, a, n, u)
  {
    if n > 0 { TotalIsLoad(p, a, n - 1, u); }
  }

  /** The average cost per thread, truncated towards zero. */
  lemma {:induction false} AverageIs(p: seq<int>, m: nat)
    requires m >= 1
    ensures Total(p, |p|) >= 0 ==> m * Average(p, m) <= Total(p, |p|) < m * Average(p, m) + m
    ensures Total(p, |p|) <= 0 ==> m * Average(p, m) - m < Total(p, |p|) <= m * Average(p, m)
  {
    var total := Total(p, |p|);
    if total >= 0 {
      DivMod(total, m);
    } else {
      DivMod(-total, m);
      assert m * -((-total) / m) == -(m * ((-total) / m));
    }
  }

  /** Filling by type, measured against the total cost: a thread before the last stays within its fair
      share plus one task, and the last one within its share plus less than one unit per thread. */
  lemma {:induction false} FillWithinTotal(p: seq<int>, g: seq<nat>, m: nat, u: nat)
    requires |g| == |p| && u < m && NonNegative(p) && FilledInOrder(p, g, m, Average(p, m))
    ensures m * Load(p, g, |p|, u) <= Total(p, |p|) + m * if u < m - 1 then MaxOf(p) else m - 1
  {
    FillBound(p, g, m, u);
    TotalGrows(p, 0, |p|);
    AverageIs(p, m);
    hide Average, FilledInOrder, Load, Total, MaxOf;
    FairShare(m, Load(p, g, |p|, u), Average(p, m), if u < m - 1 then MaxOf(p) else m - 1, Total(p, |p|));
  }

  lemma FairShare(m: nat, load: int, average: int, more: int, total: int)
    requires load <= average + more && m * average <= total
    ensures m * load <= total + m * more
  {
    TimesMonotone(m, load, average + more);
    assert m * (average + more) == m * average + m * more;
  }

  /** The stretch of a level that a thread gets when it is split evenly. */
  lemma ShareIs(size: nat, m: nat, i: nat, thread: nat)
    requires m >= 1
    ensures InShare(size, m, i, thread) <==> thread < m && size * thread / m <= i < size * (thread + 1) / m
  {
  }

  /** With measurements the priorities are measured costs of paths; without them a task costs 1, so they
      count the tasks of longest paths. */
  lemma {:induction false} UnitCosts(options: Options, ordered: seq<Task>, p: seq<Task>)
    requires forall t :: t in p ==> t in ordered
    ensures PathCost(CostsOf(options, ordered), p) == if options.measured then PathCost(options.cost, p) else |p|
  {
    if p != [] {
      assert p[0] in p && forall t :: t in p[1..] ==> t in p;
      UnitCosts(options, ordered, p[1..]);
    }
  }

  /** The cost of a path is the total of the costs of its tasks. */
  lemma {:induction false} PathCostIsTotal(cost: map<Task, int>, p: seq<Task>, q: seq<int>)
    requires |q| == |p| && forall i :: 0 <= i < |p| ==> p[i] in cost && q[i] == cost[p[i]]
    ensures PathCost(cost, p) == Sum(q)
  {
    if p != [] { PathCostIsTotal(cost, p[1..], q[1..]); }
  }

  function Sum(q: seq<int>): int {
    if q == [] then 0 else q[0] + Sum(q[1..])
  }
}
