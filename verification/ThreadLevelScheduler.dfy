module ThreadLevelScheduler {

  // ThreadLevelScheduler: distributes the tasks of each level over the threads.

  import opened TaskGraph
  import opened Scheduler
  import opened TaskLevels
  import opened LoadBalance
  import opened ThreadPlacement
  import opened TaskEffects
  import ThreadProtocol

  /** b holds each task of a once, and no others. */
  ghost predicate Rearranged(a: seq<Task>, b: seq<Task>) {
    Distinct(b) && forall t :: t in b <==> t in a
  }

  /** std::sort: any order of the list in which the keys do not decrease. */
  method SortBy(tasks: seq<Task>, key: Task -> int) returns (r: seq<Task>)
    requires Distinct(tasks)
    ensures |r| == |tasks| && Rearranged(tasks, r)
    ensures forall i, j :: 0 <= i <= j < |r| ==> key(r[i]) <= key(r[j])
  {
    r := [];
    for n := 0 to |tasks|
      invariant |r| == n && Rearranged(tasks[..n], r)
      invariant forall i, j :: 0 <= i <= j < |r| ==> key(r[i]) <= key(r[j])
    {
      var k := 0;
      while k < |r| && key(r[k]) <= key(tasks[n])
        invariant k <= |r| && forall i :: 0 <= i < k ==> key(r[i]) <= key(tasks[n])
      {
        k := k + 1;
      }
      assert tasks[..n + 1] == tasks[..n] + [tasks[n]] && tasks[n] !in tasks[..n];
      Inserted(r, k, tasks[n]);
      r := r[..k] + [tasks[n]] + r[k..];
    }
    assert tasks[..|tasks|] == tasks;
  }

  lemma Inserted(r: seq<Task>, k: nat, t: Task)
    requires k <= |r| && Distinct(r) && t !in r
    ensures Distinct(r[..k] + [t] + r[k..]) && forall x :: x in r[..k] + [t] + r[k..] <==> x in r || x == t
  {
    var r' := r[..k] + [t] + r[k..];
    InsertedAt(r, k, t);
    forall i, j | 0 <= i < j < |r'| ensures r'[i] != r'[j] {
      if i != k { assert r'[i] in r; }
      if j != k { assert r'[j] in r; }
    }
    forall x ensures x in r' <==> x in r || x == t {
      if x in r {
        var i :| 0 <= i < |r| && r[i] == x;
        assert r'[if i < k then i else i + 1] == x;
      }
      assert r'[k] == t;
    }
  }

  lemma InsertedAt(r: seq<Task>, k: nat, t: Task)
    requires k <= |r|
    ensures var r' := r[..k] + [t] + r[k..];
            |r'| == |r| + 1 && forall i :: 0 <= i < |r'| ==> r'[i] == if i < k then r[i] else if i == k then t
              else r[i - 1]
  {
  }

  /** std::min_element: the first of the smallest. */
  method MinElement(xs: seq<int>) returns (k: nat)
    requires xs != []
    ensures k < |xs| && forall j :: 0 <= j < |xs| ==> xs[k] <= xs[j]
    ensures forall j :: 0 <= j < k ==> xs[k] < xs[j]
  {
    k := 0;
    for i := 1 to |xs|
      invariant k < i && (forall j :: 0 <= j < i ==> xs[k] <= xs[j]) && forall j :: 0 <= j < k ==> xs[k] < xs[j]
    {
      if xs[i] < xs[k] { k := i; }
    }
  }

  /** The costs of the tasks of a list, in list order. */
  function Costs(cost: map<Task, int>, tasks: seq<Task>): (p: seq<int>)
    requires forall t :: t in tasks ==> t in cost
    ensures |p| == |tasks| && forall i :: 0 <= i < |p| ==> p[i] == cost[tasks[i]]
  {
    seq(|tasks|, i requires 0 <= i < |tasks| => cost[tasks[i]])
  }

  lemma {:induction false} LoadPrefix(p: seq<int>, g: seq<nat>, x: nat, n: nat, u: nat)
    requires n <= |p| && n <= |g|
    ensures Load(p, g + [x], n, u) == Load(p, g, n, u)
  {
    if n > 0 { LoadPrefix(p, g, x, n - 1, u); }
  }

  /** The loads after n jobs, and that each job so far went to a least loaded thread. */
  ghost predicate GreedyUpTo(p: seq<int>, g: seq<nat>, totals: seq<int>) {
    && |g| <= |p| && |totals| >= 1
    && (forall i :: 0 <= i < |g| ==> g[i] < |totals| && LeastLoaded(p, g, |totals|, i))
    && forall u :: 0 <= u < |totals| ==> totals[u] == Load(p, g, |g|, u)
  }

  lemma {:induction false} GreedyOneMore(p: seq<int>, g: seq<nat>, totals: seq<int>, k: nat)
    requires GreedyUpTo(p, g, totals) && |g| < |p| && k < |totals|
    requires forall u :: 0 <= u < |totals| ==> totals[k] <= totals[u]
    ensures GreedyUpTo(p, g + [k], totals[k := totals[k] + p[|g|]])
  {
    var g', n := g + [k], |g|;
    forall i | 0 <= i <= n ensures LeastLoaded(p, g', |totals|, i) {
      if i < n { assert LeastLoaded(p, g, |totals|, i); }
      forall u | 0 <= u < |totals| ensures Load(p, g', i, g'[i]) <= Load(p, g', i, u) {
        LoadPrefix(p, g, k, i, u);
        LoadPrefix(p, g, k, i, g'[i]);
      }
    }
    forall u | 0 <= u < |totals| ensures Load(p, g', n + 1, u) == totals[u] + if u == k then p[n] else 0 {
      LoadPrefix(p, g, k, n, u);
    }
  }

  /** After the tasks that were placed before, the first |g| of the list have been scheduled, task i
      on thread g[i] of m. */
  ghost predicate Scheduled(s: ThreadScheduler, before: seq<Task>, at: seq<ThreadProtocol.Slot>, tasks: seq<Task>,
                            g: seq<nat>, m: nat)
    reads s
  {
    && s.Valid() && |s.tempSchedules| == m && |g| <= |tasks|
    && s.order == before + tasks[..|g|] && |at| == |before| && at <= s.at
    && forall i :: 0 <= i < |g| ==> g[i] < m && s.at[|before| + i].thread == g[i]
  }

  method ScheduleNext(s: ThreadScheduler, ghost before: seq<Task>, ghost at: seq<ThreadProtocol.Slot>,
                      ghost tasks: seq<Task>, ghost g: seq<nat>, ghost m: nat, thread: nat, task: Task)
    requires Scheduled(s, before, at, tasks, g, m) && |g| < |tasks| && task == tasks[|g|] && thread < m
    modifies s
    ensures Scheduled(s, before, at, tasks, g + [thread], m)
  {
    s.ScheduleTask(thread, task);
    assert tasks[..|g| + 1] == tasks[..|g|] + [task];
  }

  /** The greedy heuristic: every task in turn goes to the thread with the smallest total so far. */
  method ScheduleGreedy(s: ThreadScheduler, sorted: seq<Task>, cost: map<Task, int>) returns (g: seq<nat>)
    requires s.Valid() && forall t :: t in sorted ==> t in cost
    modifies s
    ensures |g| == |sorted| && Scheduled(s, old(s.order), old(s.at), sorted, g, old(|s.tempSchedules|))
    ensures Greedy(Costs(cost, sorted), g, old(|s.tempSchedules|))
  {
    var m := |s.tempSchedules|;
    var totals := seq(m, u => 0);
    g := [];
    ghost var p := Costs(cost, sorted);
    for i := 0 to |sorted|
      invariant |totals| == m && |g| == i && GreedyUpTo(p, g, totals)
      invariant Scheduled(s, old(s.order), old(s.at), sorted, g, m)
    {
      var k := MinElement(totals);
      ScheduleNext(s, old(s.order), old(s.at), sorted, g, m, k, sorted[i]);
      GreedyOneMore(p, g, totals, k);
      totals, g := totals[k := totals[k] + cost[sorted[i]]], g + [k];
    }
  }

  /** The first task of thread t when a level of that size is split between m threads. */
  function SplitAt(size: nat, t: nat, m: nat): nat
    requires m >= 1
  {
    size * t / m
  }

  predicate InShare(size: nat, m: nat, i: nat, thread: nat) {
    thread < m && SplitAt(size, thread, m) <= i < SplitAt(size, thread + 1, m)
  }

  /** Splitting a level evenly: the threads take consecutive stretches of it. */
  method ScheduleEvenly(s: ThreadScheduler, tasks: seq<Task>) returns (ghost g: seq<nat>)
    requires s.Valid()
    modifies s
    ensures |g| == |tasks| && Scheduled(s, old(s.order), old(s.at), tasks, g, old(|s.tempSchedules|))
    ensures forall i :: 0 <= i < |g| ==> InShare(|tasks|, old(|s.tempSchedules|), i, g[i])
  {
    var m := |s.tempSchedules|;
    hide SplitAt, InShare, Scheduled;
    NothingYet(s, tasks);
    SplitEnds(|tasks|, m);
    g := [];
    for thread := 0 to m
      invariant |g| == SplitAt(|tasks|, thread, m) <= |tasks|
      invariant Scheduled(s, old(s.order), old(s.at), tasks, g, m)
      invariant forall i :: 0 <= i < |g| ==> InShare(|tasks|, m, i, g[i])
    {
      var start, end := SplitAt(|tasks|, thread, m), SplitAt(|tasks|, thread + 1, m);
      SplitGrows(|tasks|, thread, m);
      for idx := start to end
        invariant |g| == idx && Scheduled(s, old(s.order), old(s.at), tasks, g, m)
        invariant forall i :: 0 <= i < |g| ==> InShare(|tasks|, m, i, g[i])
      {
        ScheduleNext(s, old(s.order), old(s.at), tasks, g, m, thread, tasks[idx]);
        ShareHolds(|tasks|, m, idx, thread);
        g := g + [thread];
      }
    }
  }

  lemma ShareHolds(size: nat, m: nat, i: nat, thread: nat)
    requires thread < m && SplitAt(size, thread, m) <= i < SplitAt(size, thread + 1, m)
    ensures InShare(size, m, i, thread)
  {
  }

  /** The numbers of tasks of two threads differ by at most one. */
  lemma {:induction false} SplitEven(size: nat, t: nat, m: nat)
    requires t < m
    ensures size / m <= SplitAt(size, t + 1, m) - SplitAt(size, t, m) <= size / m + if size % m == 0 then 0 else 1
    ensures SplitAt(size, t + 1, m) <= size
  {
    assert size * (t + 1) == size * t + size;
    QuotientGrows(size * t, size, m);
    SplitEnds(size, m);
    TimesMonotone(size, t + 1, m);
    DivMonotone(size * (t + 1), size * m, m);
  }

  lemma SplitGrows(size: nat, t: nat, m: nat)
    requires t < m
    ensures SplitAt(size, t, m) <= SplitAt(size, t + 1, m) <= size
  {
    SplitEven(size, t, m);
  }

  lemma QuotientGrows(x: nat, size: nat, m: nat)
    requires m >= 1
    ensures size / m <= (x + size) / m - x / m <= size / m + if size % m == 0 then 0 else 1
  {
    DivMod(x, m);
    DivMod(size, m);
    DivMod(x + size, m);
    Remainders(m, x / m, x % m, size / m, size % m, (x + size) / m, (x + size) % m);
  }

  lemma DivMod(x: nat, m: nat)
    requires m >= 1
    ensures m * (x / m) + x % m == x && x % m < m && x / m >= 0
  {
  }

  lemma Remainders(m: nat, a: nat, ra: nat, q: nat, r: nat, b: nat, rb: nat)
    requires ra < m && r < m && rb < m && m * a + ra + m * q + r == m * b + rb
    ensures q <= b - a <= q + if r == 0 then 0 else 1
  {
    assert m * (a + q - b) == rb - ra - r;
    if a + q - b >= 1 { TimesMonotone(m, 1, a + q - b); }
    if a + q - b <= -2 { TimesMonotone(m, a + q - b, -2); }
    if a + q - b == -1 && r == 0 { assert false; }
  }

  lemma DivMonotone(x: nat, y: nat, m: nat)
    requires m >= 1 && x <= y
    ensures x / m <= y / m
  {
    var a, b := x / m, y / m;
    assert m * a + x % m == x && m * b + y % m == y;
    assert m * (b + 1) == m * b + m;
    if a > b { TimesMonotone(m, b + 1, a); }
  }

  lemma SplitEnds(size: nat, m: nat)
    requires m >= 1
    ensures SplitAt(size, 0, m) == 0 && SplitAt(size, m, m) == size
  {
    var q, r := size * m / m, size * m % m;
    assert m * (q - size) == -r;
    if q >= size + 1 { TimesMonotone(m, 1, q - size); }
    if q <= size - 1 { TimesMonotone(m, q - size, -1); }
  }

  // ---------------------------------------------------------------- filling thread by thread

  /** Integer division of the costs, which truncates. */
  function Quotient(total: int, m: nat): int
    requires m >= 1
  {
    if total >= 0 then total / m else -((-total) / m)
  }

  method TotalCost(p: seq<int>) returns (total: int)
    ensures total == Total(p, |p|)
  {
    total := 0;
    for i := 0 to |p|
      invariant total == Total(p, i)
    {
      total := total + p[i];
    }
  }

  /** Task i goes to the first thread whose load is below avg at that time, or to the last thread. */
  ghost predicate FirstBelow(p: seq<int>, g: seq<nat>, m: nat, avg: int, i: nat)
    requires i < |g| <= |p|
  {
    && g[i] < m && (forall u: nat :: u < g[i] ==> Load(p, g, i, u) >= avg)
    && (g[i] < m - 1 ==> Load(p, g, i, g[i]) < avg)
  }

  /** The tasks so far went each to the first thread below the average; this determines all g[i]. */
  ghost predicate FilledInOrder(p: seq<int>, g: seq<nat>, m: nat, avg: int) {
    |g| <= |p| && forall i :: 0 <= i < |g| ==> FirstBelow(p, g, m, avg, i)
  }

  /** The threads before u have been filled, and u now has load curTime. */
  ghost predicate Filling(p: seq<int>, g: seq<nat>, u: nat, avg: int, curTime: int) {
    && |g| <= |p| && curTime == Load(p, g, |g|, u) && (forall i :: 0 <= i < |g| ==> g[i] <= u)
    && (|g| < |p| ==> forall v: nat :: v < u ==> Load(p, g, |g|, v) >= avg)
  }

  /** The largest cost, or 0. */
  function MaxOf(p: seq<int>): (r: int)
    ensures r >= 0 && (r == 0 || r in p) && forall i :: 0 <= i < |p| ==> p[i] <= r
  {
    if p == [] then 0 else
    var r := MaxOf(p[..|p| - 1]);
    if r < p[|p| - 1] then p[|p| - 1] else r
  }

  /** No thread but the last exceeds the average by more than one task, and the last one is used only
      when all others have reached it. */
  ghost predicate FilledInTurn(p: seq<int>, g: seq<nat>, m: nat) {
    && m >= 1 && |g| == |p|
    && (forall v: nat :: v < m - 1 ==> Load(p, g, |g|, v) <= Average(p, m) + MaxOf(p))
    && (Load(p, g, |g|, m - 1) > 0 ==> forall v: nat :: v < m - 1 ==> Load(p, g, |g|, v) >= Average(p, m))
  }

  function Average(p: seq<int>, m: nat): int
    requires m >= 1
  {
    Quotient(Total(p, |p|), m)
  }

  lemma {:induction false} FillOne(p: seq<int>, g: seq<nat>, m: nat, u: nat, avg: int, curTime: int)
    requires FilledInOrder(p, g, m, avg) && Filling(p, g, u, avg, curTime) && |g| < |p| && u < m
    requires curTime < avg || u == m - 1
    ensures FilledInOrder(p, g + [u], m, avg) && Filling(p, g + [u], u, avg, curTime + p[|g|])
  {
    var g', n := g + [u], |g|;
    forall i | 0 <= i <= n ensures FirstBelow(p, g', m, avg, i) {
      if i < n { assert FirstBelow(p, g, m, avg, i); }
      forall v: nat ensures Load(p, g', i, v) == Load(p, g, i, v) { LoadPrefix(p, g, u, i, v); }
    }
    forall v: nat ensures Load(p, g', n + 1, v) == Load(p, g, n, v) + if v == u then p[n] else 0 {
      LoadPrefix(p, g, u, n, v);
    }
    assert |g'| == n + 1;
    forall v: nat | v < u && |g'| < |p| ensures Load(p, g', |g'|, v) >= avg { assert Load(p, g, n, v) >= avg; }
  }

  lemma {:induction false} NextThread(p: seq<int>, g: seq<nat>, u: nat, avg: int, curTime: int)
    requires Filling(p, g, u, avg, curTime) && (curTime >= avg || |g| == |p|)
    ensures Filling(p, g, u + 1, avg, 0)
  {
    Untouched(p, g, |g|, u + 1);
  }

  lemma {:induction false} Untouched(p: seq<int>, g: seq<nat>, n: nat, u: nat)
    requires n <= |g| <= |p| && forall i :: 0 <= i < n ==> g[i] != u
    ensures Load(p, g, n, u) == 0
  {
    if n > 0 { Untouched(p, g, n - 1, u); }
  }

  /** Filling with non-negative costs. */
  lemma {:induction false} OrderMeansTurn(p: seq<int>, g: seq<nat>, m: nat)
    requires m >= 1 && NonNegative(p) && |g| == |p| && FilledInOrder(p, g, m, Average(p, m))
    ensures FilledInTurn(p, g, m)
  {
    var avg := Average(p, m);
    TotalGrows(p, 0, |p|);
    assert avg >= 0;
    hide Average;
    forall v: nat | v < m - 1 ensures Load(p, g, |g|, v) <= avg + MaxOf(p) { NotFarAbove(p, g, m, avg, |g|, v); }
    if Load(p, g, |g|, m - 1) > 0 {
      var i := LastUsed(p, g, |g|, m - 1);
      assert FirstBelow(p, g, m, avg, i);
      forall v: nat | v < m - 1 ensures Load(p, g, |g|, v) >= avg { LoadGrows(p, g, i, |g|, v); }
    }
  }

  lemma {:induction false} NotFarAbove(p: seq<int>, g: seq<nat>, m: nat, avg: int, n: nat, v: nat)
    requires NonNegative(p) && FilledInOrder(p, g, m, avg) && n <= |g| && v < m - 1 && avg >= 0
    ensures Load(p, g, n, v) <= avg + MaxOf(p)
  {
    if n > 0 {
      NotFarAbove(p, g, m, avg, n - 1, v);
      assert FirstBelow(p, g, m, avg, n - 1);
    }
  }

  lemma {:induction false} LastUsed(p: seq<int>, g: seq<nat>, n: nat, u: nat) returns (i: nat)
    requires n <= |g| <= |p| && Load(p, g, n, u) > 0
    ensures i < n && g[i] == u
  {
    if g[n - 1] == u { i := n - 1; } else { i := LastUsed(p, g, n - 1, u); }
  }

  /** When the average truncates to 0, or is negative, every task goes to the last thread. */
  lemma {:induction false} AllToTheLast(p: seq<int>, g: seq<nat>, m: nat, avg: int, i: nat)
    requires FilledInOrder(p, g, m, avg) && avg <= 0 && i < |g|
    ensures g[i] == m - 1
  {
    assert FirstBelow(p, g, m, avg, i);
    if g[i] < m - 1 {
      var j := FirstUse(g, i);
      StartsBelow(p, g, m, avg, j);
      assert false;
    }
  }

  lemma StartsBelow(p: seq<int>, g: seq<nat>, m: nat, avg: int, j: nat)
    requires FilledInOrder(p, g, m, avg) && j < |g| && g[j] < m - 1 && forall k :: 0 <= k < j ==> g[k] != g[j]
    ensures avg > 0
  {
    Untouched(p, g, j, g[j]);
    assert FirstBelow(p, g, m, avg, j);
  }

  lemma {:induction false} FirstUse(g: seq<nat>, i: nat) returns (j: nat)
    requires i < |g|
    ensures j <= i && g[j] == g[i] && forall k :: 0 <= k < j ==> g[k] != g[i]
  {
    if k :| 0 <= k < i && g[k] == g[i] { j := FirstUse(g, k); } else { j := i; }
  }

  lemma NothingYet(s: ThreadScheduler, tasks: seq<Task>)
    requires s.Valid()
    ensures Scheduled(s, s.order, s.at, tasks, [], |s.tempSchedules|)
  {
  }

  /** With non-negative costs, a thread before the last exceeds the average by at most one task,
      and the last thread by less than one unit of time per thread. */
  lemma {:induction false} FillBound(p: seq<int>, g: seq<nat>, m: nat, u: nat)
    requires |g| == |p| && u < m && NonNegative(p) && FilledInOrder(p, g, m, Average(p, m))
    ensures Load(p, g, |p|, u) <= Average(p, m) + if u < m - 1 then MaxOf(p) else m - 1
  {
    var avg, total := Average(p, m), Total(p, |p|);
    OrderMeansTurn(p, g, m);
    forall i | 0 <= i < |g| ensures g[i] < m { assert FirstBelow(p, g, m, avg, i); }
    TotalGrows(p, 0, |p|);
    DivMod(total, m);
    var r := total % m;
    assert total == m * avg + r && r < m && avg >= 0;
    hide Average, Quotient;
    if u == m - 1 && Load(p, g, |p|, u) > 0 {
      LoadsSumUp(p, g, |p|, m);
      SumAtLeast(p, g, |p|, m - 1, avg);
      LastShare(m, total, avg, r, LoadSum(p, g, |p|, m - 1), Load(p, g, |p|, m - 1));
    }
  }

  lemma LastShare(m: nat, total: int, avg: int, r: nat, others: int, last: int)
    requires m >= 1 && total == m * avg + r && r < m && others + last == total && others >= (m - 1) * avg
    ensures last <= avg + m - 1
  {
    assert m * avg == (m - 1) * avg + avg;
  }

  /** Filling the threads in turn up to the average, in the order of the list; what remains goes to
      the last thread. */
  method ScheduleFilling(s: ThreadScheduler, sorted: seq<Task>, cost: map<Task, int>) returns (g: seq<nat>)
    requires s.Valid() && forall t :: t in sorted ==> t in cost
    modifies s
    ensures |g| == |sorted| && Scheduled(s, old(s.order), old(s.at), sorted, g, old(|s.tempSchedules|))
    ensures FilledInOrder(Costs(cost, sorted), g, old(|s.tempSchedules|),
                          Average(Costs(cost, sorted), old(|s.tempSchedules|)))
  {
    hide FilledInOrder, Filling, Scheduled;
    NothingYet(s, sorted);
    var m, p := |s.tempSchedules|, Costs(cost, sorted);
    var total := TotalCost(p);
    var avg := Quotient(total, m);
    g := [];
    NothingFilled(p, m, avg);
    for thread := 0 to m
      invariant |g| <= |sorted| && Scheduled(s, old(s.order), old(s.at), sorted, g, m)
      invariant FilledInOrder(p, g, m, avg) && Filling(p, g, thread, avg, 0)
      invariant thread == m ==> |g| < |sorted| ==> Filling(p, g, m - 1, avg, Load(p, g, |g|, m - 1))
    {
      var curTime := 0;
      while curTime < avg && |g| < |sorted|
        invariant |g| <= |sorted| && Scheduled(s, old(s.order), old(s.at), sorted, g, m)
        invariant FilledInOrder(p, g, m, avg) && Filling(p, g, thread, avg, curTime)
        decreases |sorted| - |g|
      {
        FillOne(p, g, m, thread, avg, curTime);
        ScheduleNext(s, old(s.order), old(s.at), sorted, g, m, thread, sorted[|g|]);
        curTime, g := curTime + cost[sorted[|g|]], g + [thread];
      }
      CurrentLoad(p, g, thread, avg, curTime);
      NextThread(p, g, thread, avg, curTime);
    }
    while |g| < |sorted|
      invariant |g| <= |sorted| && Scheduled(s, old(s.order), old(s.at), sorted, g, m)
      invariant FilledInOrder(p, g, m, avg)
      invariant |g| < |sorted| ==> Filling(p, g, m - 1, avg, Load(p, g, |g|, m - 1))
    {
      FillOne(p, g, m, m - 1, avg, Load(p, g, |g|, m - 1));
      CurrentLoad(p, g + [m - 1], m - 1, avg, Load(p, g, |g|, m - 1) + p[|g|]);
      ScheduleNext(s, old(s.order), old(s.at), sorted, g, m, m - 1, sorted[|g|]);
      g := g + [m - 1];
    }
  }

  lemma NothingFilled(p: seq<int>, m: nat, avg: int)
    ensures FilledInOrder(p, [], m, avg) && Filling(p, [], 0, avg, 0)
  {
  }

  lemma CurrentLoad(p: seq<int>, g: seq<nat>, u: nat, avg: int, curTime: int)
    requires Filling(p, g, u, avg, curTime)
    ensures |g| <= |p| && curTime == Load(p, g, |g|, u)
  {
  }

  // ---------------------------------------------------------------- whole schedules

  /** What scheduleLevel leaves: the tasks of the level, sorted by type and filled in, or longest
      first and greedily assigned. */
  ghost predicate LevelDone(tasks: seq<Task>, cost: map<Task, int>, sortTypes: bool, typeKey: Task -> int, r: seq<Task>,
                            g: seq<nat>, m: nat) {
    && Rearranged(tasks, r) && |g| == |r| && (forall t :: t in r ==> t in cost)
    && if sortTypes then
         && (forall i, j :: 0 <= i <= j < |r| ==> typeKey(r[i]) <= typeKey(r[j]))
         && m >= 1 && FilledInOrder(Costs(cost, r), g, m, Average(Costs(cost, r), m))
       else Descending(Costs(cost, r)) && Greedy(Costs(cost, r), g, m)
  }

  method Complete(tasks: seq<Task>, cost: map<Task, int>) returns (ok: bool)
    ensures ok <==> forall t :: t in tasks ==> t in cost
  {
    for i := 0 to |tasks|
      invariant forall j :: 0 <= j < i ==> tasks[j] in cost
    {
      if tasks[i] !in cost {
        assert tasks[i] in tasks;
        return false;
      }
    }
    return true;
  }

  method ScheduleLevel(s: ThreadScheduler, tasks: seq<Task>, cost: map<Task, int>, sortTypes: bool,
                       typeKey: Task -> int)
    returns (ok: bool, ghost r: seq<Task>, ghost g: seq<nat>)
    requires s.Valid() && Distinct(tasks)
    modifies s
    ensures s.Valid() && |s.tempSchedules| == old(|s.tempSchedules|)
    ensures ok <==> forall t :: t in tasks ==> t in cost
    ensures ok ==>
              Scheduled(s, old(s.order), old(s.at), r, g, |s.tempSchedules|) &&
              LevelDone(tasks, cost, sortTypes, typeKey, r, g, |s.tempSchedules|)
    ensures !ok ==> s.order == old(s.order)
  {
    r, g := [], [];
    ok := Complete(tasks, cost);
    if !ok {
    } else if sortTypes {
      var sorted := SortBy(tasks, typeKey);
      g := ScheduleFilling(s, sorted, cost);
      r := sorted;
    } else {
      var sorted := SortBy(tasks, t => if t in cost then -cost[t] else 0);
      g := ScheduleGreedy(s, sorted, cost);
      r := sorted;
    }
  }

  /** The order holds the tasks of the levels below l, in climbing order. */
  ghost predicate PlacedBelow(level: map<Task, nat>, tasks: seq<Task>, order: seq<Task>, l: nat) {
    && Distinct(order) && Climbing(level, order)
    && forall t :: t in order <==> t in tasks && t in level && level[t] < l
  }

  lemma {:induction false} PlaceLevel(level: map<Task, nat>, tasks: seq<Task>, order: seq<Task>, l: nat, r: seq<Task>)
    requires PlacedBelow(level, tasks, order, l) && Distinct(tasks) && forall t :: t in tasks ==> t in level
    requires Rearranged(AtLevel(level, tasks, l), r)
    ensures PlacedBelow(level, tasks, order + r, l + 1)
  {
    LevelsPartition(level, tasks, l);
    DistinctAppend(order, r);
    var all := order + r;
    assert forall i :: 0 <= i < |order| ==> all[i] in order;
    assert forall i :: |order| <= i < |all| ==> all[i] in r;
  }

  /** How createSchedule distributes the tasks: from measured costs, or evenly. */
  datatype Options = Options(measured: bool, cost: map<Task, int>, sortTypes: bool)

  /** How the tasks of a level have been spread over m threads, task i of r on thread g[i]. */
  ghost predicate Distributed(tasks: seq<Task>, options: Options, typeKey: Task -> int, r: seq<Task>, g: seq<nat>,
                              m: nat) {
    && Rearranged(tasks, r) && |g| == |r|
    && if options.measured then LevelDone(tasks, options.cost, options.sortTypes, typeKey, r, g, m)
       else
         && (forall i :: 0 <= i < |g| ==> InShare(|r|, m, i, g[i]))
         && if options.sortTypes then forall i, j :: 0 <= i <= j < |r| ==> typeKey(r[i]) <= typeKey(r[j])
            else r == tasks
  }

  method DistributeLevel(s: ThreadScheduler, tasks: seq<Task>, options: Options, typeKey: Task -> int)
    returns (ok: bool, ghost r: seq<Task>, ghost g: seq<nat>)
    requires s.Valid() && Distinct(tasks)
    modifies s
    ensures s.Valid() && |s.tempSchedules| == old(|s.tempSchedules|)
    ensures ok <==> options.measured ==> forall t :: t in tasks ==> t in options.cost
    ensures ok ==>
              Scheduled(s, old(s.order), old(s.at), r, g, |s.tempSchedules|) &&
              Distributed(tasks, options, typeKey, r, g, |s.tempSchedules|)
  {
    r, g := [], [];
    ok := true;
    if options.measured {
      ok, r, g := ScheduleLevel(s, tasks, options.cost, options.sortTypes, typeKey);
    } else {
      var sorted := tasks;
      if options.sortTypes {
        sorted := SortBy(tasks, typeKey);
      }
      g := ScheduleEvenly(s, sorted);
      r := sorted;
    }
  }

  /** A level as it has been spread over the threads: its tasks in the order of placement, and the
      thread of each. */
  datatype Part = Part(tasks: seq<Task>, threads: seq<nat>)

  function TasksOf(parts: seq<Part>): seq<Task> {
    if parts == [] then [] else TasksOf(parts[..|parts| - 1]) + parts[|parts| - 1].tasks
  }

  function ThreadsOf(parts: seq<Part>): seq<nat> {
    if parts == [] then [] else ThreadsOf(parts[..|parts| - 1]) + parts[|parts| - 1].threads
  }

  /** The placed tasks, level after level, each on the thread that its level assigned to it. */
  ghost predicate OnLevels(s: ThreadScheduler, parts: seq<Part>)
    reads s
  {
    && s.Valid() && s.order == TasksOf(parts) && |ThreadsOf(parts)| == |s.order|
    && forall i :: 0 <= i < |s.order| ==> s.at[i].thread == ThreadsOf(parts)[i]
  }

  ghost predicate LevelsDistributed(inEdges: Edges, ordered: seq<Task>, options: Options, typeKey: Task -> int,
                                    parts: seq<Part>, m: nat) {
    forall l :: 0 <= l < |parts| ==>
      Distributed(AtLevel(Levels(inEdges, ordered), ordered, l), options, typeKey, parts[l].tasks, parts[l].threads, m)
  }

  lemma {:induction false} LevelPlaced(s: ThreadScheduler, parts: seq<Part>, part: Part, before: seq<Task>,
                                       at: seq<ThreadProtocol.Slot>)
    requires before == TasksOf(parts) && |at| == |ThreadsOf(parts)| == |before| && |part.threads| == |part.tasks|
    requires forall i :: 0 <= i < |at| ==> at[i].thread == ThreadsOf(parts)[i]
    requires Scheduled(s, before, at, part.tasks, part.threads, |s.tempSchedules|)
    ensures OnLevels(s, parts + [part])
  {
    assert (parts + [part])[..|parts|] == parts && part.tasks[..|part.tasks|] == part.tasks;
  }

  /** Longest first within a level: no distribution of its tasks within cost c per thread is better
      than the greedy one by more than the factor 4/3 - 1/(3m). */
  lemma {:induction false} LevelWithinBound(tasks: seq<Task>, cost: map<Task, int>, typeKey: Task -> int, r: seq<Task>,
                                            g: seq<nat>, m: nat, f: seq<nat>, c: int, u: nat)
    requires LevelDone(tasks, cost, false, typeKey, r, g, m) && NonNegative(Costs(cost, r)) && u < m
    requires Fits(Costs(cost, r), f, m, c)
    ensures 3 * m * Load(Costs(cost, r), g, |g|, u) <= (4 * m - 1) * c
  {
    LongestFirstBound(Costs(cost, r), g, f, m, |g|, c, u);
  }

  /** Some task has to be needed: the number of levels is taken from the last sorted task. */
  ghost predicate SomethingNeeded(inEdges: Edges, root: Task) {
    exists x :: x in Get(inEdges, root)
  }

  /** What both thread schedulers return: the needed tasks, each placed once, after those it
      depends on, and entries that wait for these. */
  ghost predicate ScheduleOk(s: ThreadScheduler, inEdges: Edges, root: Task, sch: ThreadProtocol.Schedule)
    reads s
  {
    && s.Valid() && Distinct(s.order) && Respects(inEdges, s.order)
    && (forall t :: t in s.order <==> Needed(inEdges, root, t) && t != root)
    && Describes(sch, s.tempSchedules, inEdges) && ThreadProtocol.WellFormed(sch)
  }

  /** The calls of step that have returned, on either schedule and in any interleaving, left the
      attributes as the sequential scheduler leaves them with its own sorted list. */
  lemma {:induction false} ScheduledRunIsSequential(s: ThreadScheduler, inEdges: Edges, root: Task,
                                                    sch: ThreadProtocol.Schedule, sorted: seq<Task>, body: Body,
                                                    fp: Footprint, state: ThreadProtocol.State, n: nat, st: Store)
    requires ScheduleOk(s, inEdges, root, sch) && IsSort(inEdges, root, sorted)
    requires Honours(body, fp) && ConflictsJoined(inEdges, fp, sorted)
    requires ThreadProtocol.Reachable(sch, state) && n <= |state.past|
    ensures |state.past| <= |state.times|
    ensures forall k, e :: 0 <= k < |state.past| && 0 <= e < |state.past[k]| ==>
              ThreadProtocol.IsSlot(sch, state.past[k][e].slot)
    ensures Parallel(body, sch, state.past, state.times, n, st) == Sequential(body, sorted, state.times, n, st)
  {
    hide ThreadProtocol.Reachable, ThreadProtocol.WellFormed, Honours, ConflictsJoined, Placed, Describes, Respects,
         Distinct, Climbing, Levels;
    ParallelIsSequential(body, fp, sch, s.tempSchedules, s.order, s.at, inEdges, sorted, state, n, st);
  }

  ghost predicate CostsMissing(inEdges: Edges, root: Task, options: Options) {
    options.measured && exists t :: Needed(inEdges, root, t) && t != root && t !in options.cost
  }

  lemma NoLevel(s: ThreadScheduler, inEdges: Edges, ordered: seq<Task>, options: Options, typeKey: Task -> int)
    requires s.Valid() && s.order == []
    ensures OnLevels(s, []) && PlacedBelow(Levels(inEdges, ordered), ordered, s.order, 0)
    ensures LevelsDistributed(inEdges, ordered, options, typeKey, [], |s.tempSchedules|)
  {
  }

  /** One more level. */
  lemma {:induction false} NextLevel(s: ThreadScheduler, parts: seq<Part>, part: Part, before: seq<Task>,
                                     at: seq<ThreadProtocol.Slot>, inEdges: Edges, ordered: seq<Task>, options: Options,
                                     typeKey: Task -> int)
    requires before == TasksOf(parts) && |at| == |ThreadsOf(parts)| == |before|
    requires forall i :: 0 <= i < |at| ==> at[i].thread == ThreadsOf(parts)[i]
    requires Scheduled(s, before, at, part.tasks, part.threads, |s.tempSchedules|)
    requires Distributed(AtLevel(Levels(inEdges, ordered), ordered, |parts|), options, typeKey, part.tasks,
                         part.threads, |s.tempSchedules|)
    requires LevelsDistributed(inEdges, ordered, options, typeKey, parts, |s.tempSchedules|)
    requires PlacedBelow(Levels(inEdges, ordered), ordered, before, |parts|)
    requires Distinct(ordered) && forall t :: t in ordered ==> t in Levels(inEdges, ordered)
    ensures OnLevels(s, parts + [part]) && PlacedBelow(Levels(inEdges, ordered), ordered, s.order, |parts| + 1)
    ensures LevelsDistributed(inEdges, ordered, options, typeKey, parts + [part], |s.tempSchedules|)
  {
    hide Levels, AtLevel, LevelDone, PlacedBelow, Distinct;
    assert part.tasks[..|part.threads|] == part.tasks;
    LevelPlaced(s, parts, part, before, at);
    PlaceLevel(Levels(inEdges, ordered), ordered, before, |parts|, part.tasks);
  }

  /** The loop of createSchedule over the levels. */
  method DistributeLevels(s: ThreadScheduler, levels: seq<seq<Task>>, ghost inEdges: Edges, ghost ordered: seq<Task>,
                          options: Options, typeKey: Task -> int)
    returns (ok: bool, ghost parts: seq<Part>)
    requires s.Valid() && s.order == [] && Distinct(ordered) && forall t :: t in ordered ==>
               t in Levels(inEdges, ordered)
    requires forall l :: 0 <= l < |levels| ==> levels[l] == AtLevel(Levels(inEdges, ordered), ordered, l)
    requires forall t :: t in ordered ==> Levels(inEdges, ordered)[t] < |levels|
    modifies s
    ensures ok <==> options.measured ==> forall t :: t in ordered ==> t in options.cost
    ensures ok ==> PlacedBelow(Levels(inEdges, ordered), ordered, s.order, |levels|)
    ensures ok ==>
              OnLevels(s, parts) && LevelsDistributed(inEdges, ordered, options, typeKey, parts, old(|s.tempSchedules|))
  {
    hide LevelDone, Distributed, InShare, AtLevel, Levels, Scheduled, TasksOf, ThreadsOf, LevelsDistributed, Climbing;
    parts := [];
    NoLevel(s, inEdges, ordered, options, typeKey);
    ghost var level := Levels(inEdges, ordered);
    for l := 0 to |levels|
      invariant |parts| == l && |s.tempSchedules| == old(|s.tempSchedules|) && PlacedBelow(level, ordered, s.order, l)
      invariant OnLevels(s, parts) && LevelsDistributed(inEdges, ordered, options, typeKey, parts, |s.tempSchedules|)
      invariant options.measured ==> forall t :: t in ordered && level[t] < l ==> t in options.cost
    {
      LevelsPartition(level, ordered, l);
      ghost var before, at := s.order, s.at;
      var done, rearranged, g := DistributeLevel(s, levels[l], options, typeKey);
      if !done {
        return false, parts;
      }
      NextLevel(s, parts, Part(rearranged, g), before, at, inEdges, ordered, options, typeKey);
      parts := parts + [Part(rearranged, g)];
    }
    return true, parts;
  }

  method CreateSchedule(s: ThreadScheduler, tasks: seq<Task>, inEdges: Edges, outEdges: Edges, root: Task,
                        options: Options, typeKey: Task -> int)
    returns (r: Result<ThreadProtocol.Schedule>, ghost ordered: seq<Task>, ghost parts: seq<Part>)
    requires s.Valid() && s.order == []
    requires IsGraph(tasks, inEdges, outEdges, root) && SomethingNeeded(inEdges, root)
    modifies s
    ensures r.Ok? <==> !HasCycle(inEdges) && !CostsMissing(inEdges, root, options)
    ensures r.Ok? ==> ScheduleOk(s, inEdges, root, r.value) && IsSort(inEdges, root, ordered)
    ensures r.Ok? ==>
              OnLevels(s, parts) && LevelsDistributed(inEdges, ordered, options, typeKey, parts, old(|s.tempSchedules|))
  {
    hide Levels, HasCycle, Describes, ThreadProtocol.WellFormed, LevelsDistributed, IsGraph;
    ordered, parts := [], [];
    var sort := TopologicalSort(tasks, inEdges, outEdges, root);
    if sort.SchedulingException? {
      r := SchedulingException;
      return;
    }
    var sorted := sort.value;
    ordered := sorted;
    NotEmpty(tasks, inEdges, outEdges, root, ordered);
    var levels := LevelSchedule(sorted, inEdges);
    LevelsDomain(inEdges, ordered);
    var ok;
    ok, parts := DistributeLevels(s, levels, inEdges, ordered, options, typeKey);
    if !ok {
      r := SchedulingException;
      return;
    }
    ClimbingRespects(inEdges, ordered, s.order);
    var sch := s.FinishSchedule(inEdges);
    r := Ok(sch);
  }

  lemma {:induction false} NotEmpty(tasks: seq<Task>, inEdges: Edges, outEdges: Edges, root: Task, ordered: seq<Task>)
    requires IsGraph(tasks, inEdges, outEdges, root) && SomethingNeeded(inEdges, root) && IsSort(inEdges, root, ordered)
    ensures ordered != []
  {
    var x :| x in Get(inEdges, root);
    assert HasEdge(inEdges, x, root);
    assert IsPath(inEdges, [root]) && Needed(inEdges, root, root);
    NeededBack(inEdges, root, x, root);
    RootIsSink(tasks, inEdges, outEdges, root, root);
    assert x in ordered;
  }
}
