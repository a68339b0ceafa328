module LoadBalance {

  // Greedy assignment of jobs to threads, as both thread schedulers do it: how far from the best
  // possible distribution it can be.

  /** The load of thread u from the first n jobs; job i costs p[i] and runs on thread a[i]. */
  function Load(p: seq<int>, a: seq<nat>, n: nat, u: nat): int
    requires n <= |p| && n <= |a|
  {
    if n == 0 then 0 else Load(p, a, n - 1, u) + if a[n - 1] == u then p[n - 1] else 0
  }

  /** How many of the first n jobs run on thread u. */
  function Jobs(a: seq<nat>, n: nat, u: nat): nat
    requires n <= |a|
  {
    if n == 0 then 0 else Jobs(a, n - 1, u) + if a[n - 1] == u then 1 else 0
  }

  function Total(p: seq<int>, n: nat): int
    requires n <= |p|
  {
    if n == 0 then 0 else Total(p, n - 1) + p[n - 1]
  }

  /** An assignment of jobs to m threads. */
  predicate Assigns(p: seq<int>, a: seq<nat>, m: nat) {
    |a| == |p| && m >= 1 && forall i :: 0 <= i < |a| ==> a[i] < m
  }

  predicate LeastLoaded(p: seq<int>, g: seq<nat>, m: nat, i: nat)
    requires i < |p| && i < |g|
  {
    forall u :: 0 <= u < m ==> Load(p, g, i, g[i]) <= Load(p, g, i, u)
  }

  /** Every job goes to a thread with the smallest load at that time. */
  predicate Greedy(p: seq<int>, g: seq<nat>, m: nat) {
    Assigns(p, g, m) && forall i :: 0 <= i < |g| ==> LeastLoaded(p, g, m, i)
  }

  /** Within capacity c on every thread. */
  predicate Fits(p: seq<int>, a: seq<nat>, m: nat, c: int) {
    Assigns(p, a, m) && forall u :: 0 <= u < m ==> Load(p, a, |p|, u) <= c
  }

  predicate NonNegative(p: seq<int>) {
    forall i :: 0 <= i < |p| ==> p[i] >= 0
  }

  predicate Descending(p: seq<int>) {
    forall i, j :: 0 <= i <= j < |p| ==> p[i] >= p[j]
  }

  // ---------------------------------------------------------------- sums over the threads

  /** The sum of the loads of threads 0..m-1. */
  function LoadSum(p: seq<int>, a: seq<nat>, n: nat, m: nat): int
    requires n <= |p| && n <= |a|
  {
    if m == 0 then 0 else LoadSum(p, a, n, m - 1) + Load(p, a, n, m - 1)
  }

  lemma {:induction false} LoadSumStep(p: seq<int>, a: seq<nat>, n: nat, m: nat)
    requires 0 < n <= |p| && n <= |a|
    ensures LoadSum(p, a, n, m) == LoadSum(p, a, n - 1, m) + if a[n - 1] < m then p[n - 1] else 0
  {
    if m > 0 { LoadSumStep(p, a, n, m - 1); }
  }

  /** Conservation: the loads add up to the total cost. */
  lemma {:induction false} LoadsSumUp(p: seq<int>, a: seq<nat>, n: nat, m: nat)
    requires Assigns(p, a, m) && n <= |p|
    ensures LoadSum(p, a, n, m) == Total(p, n)
  {
    if n > 0 {
      LoadsSumUp(p, a, n - 1, m);
      LoadSumStep(p, a, n, m);
    } else {
      NoLoad(p, a, m);
    }
  }

  lemma {:induction false} NoLoad(p: seq<int>, a: seq<nat>, m: nat)
    ensures LoadSum(p, a, 0, m) == 0
  {
    if m > 0 { NoLoad(p, a, m - 1); }
  }

  lemma {:induction false} SumAtLeast(p: seq<int>, a: seq<nat>, n: nat, m: nat, x: int)
    requires n <= |p| && n <= |a| && forall u :: 0 <= u < m ==> x <= Load(p, a, n, u)
    ensures m * x <= LoadSum(p, a, n, m)
  {
    if m > 0 {
      SumAtLeast(p, a, n, m - 1, x);
      assert m * x == (m - 1) * x + x;
    }
  }

  lemma {:induction false} SumAtMost(p: seq<int>, a: seq<nat>, n: nat, m: nat, x: int)
    requires n <= |p| && n <= |a| && forall u :: 0 <= u < m ==> Load(p, a, n, u) <= x
    ensures LoadSum(p, a, n, m) <= m * x
  {
    if m > 0 {
      SumAtMost(p, a, n, m - 1, x);
      assert m * x == (m - 1) * x + x;
    }
  }

  lemma {:induction false} TotalGrows(p: seq<int>, n: nat, n': nat)
    requires NonNegative(p) && n <= n' <= |p|
    ensures Total(p, n) <= Total(p, n')
  {
    if n < n' { TotalGrows(p, n, n' - 1); }
  }

  lemma {:induction false} LoadGrows(p: seq<int>, a: seq<nat>, n: nat, n': nat, u: nat)
    requires NonNegative(p) && n <= n' <= |p| && n' <= |a|
    ensures Load(p, a, n, u) <= Load(p, a, n', u)
  {
    if n < n' { LoadGrows(p, a, n, n' - 1, u); }
  }

  // ---------------------------------------------------------------- the bound for any order

  /** The load a job finds is at most the average so far. */
  lemma {:induction false} BelowAverage(p: seq<int>, g: seq<nat>, m: nat, n: nat)
    requires Greedy(p, g, m) && n < |p|
    ensures m * Load(p, g, n, g[n]) <= Total(p, n)
  {
    LoadsSumUp(p, g, n, m);
    assert LeastLoaded(p, g, m, n);
    SumAtLeast(p, g, n, m, Load(p, g, n, g[n]));
  }

  /** Graham's bound: m times the load of any thread is at most the total plus m - 1 times the
      largest job. */
  lemma {:induction false} GreedyBound(p: seq<int>, g: seq<nat>, m: nat, n: nat, u: nat, largest: int)
    requires Greedy(p, g, m) && NonNegative(p) && n <= |p| && u < m
    requires largest >= 0 && forall i :: 0 <= i < |p| ==> p[i] <= largest
    ensures m * Load(p, g, n, u) <= Total(p, n) + (m - 1) * largest
  {
    if n == 0 {
      assert (m - 1) * largest >= 0;
    } else {
      GreedyBound(p, g, m, n - 1, u, largest);
      if g[n - 1] == u {
        BelowAverage(p, g, m, n - 1);
        AddJob(m, Load(p, g, n - 1, u), p[n - 1], largest);
      }
    }
  }

  lemma AddJob(m: nat, load: int, job: int, largest: int)
    requires m >= 1 && job <= largest
    ensures m * (load + job) <= m * load + job + (m - 1) * largest
  {
    assert m * (load + job) == m * load + job + (m - 1) * job;
    assert (m - 1) * job <= (m - 1) * largest;
  }

  // ---------------------------------------------------------------- the bound for descending jobs

  /** A job of at most a third of the capacity c of another assignment that fits. */
  lemma {:induction false} SmallJob(p: seq<int>, g: seq<nat>, f: seq<nat>, m: nat, n: nat, c: int)
    requires Greedy(p, g, m) && NonNegative(p) && Fits(p, f, m, c) && n < |p| && 3 * p[n] <= c
    ensures 3 * m * (Load(p, g, n, g[n]) + p[n]) <= (4 * m - 1) * c
  {
    BelowAverage(p, g, m, n);
    LoadsSumUp(p, f, |p|, m);
    SumAtMost(p, f, |p|, m, c);
    TotalGrows(p, n + 1, |p|);
    ThirdOfCapacity(m, Load(p, g, n, g[n]), p[n], c);
  }

  lemma ThirdOfCapacity(m: nat, load: int, job: int, c: int)
    requires m >= 1 && m * load + job <= m * c && 3 * job <= c
    ensures 3 * m * (load + job) <= (4 * m - 1) * c
  {
    assert 3 * m * (load + job) == 3 * (m * load + job) + (m - 1) * (3 * job);
    TimesMonotone(m - 1, 3 * job, c);
    assert 3 * (m * c) + (m - 1) * c == (4 * m - 1) * c;
  }

  lemma WithinCapacity(m: nat, load: int, c: int)
    requires m >= 1 && load <= c && c >= 0
    ensures 3 * m * load <= (4 * m - 1) * c
  {
    TimesMonotone(3 * m, load, c);
    TimesMonotone(m - 1, 0, c);
    assert (4 * m - 1) * c == 3 * m * c + (m - 1) * c;
  }

  lemma TimesMonotone(k: nat, x: int, y: int)
    requires x <= y
    ensures k * x <= k * y
  {
  }

  /** Jobs of more than a third of c each. */
  predicate Large(p: seq<int>, n: nat, c: int)
    requires n <= |p|
  {
    forall i :: 0 <= i < n ==> 3 * p[i] > c
  }

  lemma {:induction false} LargeLoads(p: seq<int>, a: seq<nat>, n: nat, u: nat, c: int)
    requires n <= |p| && n <= |a| && Large(p, n, c)
    ensures 3 * Load(p, a, n, u) >= Jobs(a, n, u) * (c + 1)
  {
    if n > 0 {
      LargeLoads(p, a, n - 1, u, c);
      assert (Jobs(a, n - 1, u) + 1) * (c + 1) == Jobs(a, n - 1, u) * (c + 1) + (c + 1);
    }
  }

  /** No thread that stays within c holds three of them. */
  lemma {:induction false} AtMostTwo(p: seq<int>, a: seq<nat>, n: nat, u: nat, c: int)
    requires n <= |p| && n <= |a| && Large(p, n, c) && Load(p, a, n, u) <= c && c >= 0
    ensures Jobs(a, n, u) <= 2
  {
    LargeLoads(p, a, n, u, c);
    var j := Jobs(a, n, u);
    assert j == 3 + (j - 3) && j * (c + 1) == 3 * (c + 1) + (j - 3) * (c + 1);
  }

  /** The one job of a thread that has one. */
  lemma {:induction false} OnlyJob(p: seq<int>, a: seq<nat>, n: nat, u: nat) returns (k: nat)
    requires n <= |p| && n <= |a| && Jobs(a, n, u) == 1
    ensures k < n && a[k] == u && Load(p, a, n, u) == p[k]
    ensures forall i :: 0 <= i < n && a[i] == u ==> i == k
  {
    if a[n - 1] == u {
      NoJobs(p, a, n - 1, u);
      k := n - 1;
    } else {
      k := OnlyJob(p, a, n - 1, u);
    }
  }

  lemma {:induction false} NoJobs(p: seq<int>, a: seq<nat>, n: nat, u: nat)
    requires n <= |p| && n <= |a| && Jobs(a, n, u) == 0
    ensures Load(p, a, n, u) == 0 && forall i :: 0 <= i < n ==> a[i] != u
  {
    if n > 0 { NoJobs(p, a, n - 1, u); }
  }

  /** A thread with a second job besides job k carries at least both. */
  lemma {:induction false} SecondJob(p: seq<int>, a: seq<nat>, n: nat, k: nat) returns (i: nat)
    requires n <= |p| && n <= |a| && NonNegative(p) && k < n && Jobs(a, n, a[k]) >= 2
    ensures i < n && i != k && a[i] == a[k] && Load(p, a, n, a[k]) >= p[i] + p[k]
  {
    if a[n - 1] != a[k] {
      i := SecondJob(p, a, n - 1, k);
    } else if n - 1 == k {
      i := SomeJob(p, a, n - 1, a[k]);
    } else {
      i := n - 1;
      LoadHolds(p, a, n - 1, k);
    }
  }

  lemma {:induction false} SomeJob(p: seq<int>, a: seq<nat>, n: nat, u: nat) returns (i: nat)
    requires n <= |p| && n <= |a| && NonNegative(p) && Jobs(a, n, u) >= 1
    ensures i < n && a[i] == u && Load(p, a, n, u) >= p[i]
  {
    if a[n - 1] == u {
      i := n - 1;
      LoadHolds(p, a, n, i);
    } else {
      i := SomeJob(p, a, n - 1, u);
    }
  }

  lemma {:induction false} LoadHolds(p: seq<int>, a: seq<nat>, n: nat, k: nat)
    requires n <= |p| && n <= |a| && NonNegative(p) && k < n
    ensures Load(p, a, n, a[k]) >= p[k]
  {
    LoadGrows(p, a, 0, k, a[k]);
    LoadGrows(p, a, k + 1, n, a[k]);
  }

  /** The threads below m that hold at most one job. */
  function Singles(a: seq<nat>, n: nat, m: nat): set<nat>
    requires n <= |a|
  {
    set u: nat | u < m && Jobs(a, n, u) <= 1
  }

  function JobSum(a: seq<nat>, n: nat, m: nat): nat
    requires n <= |a|
  {
    if m == 0 then 0 else JobSum(a, n, m - 1) + Jobs(a, n, m - 1)
  }

  lemma {:induction false} JobSumStep(a: seq<nat>, n: nat, m: nat)
    requires 0 < n <= |a|
    ensures JobSum(a, n, m) == JobSum(a, n - 1, m) + if a[n - 1] < m then 1 else 0
  {
    if m > 0 { JobSumStep(a, n, m - 1); }
  }

  lemma {:induction false} JobsSumUp(a: seq<nat>, n: nat, m: nat)
    requires n <= |a| && forall i :: 0 <= i < |a| ==> a[i] < m
    ensures JobSum(a, n, m) == n
  {
    if n > 0 {
      JobsSumUp(a, n - 1, m);
      JobSumStep(a, n, m);
    } else {
      NoJobSum(a, m);
    }
  }

  lemma {:induction false} NoJobSum(a: seq<nat>, m: nat)
    ensures JobSum(a, 0, m) == 0
  {
    if m > 0 { NoJobSum(a, m - 1); }
  }

  /** Where no thread holds more than two jobs, the singles limit their number; where every thread
      holds one or two, they determine it. */
  lemma {:induction false} SinglesLimit(a: seq<nat>, n: nat, m: nat)
    requires n <= |a| && forall u :: 0 <= u < m ==> Jobs(a, n, u) <= 2
    ensures JobSum(a, n, m) <= 2 * m - |Singles(a, n, m)|
    ensures (forall u :: 0 <= u < m ==> Jobs(a, n, u) >= 1) ==> JobSum(a, n, m) == 2 * m - |Singles(a, n, m)|
  {
    if m > 0 {
      SinglesLimit(a, n, m - 1);
      assert Singles(a, n, m) == Singles(a, n, m - 1) + if Jobs(a, n, m - 1) <= 1 then {m - 1} else {};
    } else {
      assert Singles(a, n, m) == {};
    }
  }

  lemma {:induction false} Injection(xs: set<nat>, ys: set<nat>, f: map<nat, nat>)
    requires forall x :: x in xs ==> x in f && f[x] in ys
    requires forall x, x' :: x in xs && x' in xs && f[x] == f[x'] ==> x == x'
    ensures |xs| <= |ys|
  {
    if xs != {} {
      var x :| x in xs;
      Injection(xs - {x}, ys - {f[x]}, f);
    }
  }

  /** While every thread already holds one or two large jobs and the least loaded one has no room
      for job n, the jobs that are alone are alone in any assignment that fits. */
  lemma {:induction false} AloneToo(p: seq<int>, g: seq<nat>, f: seq<nat>, m: nat, n: nat, c: int, u: nat)
    returns (k: nat)
    requires Greedy(p, g, m) && NonNegative(p) && Descending(p) && Fits(p, f, m, c) && n < |p|
    requires u < m && Jobs(g, n, u) == 1 && Load(p, g, n, g[n]) + p[n] > c
    ensures k < n && g[k] == u && f[k] in Singles(f, n + 1, m)
    ensures forall i :: 0 <= i <= n && f[i] == f[k] ==> i == k
  {
    k := OnlyJob(p, g, n, u);
    assert LeastLoaded(p, g, m, n);
    assert p[k] + p[n] > c;
    if i :| 0 <= i <= n && f[i] == f[k] && i != k {
      TwoJobs(p, f, n + 1, k, i);
      LoadGrows(p, f, n + 1, |p|, f[k]);
      assert false;
    }
    if Jobs(f, n + 1, f[k]) >= 2 {
      var i := SecondJob(p, f, n + 1, k);
      assert false;
    }
  }

  lemma {:induction false} TwoJobs(p: seq<int>, a: seq<nat>, n: nat, k: nat, i: nat)
    requires n <= |p| && n <= |a| && NonNegative(p) && k < n && i < n && i != k && a[i] == a[k]
    ensures Load(p, a, n, a[k]) >= p[i] + p[k]
  {
    var first, second := if i < k then i else k, if i < k then k else i;
    LoadHolds(p, a, second, first);
    LoadGrows(p, a, second + 1, n, a[k]);
  }

  /** Counting the jobs: they would not all fit into c. */
  lemma {:induction false} NoRoom(p: seq<int>, g: seq<nat>, f: seq<nat>, m: nat, n: nat, c: int)
    requires Greedy(p, g, m) && NonNegative(p) && Descending(p) && Fits(p, f, m, c) && n < |p| && c >= 0
    requires Large(p, n + 1, c) && forall u :: 0 <= u < m ==> 1 <= Jobs(g, n, u) <= 2
    ensures Load(p, g, n, g[n]) + p[n] <= c
  {
    if Load(p, g, n, g[n]) + p[n] > c {
      var alone: map<nat, nat> := map[];
      var u: nat := 0;
      while u < m
        invariant u <= m
        invariant forall x: nat :: x in alone <==> x < u && Jobs(g, n, x) == 1
        invariant forall x :: x in alone ==> alone[x] in Singles(f, n + 1, m) && AloneAt(g, f, n, x, alone[x])
      {
        if Jobs(g, n, u) == 1 {
          var k := AloneToo(p, g, f, m, n, c, u);
          assert AloneAt(g, f, n, u, f[k]);
          alone := alone[u := f[k]];
        }
        u := u + 1;
      }
      Injection(Singles(g, n, m), Singles(f, n + 1, m), alone);
      var n' := n + 1;
      forall u | 0 <= u < m ensures Jobs(f, n', u) <= 2 {
        LoadGrows(p, f, n', |p|, u);
        AtMostTwo(p, f, n', u, c);
      }
      SinglesLimit(g, n, m);
      SinglesLimit(f, n + 1, m);
      JobsSumUp(g, n, m);
      JobsSumUp(f, n + 1, m);
      assert false;
    }
  }

  /** Some job of thread u under g is the only one of thread v under f. */
  ghost predicate AloneAt(g: seq<nat>, f: seq<nat>, n: nat, u: nat, v: nat)
    requires n < |g| && n < |f|
  {
    exists k :: 0 <= k < n && g[k] == u && f[k] == v && forall i :: 0 <= i <= n && f[i] == v ==> i == k
  }

  /** Large jobs are spread within c. */
  lemma {:induction false} LargeJobs(p: seq<int>, g: seq<nat>, f: seq<nat>, m: nat, n: nat, c: int, u: nat)
    requires Greedy(p, g, m) && NonNegative(p) && Descending(p) && Fits(p, f, m, c) && n <= |p| && c >= 0
    requires Large(p, n, c) && u < m
    ensures Load(p, g, n, u) <= c
    decreases n
  {
    if n > 0 {
      var i := n - 1;
      LargeJobs(p, g, f, m, i, c, u);
      if g[i] == u {
        if v :| 0 <= v < m && Jobs(g, i, v) == 0 {
          NoJobs(p, g, i, v);
          assert LeastLoaded(p, g, m, i);
          LoadHolds(p, f, |p|, i);
        } else {
          forall v | 0 <= v < m ensures 1 <= Jobs(g, i, v) <= 2 {
            LargeJobs(p, g, f, m, i, c, v);
            AtMostTwo(p, g, i, v, c);
          }
          NoRoom(p, g, f, m, i, c);
        }
      }
    }
  }

  /** Graham's bound for jobs in descending order: no thread exceeds 4/3 - 1/(3m) of the capacity
      that any other assignment, hence also the best one, needs. */
  lemma {:induction false} LongestFirstBound(p: seq<int>, g: seq<nat>, f: seq<nat>, m: nat, n: nat, c: int, u: nat)
    requires Greedy(p, g, m) && NonNegative(p) && Descending(p) && Fits(p, f, m, c) && n <= |p| && u < m
    ensures 3 * m * Load(p, g, n, u) <= (4 * m - 1) * c
  {
    LoadGrows(p, f, 0, |p|, 0);
    assert c >= 0;
    if n == 0 {
    } else if 3 * p[n - 1] > c {
      LargeJobs(p, g, f, m, n, c, u);
      WithinCapacity(m, Load(p, g, n, u), c);
    } else {
      LongestFirstBound(p, g, f, m, n - 1, c, u);
      if g[n - 1] == u { SmallJob(p, g, f, m, n - 1, c); }
    }
  }
}
