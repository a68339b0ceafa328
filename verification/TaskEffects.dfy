module TaskEffects {

  // What a schedule does to the attributes: any order of the tasks that respects the dependency
  // edges leaves the same attribute values, provided that tasks which touch a common attribute,
  // one of them writing it, are joined by a path of edges.

  import opened TaskGraph

  /** All attribute values, by attribute number. */
  type Store = seq<int>

  /** Task::execute(time, timeStepCount) as a function of the store. */
  type Body = (Task, real, int, Store) -> Store

  /** The attributes that each task reads and writes. */
  datatype Footprint = Footprint(read: map<Task, set<nat>>, write: map<Task, set<nat>>)

  function Of(m: map<Task, set<nat>>, x: Task): set<nat> {
    if x in m then m[x] else {}
  }

  predicate AgreeOn(attrs: set<nat>, st: Store, st': Store) {
    |st| == |st'| && forall a :: 0 <= a < |st| && a in attrs ==> st[a] == st'[a]
  }

  predicate Unchanged(attrs: set<nat>, st: Store, st': Store) {
    |st| == |st'| && forall a :: 0 <= a < |st| && a !in attrs ==> st[a] == st'[a]
  }

  /** A task changes only what it writes, and what it writes depends only on what it reads. */
  ghost predicate Honours(body: Body, fp: Footprint) {
    && (forall x, time, k, st :: Unchanged(Of(fp.write, x), st, body(x, time, k, st)))
    && (forall x, time, k, st, st' :: AgreeOn(Of(fp.read, x), st, st') ==>
          AgreeOn(Of(fp.write, x), body(x, time, k, st), body(x, time, k, st')))
  }

  predicate Conflict(fp: Footprint, x: Task, y: Task) {
    || !(Of(fp.write, x) !! Of(fp.read, y) + Of(fp.write, y))
    || !(Of(fp.write, y) !! Of(fp.read, x))
  }

  ghost predicate ConflictsJoined(inEdges: Edges, fp: Footprint, tasks: seq<Task>) {
    forall x, y :: x in tasks && y in tasks && x != y && Conflict(fp, x, y) ==>
      Leads(inEdges, x, y) || Leads(inEdges, y, x)
  }

  function Effect(body: Body, order: seq<Task>, time: real, k: int, st: Store): Store
  {
    if order == [] then st else Effect(body, order[1..], time, k, body(order[0], time, k, st))
  }

  /** SequentialScheduler::step. */
  method SequentialStep(body: Body, schedule: seq<Task>, time: real, k: int, st: Store) returns (st': Store)
    ensures st' == Effect(body, schedule, time, k, st)
  {
    st' := st;
    for i := 0 to |schedule|
      invariant Effect(body, schedule[i..], time, k, st') == Effect(body, schedule, time, k, st)
    {
      assert schedule[i..][1..] == schedule[i + 1..];
      st' := body(schedule[i], time, k, st');
    }
  }

  /** Tasks without a conflict may be exchanged. */
  lemma {:induction false} Exchange(body: Body, fp: Footprint, x: Task, y: Task, time: real, k: int, st: Store)
    requires Honours(body, fp) && !Conflict(fp, x, y)
    ensures body(y, time, k, body(x, time, k, st)) == body(x, time, k, body(y, time, k, st))
  {
    var sx, sy := body(x, time, k, st), body(y, time, k, st);
    var sxy, syx := body(y, time, k, sx), body(x, time, k, sy);
    var wx, wy := Of(fp.write, x), Of(fp.write, y);
    assert Unchanged(wx, st, sx) && Unchanged(wy, st, sy) && Unchanged(wy, sx, sxy) && Unchanged(wx, sy, syx);
    assert AgreeOn(wy, sy, sxy) by {
      assert forall b :: b in Of(fp.read, y) ==> b !in wx;
      assert AgreeOn(Of(fp.read, y), st, sx);
    }
    assert AgreeOn(wx, sx, syx) by {
      assert forall b :: b in Of(fp.read, x) ==> b !in wy;
      assert AgreeOn(Of(fp.read, x), st, sy);
    }
    assert forall b :: b in wx ==> b !in wy;
    assert forall a :: 0 <= a < |st| ==> sxy[a] == syx[a];
  }

  /** A task that conflicts with none of those before it may be run first. */
  lemma {:induction false} MoveToFront(body: Body, fp: Footprint, before: seq<Task>, x: Task, after: seq<Task>,
                                       time: real, k: int, st: Store)
    requires Honours(body, fp) && forall y :: y in before ==> !Conflict(fp, x, y)
    ensures Effect(body, before + [x] + after, time, k, st) == Effect(body, [x] + (before + after), time, k, st)
    decreases |before|
  {
    if before == [] {
      assert before + [x] + after == [x] + (before + after);
    } else {
      var y, rest := before[0], before[1..];
      var sx, sy := body(x, time, k, st), body(y, time, k, st);
      assert before + [x] + after == [y] + (rest + [x] + after) && before + after == [y] + (rest + after);
      calc {
        Effect(body, before + [x] + after, time, k, st);
      == { EffectFirst(body, y, rest + [x] + after, time, k, st); }
        Effect(body, rest + [x] + after, time, k, sy);
      == { MoveToFront(body, fp, rest, x, after, time, k, sy); EffectFirst(body, x, rest + after, time, k, sy); }
        Effect(body, rest + after, time, k, body(x, time, k, sy));
      == { Exchange(body, fp, x, y, time, k, st); }
        Effect(body, rest + after, time, k, body(y, time, k, sx));
      == { EffectFirst(body, y, rest + after, time, k, sx); EffectFirst(body, x, before + after, time, k, st); }
        Effect(body, [x] + (before + after), time, k, st);
      }
    }
  }

  lemma {:induction false} EffectFirst(body: Body, x: Task, rest: seq<Task>, time: real, k: int, st: Store)
    ensures Effect(body, [x] + rest, time, k, st) == Effect(body, rest, time, k, body(x, time, k, st))
  {
    assert ([x] + rest)[1..] == rest;
  }

  /** The conflicting pairs are ordered alike. */
  ghost predicate OrderedAlike(fp: Footprint, a: seq<Task>, b: seq<Task>) {
    forall i, j, m, n :: (0 <= i < j < |a| && 0 <= m < |b| && 0 <= n < |b| && a[i] == b[m] && a[j] == b[n]
                          && Conflict(fp, a[i], a[j])) ==> m < n
  }

  /** All orders of the same tasks that order every conflicting pair alike have the same effect. */
  lemma {:induction false} SameEffect(body: Body, fp: Footprint, a: seq<Task>, b: seq<Task>, time: real, k: int,
                                      st: Store)
    requires Honours(body, fp) && Distinct(a) && Distinct(b) && OrderedAlike(fp, a, b)
    requires forall x :: x in a <==> x in b
    ensures Effect(body, a, time, k, st) == Effect(body, b, time, k, st)
    decreases |a|
  {
    assert b == [] || b[0] in b;
    hide Honours, OrderedAlike, Conflict, Effect, Distinct;
    if a != [] {
      var x, p, b' := WithoutFirst(fp, a, b);
      var before, after := b[..p], b[p + 1..];
      assert b == before + [x] + after;
      MoveToFront(body, fp, before, x, after, time, k, st);
      EffectFirst(body, x, before + after, time, k, st);
      assert a == [x] + a[1..];
      EffectFirst(body, x, a[1..], time, k, st);
      SameEffect(body, fp, a[1..], b', time, k, body(x, time, k, st));
    }
  }

  /** Taking the first task of a out of b. */
  lemma {:induction false} WithoutFirst(fp: Footprint, a: seq<Task>, b: seq<Task>)
    returns (x: Task, p: nat, b': seq<Task>)
    requires a != [] && Distinct(a) && Distinct(b) && OrderedAlike(fp, a, b)
    requires forall y :: y in a <==> y in b
    ensures x == a[0] && p < |b| && b[p] == x && b' == b[..p] + b[p + 1..]
    ensures forall y :: y in b[..p] ==> !Conflict(fp, x, y)
    ensures Distinct(a[1..]) && Distinct(b') && OrderedAlike(fp, a[1..], b')
    ensures forall y :: y in a[1..] <==> y in b'
  {
    x := a[0];
    assert x in b;
    p :| 0 <= p < |b| && b[p] == x;
    b' := b[..p] + b[p + 1..];
    forall y | y in b[..p] ensures !Conflict(fp, x, y) {
      var m :| 0 <= m < p && b[m] == y;
      assert y in b && y in a;
      var j :| 0 <= j < |a| && a[j] == y;
      assert j != 0;
    }
    assert forall m :: 0 <= m < |b'| ==> b'[m] == b[if m < p then m else m + 1];
    hide Conflict;
    SameRest(a, b, p, b');
  }

  lemma {:induction false} SameRest(a: seq<Task>, b: seq<Task>, p: nat, b': seq<Task>)
    requires a != [] && Distinct(a) && Distinct(b) && p < |b| && b[p] == a[0] && b' == b[..p] + b[p + 1..]
    requires forall y :: y in a <==> y in b
    ensures forall y :: y in a[1..] <==> y in b'
  {
    assert forall m :: 0 <= m < |b'| ==> b'[m] == b[if m < p then m else m + 1];
    forall y ensures y in a[1..] <==> y in b' {
      if y in a[1..] {
        var j :| 1 <= j < |a| && a[j] == y;
        assert y in a && y in b;
        var n :| 0 <= n < |b| && b[n] == y;
        assert n != p && b'[if n < p then n else n - 1] == y;
      }
      if y in b' {
        assert y in b && y in a && y != a[0];
      }
    }
  }

  /** Any two orders that respect the edges have the same effect. */
  lemma {:induction false} EdgesDetermineEffect(body: Body, fp: Footprint, inEdges: Edges, a: seq<Task>, b: seq<Task>,
                                                time: real, k: int, st: Store)
    requires Honours(body, fp) && Distinct(a) && Distinct(b) && Respects(inEdges, a) && Respects(inEdges, b)
    requires forall x :: x in a <==> x in b
    requires ConflictsJoined(inEdges, fp, a)
    ensures Effect(body, a, time, k, st) == Effect(body, b, time, k, st)
  {
    forall i, j, m, n | 0 <= i < j < |a| && 0 <= m < |b| && 0 <= n < |b| && a[i] == b[m] && a[j] == b[n]
                        && Conflict(fp, a[i], a[j])
      ensures m < n
    {
      if Leads(inEdges, a[i], a[j]) {
        var p :| IsPath(inEdges, p) && p[0] == a[i] && p[|p| - 1] == a[j];
        var q := PathOrder(inEdges, b, p, n);
      } else {
        var p :| IsPath(inEdges, p) && p[0] == a[j] && p[|p| - 1] == a[i];
        var q := PathOrder(inEdges, a, p, i);
      }
    }
    SameEffect(body, fp, a, b, time, k, st);
  }
}
