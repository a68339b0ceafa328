module TaskConflicts {

  // Which conflicts between tasks the graph of Scheduler::resolveDeps leaves open, and what follows
  // when it does: the exact condition under which all orders that respect the edges have one effect.

  import opened TaskGraph
  import opened Scheduler
  import opened DependencyGraph
  import opened TaskEffects
  import ThreadPlacement
  import ThreadLevelScheduler
  import ThreadProtocol

  // ---------------------------------------------------------------- one effect for all orders

  /** The orders of the same tasks that respect the edges. */
  ghost predicate IsOrder(inEdges: Edges, tasks: seq<Task>, order: seq<Task>) {
    Distinct(order) && Respects(inEdges, order) && forall x :: x in order <==> x in tasks
  }

  /** Whatever the tasks do within their footprints, all orders have the same effect. */
  ghost predicate OneEffect(fp: Footprint, inEdges: Edges, tasks: seq<Task>) {
    forall body, a, b, time, k, st ::
      Honours(body, fp) && IsOrder(inEdges, tasks, a) && IsOrder(inEdges, tasks, b) ==>
      Effect(body, a, time, k, st) == Effect(body, b, time, k, st)
  }

  /** A task may keep what it could write. */
  ghost predicate MayKeep(fp: Footprint) {
    forall x :: Of(fp.write, x) <= Of(fp.read, x)
  }

  /** The footprint without what is read by tasks that write nothing. */
  function Writers(fp: Footprint): Footprint {
    Footprint(map x | x in fp.read && Of(fp.write, x) != {} :: fp.read[x], fp.write)
  }

  // ---------------------------------------------------------------- two orders

  /** The tasks of the order that x leads to, or those it does not lead to. */
  ghost function Part(inEdges: Edges, x: Task, order: seq<Task>, led: bool): seq<Task> {
    if order == [] then [] else
    var n := |order| - 1;
    Part(inEdges, x, order[..n], led) + if Leads(inEdges, x, order[n]) == led then [order[n]] else []
  }

  lemma {:induction false} PartMeans(inEdges: Edges, x: Task, order: seq<Task>, led: bool, t: Task)
    ensures t in Part(inEdges, x, order, led) <==> t in order && Leads(inEdges, x, t) == led
  {
    if order != [] {
      var n := |order| - 1;
      PartMeans(inEdges, x, order[..n], led, t);
      assert order == order[..n] + [order[n]];
    }
  }

  lemma {:induction false} RespectsInsert(inEdges: Edges, p: seq<Task>, t: Task, q: seq<Task>)
    requires Respects(inEdges, p + q) && forall u :: HasEdge(inEdges, u, t) ==> u in p
    ensures Respects(inEdges, p + [t] + q)
  {
    var r := p + [t] + q;
    forall j, u | 0 <= j < |r| && HasEdge(inEdges, u, r[j]) ensures u in r[..j] {
      if j == |p| {
        assert r[..j] == p;
      } else {
        var i := if j < |p| then j else j - 1;
        assert (p + q)[i] == r[j] && u in (p + q)[..i];
        var m :| 0 <= m < i && (p + q)[m] == u;
        assert r[..j][if m < |p| then m else m + 1] == u;
      }
    }
  }

  lemma {:induction false} DistinctInsert(p: seq<Task>, t: Task, q: seq<Task>)
    requires Distinct(p + q) && t !in p && t !in q
    ensures Distinct(p + [t] + q)
  {
    var r := p + [t] + q;
    forall i, j | 0 <= i < j < |r| ensures r[i] != r[j] {
      var i', j' := if i < |p| then i else i - 1, if j < |p| then j else j - 1;
      if i != |p| && j != |p| { assert (p + q)[i'] == r[i] && (p + q)[j'] == r[j]; }
    }
  }

  /** Moving everything that x leads to behind all the rest gives an order again. */
  lemma {:induction false} Postponed(inEdges: Edges, x: Task, order: seq<Task>)
    requires Distinct(order) && Respects(inEdges, order)
    ensures Distinct(Part(inEdges, x, order, false) + Part(inEdges, x, order, true))
    ensures Respects(inEdges, Part(inEdges, x, order, false) + Part(inEdges, x, order, true))
  {
    if order != [] {
      var n := |order| - 1;
      var before, t := order[..n], order[n];
      Postponed(inEdges, x, before);
      var p, q := Part(inEdges, x, before, false), Part(inEdges, x, before, true);
      forall u ensures u in p <==> u in before && !Leads(inEdges, x, u) { PartMeans(inEdges, x, before, false, u); }
      forall u ensures u in q <==> u in before && Leads(inEdges, x, u) { PartMeans(inEdges, x, before, true, u); }
      forall u | HasEdge(inEdges, u, t) ensures u in before && (Leads(inEdges, x, u) ==> Leads(inEdges, x, t)) {
        if Leads(inEdges, x, u) { LeadsLast(inEdges, x, u, t); }
      }
      assert t !in before && Distinct(before) && Respects(inEdges, before);
      hide Leads, Respects, Distinct, HasEdge;
      if Leads(inEdges, x, t) {
        assert Part(inEdges, x, order, false) == p && Part(inEdges, x, order, true) == q + [t];
        AddLast(inEdges, p + q, t);
        assert p + q + [t] == p + (q + [t]);
      } else {
        assert Part(inEdges, x, order, false) == p + [t] && Part(inEdges, x, order, true) == q;
        RespectsInsert(inEdges, p, t, q);
        DistinctInsert(p, t, q);
      }
    }
  }

  lemma AddLast(inEdges: Edges, p: seq<Task>, t: Task)
    requires Respects(inEdges, p) && Distinct(p) && t !in p && forall u :: HasEdge(inEdges, u, t) ==> u in p
    ensures Respects(inEdges, p + [t]) && Distinct(p + [t])
  {
    assert p + [] == p && p + [t] + [] == p + [t];
    RespectsInsert(inEdges, p, t, []);
    DistinctInsert(p, t, []);
  }

  ghost predicate Before(order: seq<Task>, u: Task, v: Task) {
    exists m, n :: 0 <= m < n < |order| && order[m] == u && order[n] == v
  }

  /** A task that x does not lead to comes before x in some order. */
  lemma {:induction false} OrderBefore(inEdges: Edges, tasks: seq<Task>, x: Task, y: Task) returns (order: seq<Task>)
    requires Distinct(tasks) && Respects(inEdges, tasks) && x in tasks && y in tasks && !Leads(inEdges, x, y)
    ensures IsOrder(inEdges, tasks, order) && Before(order, y, x)
  {
    var p, q := Part(inEdges, x, tasks, false), Part(inEdges, x, tasks, true);
    order := p + q;
    Postponed(inEdges, x, tasks);
    forall t ensures t in order <==> t in tasks {
      PartMeans(inEdges, x, tasks, false, t);
      PartMeans(inEdges, x, tasks, true, t);
    }
    LeadsSelf(inEdges, x);
    PartMeans(inEdges, x, tasks, true, x);
    PartMeans(inEdges, x, tasks, false, y);
    var m :| 0 <= m < |p| && p[m] == y;
    var n :| 0 <= n < |q| && q[n] == x;
    assert order[m] == y && order[|p| + n] == x;
  }

  // ---------------------------------------------------------------- bodies that tell orders apart

  /** Task x sets attribute a to 1, task y adds the value of a to b; the others keep what they could
      write. */
  function Change(x: Task, a: nat, y: Task, b: nat, t: Task, st: Store): Store {
    if a >= |st| || b >= |st| then st
    else if t == x then st[a := 1]
    else if t == y then st[b := st[b] + st[a]]
    else st
  }

  ghost predicate Changes(body: Body, x: Task, a: nat, y: Task, b: nat) {
    forall t, time, k, st :: body(t, time, k, st) == Change(x, a, y, b, t, st)
  }

  lemma {:induction false} ChangeHonours(body: Body, fp: Footprint, x: Task, a: nat, y: Task, b: nat)
    requires Changes(body, x, a, y, b) && MayKeep(fp)
    requires a in Of(fp.write, x) && a in Of(fp.read, y) && b in Of(fp.write, y)
    ensures Honours(body, fp)
  {
    forall t, time, k, st ensures Unchanged(Of(fp.write, t), st, body(t, time, k, st)) {}
    forall t, time, k, st, st' | AgreeOn(Of(fp.read, t), st, st')
      ensures AgreeOn(Of(fp.write, t), body(t, time, k, st), body(t, time, k, st'))
    {
      assert b in Of(fp.read, y);
      assert forall c :: 0 <= c < |st| && c in Of(fp.write, t) ==> c in Of(fp.read, t);
    }
  }

  lemma {:induction false} Others(body: Body, order: seq<Task>, x: Task, a: nat, y: Task, b: nat, time: real, k: int,
                                  st: Store)
    requires Changes(body, x, a, y, b) && x !in order && y !in order
    ensures Effect(body, order, time, k, st) == st
  {
    if order != [] {
      assert order[0] in order;
      Others(body, order[1..], x, a, y, b, time, k, st);
    }
  }

  lemma {:induction false} OneEffective(body: Body, order: seq<Task>, x: Task, a: nat, y: Task, b: nat, u: Task,
                                        v: Task, time: real, k: int, st: Store)
    requires Changes(body, x, a, y, b) && Distinct(order) && v in order && u !in order
    requires (u == x && v == y) || (u == y && v == x)
    ensures Effect(body, order, time, k, st) == Change(x, a, y, b, v, st)
  {
    hide Distinct;
    DistinctFirst(order);
    if order[0] == v {
      Others(body, order[1..], x, a, y, b, time, k, body(v, time, k, st));
    } else {
      assert order[0] in order;
      OneEffective(body, order[1..], x, a, y, b, u, v, time, k, st);
    }
  }

  lemma DistinctFirst(order: seq<Task>)
    requires Distinct(order) && order != []
    ensures Distinct(order[1..]) && order[0] !in order[1..] && forall t :: t in order <==>
              t == order[0] || t in order[1..]
  {
    assert order == [order[0]] + order[1..];
  }

  lemma BeforeFirst(order: seq<Task>, u: Task, v: Task)
    requires Distinct(order) && Before(order, u, v)
    ensures order != [] && v in order && u in order && if order[0] == u then v in order[1..]
            else Before(order[1..], u, v) && order[0] != v
  {
    var m, n :| 0 <= m < n < |order| && order[m] == u && order[n] == v;
    assert order[1..][n - 1] == v;
    if order[0] != u {
      assert m > 0;
      var m', n' := m - 1, n - 1;
      assert order[1..][m'] == u && order[1..][n'] == v;
    }
  }

  /** Only the order of x and y matters. */
  lemma {:induction false} PairEffect(body: Body, order: seq<Task>, x: Task, a: nat, y: Task, b: nat, u: Task, v: Task,
                                      time: real, k: int, st: Store)
    requires Changes(body, x, a, y, b) && Distinct(order) && Before(order, u, v) && u != v
    requires (u == x && v == y) || (u == y && v == x)
    ensures Effect(body, order, time, k, st) == Change(x, a, y, b, v, Change(x, a, y, b, u, st))
  {
    BeforeFirst(order, u, v);
    DistinctFirst(order);
    hide Distinct, Before;
    if order[0] == u {
      OneEffective(body, order[1..], x, a, y, b, u, v, time, k, body(u, time, k, st));
    } else {
      PairEffect(body, order[1..], x, a, y, b, u, v, time, k, st);
    }
  }

  lemma ChangingBody(x: Task, a: nat, y: Task, b: nat) returns (body: Body)
    ensures Changes(body, x, a, y, b)
  {
    body := (t: Task, time: real, k: int, st: Store) => Change(x, a, y, b, t, st);
  }

  lemma TwoOutcomes(fp: Footprint, inEdges: Edges, tasks: seq<Task>, body: Body, p: seq<Task>, q: seq<Task>, st: Store)
    requires Honours(body, fp) && IsOrder(inEdges, tasks, p) && IsOrder(inEdges, tasks, q)
    requires Effect(body, p, 0.0, 0, st) != Effect(body, q, 0.0, 0, st)
    ensures !OneEffect(fp, inEdges, tasks)
  {
  }

  /** Two tasks of which one may change what the other reads, neither of them leading to the other. */
  lemma {:induction false} Distinguished(fp: Footprint, inEdges: Edges, tasks: seq<Task>, x: Task, a: nat, y: Task)
    requires Distinct(tasks) && Respects(inEdges, tasks) && MayKeep(fp) && x in tasks && y in tasks && x != y
    requires a in Of(fp.write, x) && a in Of(Writers(fp).read, y) && !Leads(inEdges, x, y) && !Leads(inEdges, y, x)
    ensures !OneEffect(fp, inEdges, tasks)
  {
    var p := OrderBefore(inEdges, tasks, x, y);
    var q := OrderBefore(inEdges, tasks, y, x);
    var b :| b in Of(fp.write, y);
    var body := ChangingBody(x, a, y, b);
    var st := seq(a + b + 1, i => 0);
    ChangeHonours(body, fp, x, a, y, b);
    hide Leads, Respects, Change, Changes, Honours, Effect, MayKeep, Of, Before, Distinct, OneEffect;
    PairEffect(body, p, x, a, y, b, y, x, 0.0, 0, st);
    PairEffect(body, q, x, a, y, b, x, y, 0.0, 0, st);
    ChangesDiffer(x, a, y, b, st);
    TwoOutcomes(fp, inEdges, tasks, body, p, q, st);
  }

  lemma ChangesDiffer(x: Task, a: nat, y: Task, b: nat, st: Store)
    requires x != y && a < |st| && b < |st| && st[a] == st[b] == 0
    ensures Change(x, a, y, b, y, Change(x, a, y, b, x, st)) != Change(x, a, y, b, x, Change(x, a, y, b, y, st))
  {
    assert Change(x, a, y, b, y, Change(x, a, y, b, x, st))[b] != Change(x, a, y, b, x, Change(x, a, y, b, y, st))[b];
  }

  /** The exact condition. All orders that respect the edges have one effect, whatever the tasks do
      within their footprints, if and only if conflicting tasks are joined by paths. Tasks that write
      nothing cannot tell orders apart, so their conflicts do not count. */
  lemma {:induction false} OneEffectIff(fp: Footprint, inEdges: Edges, tasks: seq<Task>)
    requires Distinct(tasks) && Respects(inEdges, tasks) && MayKeep(fp)
    ensures OneEffect(fp, inEdges, tasks) <==> ConflictsJoined(inEdges, Writers(fp), tasks)
  {
    if ConflictsJoined(inEdges, Writers(fp), tasks) {
      JoinedOneEffect(fp, inEdges, tasks);
    } else {
      var x, y :| x in tasks && y in tasks && x != y && Conflict(Writers(fp), x, y) && !Leads(inEdges, x, y) &&
          !Leads(inEdges, y, x);
      var a, first := Cause(fp, x, y);
      if first { Distinguished(fp, inEdges, tasks, x, a, y); } else { Distinguished(fp, inEdges, tasks, y, a, x); }
    }
  }

  /** The attribute of a conflict, and which of the tasks writes it. */
  lemma Cause(fp: Footprint, x: Task, y: Task) returns (a: nat, first: bool)
    requires MayKeep(fp) && Conflict(Writers(fp), x, y)
    ensures if first then a in Of(fp.write, x) && a in Of(Writers(fp).read, y)
            else a in Of(fp.write, y) && a in Of(Writers(fp).read, x)
  {
    var w := Writers(fp);
    if a' :| a' in Of(w.write, x) && a' in Of(w.read, y) + Of(w.write, y) {
      a, first := a', true;
      assert a in Of(fp.write, y) ==> a in Of(fp.read, y);
    } else {
      a :| a in Of(w.write, y) && a in Of(w.read, x);
      first := false;
    }
  }

  /** One half holds for all footprints. */
  lemma {:induction false} JoinedOneEffect(fp: Footprint, inEdges: Edges, tasks: seq<Task>)
    requires ConflictsJoined(inEdges, Writers(fp), tasks)
    ensures OneEffect(fp, inEdges, tasks)
  {
    forall body, a, b, time, k, st | Honours(body, fp) && IsOrder(inEdges, tasks, a) && IsOrder(inEdges, tasks, b)
      ensures Effect(body, a, time, k, st) == Effect(body, b, time, k, st)
    {
      assert ConflictsJoined(inEdges, Writers(fp), a);
      HonoursWriters(body, fp);
      EdgesDetermineEffect(body, Writers(fp), inEdges, a, b, time, k, st);
    }
  }

  lemma HonoursWriters(body: Body, fp: Footprint)
    requires Honours(body, fp)
    ensures Honours(body, Writers(fp))
  {
    forall x, time, k, st, st' | AgreeOn(Of(Writers(fp).read, x), st, st')
      ensures AgreeOn(Of(fp.write, x), body(x, time, k, st), body(x, time, k, st'))
    {
      assert Unchanged(Of(fp.write, x), st, body(x, time, k, st)) &&
             Unchanged(Of(fp.write, x), st', body(x, time, k, st'));
      if Of(fp.write, x) != {} { assert AgreeOn(Of(fp.read, x), st, st'); }
    }
  }

  // ---------------------------------------------------------------- the graph of resolveDeps

  /** The graph that resolveDeps builds for these tasks, the root among them. */
  ghost predicate IsResolved(inEdges: Edges, acc: Accesses, refs: Refs, external: Attr, all: seq<Task>, root: Task) {
    forall x, y :: HasEdge(inEdges, x, y) <==> Depends(acc, refs, external, all, root, x, y)
  }

  /** The footprint of what the tasks declare. The external attribute holds no value. */
  ghost predicate Declares(fp: Footprint, acc: Accesses, refs: Refs, external: Attr, tasks: seq<Task>) {
    && (forall x, a :: x in tasks ==> (a in Of(fp.write, x) <==> a != external && a in Get(acc.modified, x)))
    && forall x, a :: x in tasks ==> (a in Of(fp.read, x) <==> a != external && MayRead(acc, refs, external, x, a))
  }

  /** A task reads an attribute in this step, or of the previous step, or keeps what it modifies. */
  ghost predicate MayRead(acc: Accesses, refs: Refs, external: Attr, x: Task, a: Attr) {
    Reads(refs, external, Get(acc.read, x), a) || a in Get(acc.prev, x) || a in Get(acc.modified, x)
  }

  predicate Writes(acc: Accesses, external: Attr, y: Task) {
    exists b :: b in Get(acc.modified, y) && b != external
  }

  /** Both tasks modify an attribute, or y, which modifies something, reads the value that one
      modified by x had in the previous step. */
  predicate LeftOpen(acc: Accesses, external: Attr, x: Task, y: Task) {
    exists a ::
      a in Get(acc.modified, x) && a != external &&
      (a in Get(acc.modified, y) || (a in Get(acc.prev, y) && Writes(acc, external, y)))
  }

  ghost predicate OpenJoined(inEdges: Edges, acc: Accesses, external: Attr, tasks: seq<Task>) {
    forall x, y :: x in tasks && y in tasks && x != y && LeftOpen(acc, external, x, y) ==>
           Leads(inEdges, x, y) || Leads(inEdges, y, x)
  }

  /** Reading what another task modifies makes an edge, so only the other conflicts are left open. */
  lemma {:induction false} OnlyOpenConflicts(fp: Footprint, inEdges: Edges, acc: Accesses, refs: Refs, external: Attr,
                                             all: seq<Task>, root: Task, tasks: seq<Task>)
    requires IsResolved(inEdges, acc, refs, external, all, root) && (forall x :: x in tasks ==> x in all)
    requires Declares(fp, acc, refs, external, tasks)
    ensures ConflictsJoined(inEdges, Writers(fp), tasks) <==> OpenJoined(inEdges, acc, external, tasks)
  {
    hide IsResolved, Leads, Depends, Reads;
    forall x, y | x in tasks && y in tasks && x != y && LeftOpen(acc, external, x, y)
      ensures Conflict(Writers(fp), x, y)
    {
      OpenIsConflict(fp, acc, refs, external, tasks, x, y);
    }
    if OpenJoined(inEdges, acc, external, tasks) {
      forall x, y | x in tasks && y in tasks && x != y && Conflict(Writers(fp), x, y)
        ensures Leads(inEdges, x, y) || Leads(inEdges, y, x)
      {
        var first := ConflictIs(fp, acc, refs, external, tasks, x, y);
        if first { OpenOrEdge(fp, inEdges, acc, refs, external, all, root, tasks, x, y); }
        else { OpenOrEdge(fp, inEdges, acc, refs, external, all, root, tasks, y, x); }
      }
    }
  }

  ghost predicate Touches(fp: Footprint, x: Task, y: Task) {
    exists a :: a in Of(fp.write, x) && a in Of(fp.read, y) && Of(fp.write, y) != {}
  }

  lemma ConflictIs(fp: Footprint, acc: Accesses, refs: Refs, external: Attr, tasks: seq<Task>, x: Task, y: Task)
    returns (first: bool)
    requires Declares(fp, acc, refs, external, tasks) && x in tasks && y in tasks && Conflict(Writers(fp), x, y)
    ensures if first then Touches(fp, x, y) else Touches(fp, y, x)
  {
    var w := Writers(fp);
    if a :| a in Of(w.write, x) && a in Of(w.read, y) + Of(w.write, y) {
      first := true;
      assert a in Of(fp.write, y) ==> a in Of(fp.read, y);
    } else {
      var a :| a in Of(w.write, y) && a in Of(w.read, x);
      first := false;
    }
  }

  lemma OpenIsConflict(fp: Footprint, acc: Accesses, refs: Refs, external: Attr, tasks: seq<Task>, x: Task, y: Task)
    requires Declares(fp, acc, refs, external, tasks) && x in tasks && y in tasks && LeftOpen(acc, external, x, y)
    ensures Conflict(Writers(fp), x, y)
  {
    var a :| a in Get(acc.modified, x) && a != external &&
        (a in Get(acc.modified, y) || (a in Get(acc.prev, y) && Writes(acc, external, y)));
    assert a in Of(fp.write, x) && a in Of(fp.read, y);
    if a in Get(acc.modified, y) {
      assert a in Of(fp.write, y);
    } else {
      var b :| b in Get(acc.modified, y) && b != external;
      assert b in Of(fp.write, y);
    }
    assert a in Of(Writers(fp).read, y);
  }

  lemma {:induction false} OpenOrEdge(fp: Footprint, inEdges: Edges, acc: Accesses, refs: Refs, external: Attr,
                                      all: seq<Task>, root: Task, tasks: seq<Task>, x: Task, y: Task)
    requires IsResolved(inEdges, acc, refs, external, all, root) && (forall x :: x in tasks ==> x in all)
    requires Declares(fp, acc, refs, external, tasks) && x in tasks && y in tasks && x != y && Touches(fp, x, y)
    ensures LeftOpen(acc, external, x, y) || Leads(inEdges, x, y)
  {
    var a :| a in Of(fp.write, x) && a in Of(fp.read, y) && Of(fp.write, y) != {};
    var b :| b in Of(fp.write, y);
    assert a != external && a in Get(acc.modified, x) && MayRead(acc, refs, external, y, a);
    assert b in Get(acc.modified, y) && Writes(acc, external, y);
    if Reads(refs, external, Get(acc.read, y), a) {
      assert Triggers(acc, refs, external, all, root, a, y) && Depends(acc, refs, external, all, root, x, y);
      EdgeLeads(inEdges, x, y);
    }
  }

  lemma EdgeLeads(inEdges: Edges, x: Task, y: Task)
    requires HasEdge(inEdges, x, y)
    ensures Leads(inEdges, x, y)
  {
    assert EdgeAt(inEdges, [x, y], 0) && IsPath(inEdges, [x, y]) && [x, y][0] == x;
  }

  lemma {:induction false} SortedInAll(inEdges: Edges, acc: Accesses, refs: Refs, external: Attr, all: seq<Task>,
                                       root: Task, sorted: seq<Task>)
    requires IsResolved(inEdges, acc, refs, external, all, root) && IsSort(inEdges, root, sorted)
    ensures forall x :: x in sorted ==> x in all
  {
    forall x | x in sorted ensures x in all {
      var p :| IsPath(inEdges, p) && p[0] == x && p[|p| - 1] == root;
      assert EdgeAt(inEdges, p, 0);
      assert Depends(acc, refs, external, all, root, x, p[1]);
    }
  }

  /** On the graph of resolveDeps all orders of the sorted tasks have one effect if and only if the
      conflicts that it leaves open are joined. */
  lemma {:induction false} ResolvedOneEffectIff(fp: Footprint, inEdges: Edges, acc: Accesses, refs: Refs,
                                                external: Attr, all: seq<Task>, root: Task, sorted: seq<Task>)
    requires IsResolved(inEdges, acc, refs, external, all, root) && IsSort(inEdges, root, sorted)
    requires MayKeep(fp) && Declares(fp, acc, refs, external, sorted)
    ensures OneEffect(fp, inEdges, sorted) <==> OpenJoined(inEdges, acc, external, sorted)
  {
    SortedInAll(inEdges, acc, refs, external, all, root, sorted);
    OneEffectIff(fp, inEdges, sorted);
    OnlyOpenConflicts(fp, inEdges, acc, refs, external, all, root, sorted);
  }

  /** What the thread schedulers promise for a resolved graph: runs of the threads end as the
      sequential scheduler does, if the open conflicts are joined. */
  lemma {:induction false} ResolvedRunIsSequential(s: ThreadPlacement.ThreadScheduler, inEdges: Edges, acc: Accesses,
                                                   refs: Refs, external: Attr, all: seq<Task>, root: Task,
                                                   sch: ThreadProtocol.Schedule, sorted: seq<Task>, body: Body,
                                                   fp: Footprint, state: ThreadProtocol.State, n: nat, st: Store)
    requires ThreadLevelScheduler.ScheduleOk(s, inEdges, root, sch) && IsSort(inEdges, root, sorted)
    requires IsResolved(inEdges, acc, refs, external, all, root) && Declares(fp, acc, refs, external, sorted)
    requires Honours(body, fp) && OpenJoined(inEdges, acc, external, sorted)
    requires ThreadProtocol.Reachable(sch, state) && n <= |state.past|
    ensures |state.past| <= |state.times|
    ensures forall k, e :: 0 <= k < |state.past| && 0 <= e < |state.past[k]| ==>
              ThreadProtocol.IsSlot(sch, state.past[k][e].slot)
    ensures ThreadPlacement.Parallel(body, sch, state.past, state.times, n, st) ==
            ThreadPlacement.Sequential(body, sorted, state.times, n, st)
  {
    SortedInAll(inEdges, acc, refs, external, all, root, sorted);
    OnlyOpenConflicts(fp, inEdges, acc, refs, external, all, root, sorted);
    HonoursWriters(body, fp);
    hide ThreadLevelScheduler.ScheduleOk, IsSort, IsResolved, Declares, Honours, OpenJoined, ConflictsJoined,
         ThreadProtocol.Reachable, Writers;
    ThreadLevelScheduler.ScheduledRunIsSequential(s, inEdges, root, sch, sorted, body, Writers(fp), state, n, st);
  }
}
