module DependencyGraph {

  // Scheduler::resolveDeps: the dependency graph from what the tasks read and write.

  import opened TaskGraph
  import opened Scheduler

  type Attr = nat

  /** For each dynamic attribute, the attributes that its update tasks read. */
  type Refs = map<Attr, seq<Attr>>

  /** For each task, the attributes it reads, reads from the previous step, and modifies. */
  datatype Accesses = Accesses(read: map<Task, seq<Attr>>, prev: map<Task, seq<Attr>>, modified: map<Task, seq<Attr>>)

  /** A rank that falls along references: without one, appendDependencies does not return. */
  predicate Falling(refs: Refs, rank: map<Attr, nat>) {
    && (forall a :: a in refs ==> a in rank)
    && forall a, i :: a in refs && 0 <= i < |refs[a]| && refs[a][i] in refs ==> rank[refs[a][i]] < rank[a]
  }

  /** On finitely many attributes there is such a rank exactly if no attribute refers back to itself. */
  lemma {:induction false} RankIffAcyclic(refs: Refs)
    ensures (exists rank :: Falling(refs, rank)) <==> !HasCycle(refs)
  {
    if rank :| Falling(refs, rank) {
      if p :| IsPath(refs, p) && |p| >= 2 && p[0] == p[|p| - 1] {
        assert EdgeAt(refs, p, |p| - 2);
        RankRises(refs, rank, p);
      }
    }
    if !HasCycle(refs) { var rank := RankOfAcyclic(refs, map[]); }
  }

  lemma {:induction false} RankRises(refs: Refs, rank: map<Attr, nat>, p: seq<Attr>)
    requires Falling(refs, rank) && IsPath(refs, p) && p[0] in refs
    ensures p[|p| - 1] in refs && (if |p| == 1 then p[0] == p[|p| - 1] else rank[p[0]] < rank[p[|p| - 1]])
    decreases |p|
  {
    if |p| > 1 {
      var n := |p| - 1;
      assert EdgeAt(refs, p, n - 1);
      forall k: nat | k < n - 1 ensures EdgeAt(refs, p[..n], k) { assert EdgeAt(refs, p, k); }
      RankRises(refs, rank, p[..n]);
      var i :| 0 <= i < |refs[p[n]]| && refs[p[n]][i] == p[n - 1];
    }
  }

  /** Ranks the attributes one by one, always one that refers to none without a rank. */
  lemma {:induction false} RankOfAcyclic(refs: Refs, ranked: map<Attr, nat>) returns (rank: map<Attr, nat>)
    requires !HasCycle(refs) && ranked.Keys <= refs.Keys && forall a :: a in ranked ==> ranked[a] < |ranked|
    requires forall a, i :: a in ranked && 0 <= i < |refs[a]| && refs[a][i] in refs ==>
               refs[a][i] in ranked && ranked[refs[a][i]] < ranked[a]
    ensures Falling(refs, rank)
    decreases refs.Keys - ranked.Keys
  {
    var left := refs.Keys - ranked.Keys;
    if left == {} {
      rank := ranked;
      forall a | a in refs ensures a in rank { assert a !in left; }
    } else {
      if forall y {:trigger EnteredFrom(refs, left, y)} :: y in left ==> EnteredFrom(refs, left, y) {
        NoSourceCycle(refs, left);
      }
      var y :| y in left && !EnteredFrom(refs, left, y);
      forall i | 0 <= i < |refs[y]| && refs[y][i] in refs ensures refs[y][i] in ranked {
        assert HasEdge(refs, refs[y][i], y);
      }
      rank := RankOfAcyclic(refs, ranked[y := |ranked|]);
    }
  }

  function RankOf(refs: Refs, rank: map<Attr, nat>, a: Attr): nat {
    if a in refs && a in rank then rank[a] + 1 else 0
  }

  /** The set of attributes that a depends on: itself and all it reaches by references. */
  ghost predicate IsDependencies(refs: Refs, a: Attr, deps: set<Attr>, all: set<Attr>) {
    forall x :: x in all <==> x in deps || Leads(refs, x, a)
  }

  lemma LeadsSelf(refs: Refs, a: Attr)
    ensures Leads(refs, a, a)
  {
    assert IsPath(refs, [a]) && [a][0] == a;
  }

  lemma {:induction false} LeadsLast(refs: Refs, x: Attr, b: Attr, a: Attr)
    requires Leads(refs, x, b) && b in Get(refs, a)
    ensures Leads(refs, x, a)
  {
    var p :| IsPath(refs, p) && p[0] == x && p[|p| - 1] == b;
    var q := p + [a];
    forall i: nat | i < |q| - 1 ensures EdgeAt(refs, q, i) {
      if i < |p| - 1 { assert EdgeAt(refs, p, i); }
    }
    assert IsPath(refs, q) && q[0] == x && q[|q| - 1] == a;
  }

  lemma {:induction false} LeadsFrom(refs: Refs, x: Attr, a: Attr) returns (i: nat)
    requires Leads(refs, x, a) && x != a
    ensures i < |Get(refs, a)| && Leads(refs, x, Get(refs, a)[i])
  {
    var p :| IsPath(refs, p) && p[0] == x && p[|p| - 1] == a;
    var n := |p| - 1;
    assert EdgeAt(refs, p, n - 1);
    forall k: nat | k < n - 1 ensures EdgeAt(refs, p[..n], k) { assert EdgeAt(refs, p, k); }
    assert IsPath(refs, p[..n]) && p[..n][0] == x && p[..n][|p[..n]| - 1] == p[n - 1];
    i :| 0 <= i < |Get(refs, a)| && Get(refs, a)[i] == p[n - 1];
  }

  /** The recursive collection; it visits an attribute again for every path that leads to it. */
  method AppendDependencies(refs: Refs, ghost rank: map<Attr, nat>, a: Attr, deps: set<Attr>) returns (all: set<Attr>)
    requires Falling(refs, rank)
    ensures IsDependencies(refs, a, deps, all)
    decreases RankOf(refs, rank, a)
  {
    all := deps + {a};
    LeadsSelf(refs, a);
    var next := Get(refs, a);
    for i := 0 to |next|
      invariant forall x :: x in all ==> x in deps || Leads(refs, x, a)
      invariant deps + {a} <= all && forall j, x :: 0 <= j < i && Leads(refs, x, next[j]) ==> x in all
    {
      var all' := AppendDependencies(refs, rank, next[i], all);
      forall x | x in all' ensures x in deps || Leads(refs, x, a) {
        if x !in all { LeadsLast(refs, x, next[i], a); }
      }
      all := all';
    }
    forall x | Leads(refs, x, a) ensures x in all {
      if x != a { var i := LeadsFrom(refs, x, a); }
    }
  }

  /** Reading b, directly or through a dynamic attribute, task t reads a. */
  ghost predicate Reaches(refs: Refs, external: Attr, a: Attr, b: Attr) {
    if b == external then a == external else Leads(refs, a, b)
  }

  ghost predicate Reads(refs: Refs, external: Attr, attrs: seq<Attr>, a: Attr) {
    exists i :: 0 <= i < |attrs| && Reaches(refs, external, a, attrs[i])
  }

  function Push(edges: Edges, key: nat, value: nat): Edges {
    edges[key := Get(edges, key) + [value]]
  }

  lemma PushGets(edges: Edges, key: nat, value: nat)
    ensures forall a, y :: y in Get(Push(edges, key, value), a) <==> y in Get(edges, a) || (a == key && y == value)
  {
  }

  /** Adds t to the readers of all attributes of a set. */
  method PushAll(dependencies: Edges, attrs: set<Attr>, t: Task) returns (r: Edges)
    ensures forall a, y :: y in Get(r, a) <==> y in Get(dependencies, a) || (y == t && a in attrs)
  {
    r := dependencies;
    var rest := attrs;
    while rest != {}
      invariant rest <= attrs
      invariant forall a, y :: y in Get(r, a) <==> y in Get(dependencies, a) || (y == t && a in attrs - rest)
    {
      var a :| a in rest;
      PushGets(r, a, t);
      r := Push(r, a, t);
      rest := rest - {a};
    }
  }

  method AddReader(dependencies: Edges, refs: Refs, ghost rank: map<Attr, nat>, external: Attr, attrs: seq<Attr>,
                   t: Task) returns (r: Edges)
    requires Falling(refs, rank)
    ensures forall a, y :: y in Get(r, a) <==> y in Get(dependencies, a) || (y == t && Reads(refs, external, attrs, a))
  {
    r := dependencies;
    for i := 0 to |attrs|
      invariant forall a, y :: y in Get(r, a) <==>
                  y in Get(dependencies, a) || (y == t && Reads(refs, external, attrs[..i], a))
    {
      var all := {external};
      if attrs[i] != external {
        all := AppendDependencies(refs, rank, attrs[i], {});
      }
      ReadsAppend(refs, external, attrs, i);
      r := PushAll(r, all, t);
    }
    assert attrs[..|attrs|] == attrs;
  }

  lemma ReadsAppend(refs: Refs, external: Attr, attrs: seq<Attr>, i: nat)
    requires i < |attrs|
    ensures forall a :: Reads(refs, external, attrs[..i + 1], a) <==>
              Reads(refs, external, attrs[..i], a) || Reaches(refs, external, a, attrs[i])
  {
    forall a
      ensures Reads(refs, external, attrs[..i + 1], a) <==>
                Reads(refs, external, attrs[..i], a) || Reaches(refs, external, a, attrs[i])
    {
      if Reads(refs, external, attrs[..i], a) {
        var k :| 0 <= k < i && Reaches(refs, external, a, attrs[..i][k]);
        assert attrs[..i + 1][k] == attrs[k];
      }
      assert attrs[..i + 1][i] == attrs[i];
      if Reads(refs, external, attrs[..i + 1], a) {
        var k :| 0 <= k <= i && Reaches(refs, external, a, attrs[..i + 1][k]);
        if k < i { assert attrs[..i][k] == attrs[k]; }
      }
    }
  }

  /** Adds the edges from one task to each of a list, to both edge lists. */
  method Link(from: Task, tos: seq<Task>, ins: Edges, outs: Edges) returns (ins': Edges, outs': Edges)
    requires Mirrored(ins, outs)
    ensures Mirrored(ins', outs')
    ensures forall x, y :: HasEdge(ins', x, y) <==> HasEdge(ins, x, y) || (x == from && y in tos)
  {
    hide Mirrored, HasEdge, Push;
    ins', outs' := ins, outs;
    for i := 0 to |tos|
      invariant Mirrored(ins', outs')
      invariant forall x, y :: HasEdge(ins', x, y) <==> HasEdge(ins, x, y) || (x == from && y in tos[..i])
    {
      assert tos[..i + 1] == tos[..i] + [tos[i]];
      PushEdge(ins', from, tos[i]);
      PushMirrored(ins', outs', from, tos[i]);
      ins', outs' := Push(ins', tos[i], from), Push(outs', from, tos[i]);
    }
    assert tos[..|tos|] == tos;
  }

  lemma PushEdge(ins: Edges, from: Task, to: Task)
    ensures forall x, y :: HasEdge(Push(ins, to, from), x, y) <==> HasEdge(ins, x, y) || (x == from && y == to)
  {
  }

  lemma PushMirrored(ins: Edges, outs: Edges, from: Task, to: Task)
    requires Mirrored(ins, outs)
    ensures Mirrored(Push(ins, to, from), Push(outs, from, to))
  {
    forall u, v ensures Count(Get(Push(ins, to, from), v), u) == Count(Get(Push(outs, from, to), u), v) {
      CountAppend(Get(ins, v), [from], u);
      CountAppend(Get(outs, u), [to], v);
    }
  }

  /** A modification of a makes y depend on the writer. */
  ghost predicate Follows(dependencies: Edges, prev: set<Attr>, root: Task, a: Attr, y: Task) {
    y in Get(dependencies, a) || (a in prev && y == root)
  }

  ghost predicate AnyFollows(dependencies: Edges, prev: set<Attr>, root: Task, attrs: seq<Attr>, y: Task) {
    exists i :: 0 <= i < |attrs| && Follows(dependencies, prev, root, attrs[i], y)
  }

  lemma AnyFollowsAppend(dependencies: Edges, prev: set<Attr>, root: Task, attrs: seq<Attr>, i: nat)
    requires i < |attrs|
    ensures forall y :: AnyFollows(dependencies, prev, root, attrs[..i + 1], y) <==>
                        AnyFollows(dependencies, prev, root, attrs[..i], y) ||
                          Follows(dependencies, prev, root, attrs[i], y)
  {
    forall y ensures AnyFollows(dependencies, prev, root, attrs[..i + 1], y) <==>
                     AnyFollows(dependencies, prev, root, attrs[..i], y) ||
                       Follows(dependencies, prev, root, attrs[i], y) {
      if AnyFollows(dependencies, prev, root, attrs[..i], y) {
        var k :| 0 <= k < i && Follows(dependencies, prev, root, attrs[..i][k], y);
        assert attrs[..i + 1][k] == attrs[k];
      }
      assert attrs[..i + 1][i] == attrs[i];
      if AnyFollows(dependencies, prev, root, attrs[..i + 1], y) {
        var k :| 0 <= k <= i && Follows(dependencies, prev, root, attrs[..i + 1][k], y);
        if k < i { assert attrs[..i][k] == attrs[k]; }
      }
    }
  }

  method LinkWriter(from: Task, attrs: seq<Attr>, dependencies: Edges, prev: set<Attr>, root: Task, ins: Edges,
                    outs: Edges)
    returns (ins': Edges, outs': Edges)
    requires Mirrored(ins, outs)
    ensures Mirrored(ins', outs')
    ensures forall x, y :: HasEdge(ins', x, y) <==>
              HasEdge(ins, x, y) || (x == from && AnyFollows(dependencies, prev, root, attrs, y))
  {
    hide Mirrored, HasEdge;
    ins', outs' := ins, outs;
    for i := 0 to |attrs|
      invariant Mirrored(ins', outs')
      invariant forall x, y :: HasEdge(ins', x, y) <==>
                  HasEdge(ins, x, y) || (x == from && AnyFollows(dependencies, prev, root, attrs[..i], y))
    {
      AnyFollowsAppend(dependencies, prev, root, attrs, i);
      ins', outs' := Link(from, Get(dependencies, attrs[i]), ins', outs');
      if attrs[i] in prev {
        ins', outs' := Link(from, [root], ins', outs');
      }
    }
    assert attrs[..|attrs|] == attrs;
  }

  /** There is an edge from x to y: x modifies what y reads in this step, or what some task reads
      from the previous step and y is the root. */
  ghost predicate Depends(acc: Accesses, refs: Refs, external: Attr, tasks: seq<Task>, root: Task, x: Task, y: Task) {
    x in tasks && exists a :: a in Get(acc.modified, x) && Triggers(acc, refs, external, tasks, root, a, y)
  }

  ghost predicate Triggers(acc: Accesses, refs: Refs, external: Attr, tasks: seq<Task>, root: Task, a: Attr, y: Task) {
    || (y in tasks && Reads(refs, external, Get(acc.read, y), a))
    || (y == root && exists z :: z in tasks && a in Get(acc.prev, z))
  }

  method CollectReaders(tasks: seq<Task>, acc: Accesses, refs: Refs, ghost rank: map<Attr, nat>, external: Attr)
    returns (dependencies: Edges, prev: set<Attr>)
    requires Falling(refs, rank)
    ensures forall a, y :: y in Get(dependencies, a) <==> y in tasks && Reads(refs, external, Get(acc.read, y), a)
    ensures forall a :: a in prev <==> exists z :: z in tasks && a in Get(acc.prev, z)
  {
    hide Reads, Falling;
    dependencies, prev := map[], {};
    for i := 0 to |tasks|
      invariant forall a, y :: y in Get(dependencies, a) <==>
                  y in tasks[..i] && Reads(refs, external, Get(acc.read, y), a)
      invariant forall a :: a in prev <==> exists z :: z in tasks[..i] && a in Get(acc.prev, z)
    {
      assert tasks[..i + 1] == tasks[..i] + [tasks[i]];
      dependencies := AddReader(dependencies, refs, rank, external, Get(acc.read, tasks[i]), tasks[i]);
      prev := prev + Elements(Get(acc.prev, tasks[i]));
    }
    assert tasks[..|tasks|] == tasks;
  }

  method LinkAll(tasks: seq<Task>, modified: map<Task, seq<Attr>>, dependencies: Edges, prev: set<Attr>, root: Task)
    returns (inEdges: Edges, outEdges: Edges)
    ensures Mirrored(inEdges, outEdges)
    ensures forall x, y :: HasEdge(inEdges, x, y) <==>
              x in tasks && AnyFollows(dependencies, prev, root, Get(modified, x), y)
  {
    inEdges, outEdges := map[], map[];
    assert Mirrored(inEdges, outEdges);
    hide Mirrored, AnyFollows;
    for i := 0 to |tasks|
      invariant Mirrored(inEdges, outEdges)
      invariant forall x, y :: HasEdge(inEdges, x, y) <==>
                  x in tasks[..i] && AnyFollows(dependencies, prev, root, Get(modified, x), y)
    {
      assert tasks[..i + 1] == tasks[..i] + [tasks[i]];
      inEdges, outEdges := LinkWriter(tasks[i], Get(modified, tasks[i]), dependencies, prev, root, inEdges, outEdges);
    }
    assert tasks[..|tasks|] == tasks;
  }

  /** The graph of the tasks and the root, which reads only the external attribute and modifies
      nothing. */
  method ResolveDeps(tasks: seq<Task>, root: Task, acc: Accesses, refs: Refs, ghost rank: map<Attr, nat>,
                     external: Attr)
    returns (all: seq<Task>, inEdges: Edges, outEdges: Edges)
    requires Falling(refs, rank) && Distinct(tasks) && root !in tasks && Get(acc.modified, root) == []
    ensures all == tasks + [root] && IsGraph(all, inEdges, outEdges, root)
    ensures forall x, y :: HasEdge(inEdges, x, y) <==> Depends(acc, refs, external, all, root, x, y)
  {
    all := tasks + [root];
    var dependencies, prev := CollectReaders(all, acc, refs, rank, external);
    inEdges, outEdges := LinkAll(all, acc.modified, dependencies, prev, root);
    forall x, y ensures HasEdge(inEdges, x, y) <==> Depends(acc, refs, external, all, root, x, y) {
      EdgeMeans(acc, refs, external, all, root, dependencies, prev, x, y);
    }
    DependsGraph(acc, refs, external, all, root, inEdges, outEdges);
  }

  lemma {:induction false} EdgeMeans(acc: Accesses, refs: Refs, external: Attr, all: seq<Task>, root: Task,
                                     dependencies: Edges, prev: set<Attr>, x: Task, y: Task)
    requires forall a, y :: y in Get(dependencies, a) <==> y in all && Reads(refs, external, Get(acc.read, y), a)
    requires forall a :: a in prev <==> exists z :: z in all && a in Get(acc.prev, z)
    ensures x in all && AnyFollows(dependencies, prev, root, Get(acc.modified, x), y) <==>
              Depends(acc, refs, external, all, root, x, y)
  {
    hide Reads;
    var attrs := Get(acc.modified, x);
    forall a ensures Follows(dependencies, prev, root, a, y) <==> Triggers(acc, refs, external, all, root, a, y) {}
    if Depends(acc, refs, external, all, root, x, y) {
      var a :| a in attrs && Triggers(acc, refs, external, all, root, a, y);
      var i :| 0 <= i < |attrs| && attrs[i] == a;
      assert Follows(dependencies, prev, root, attrs[i], y);
    }
    if AnyFollows(dependencies, prev, root, attrs, y) {
      var i :| 0 <= i < |attrs| && Follows(dependencies, prev, root, attrs[i], y);
      assert attrs[i] in attrs && Triggers(acc, refs, external, all, root, attrs[i], y);
    }
  }

  lemma {:induction false} DependsGraph(acc: Accesses, refs: Refs, external: Attr, all: seq<Task>, root: Task,
                                        inEdges: Edges, outEdges: Edges)
    requires Distinct(all) && root in all && Get(acc.modified, root) == [] && Mirrored(inEdges, outEdges)
    requires forall x, y :: HasEdge(inEdges, x, y) <==> Depends(acc, refs, external, all, root, x, y)
    ensures IsGraph(all, inEdges, outEdges, root)
  {
    if Get(outEdges, root) != [] {
      var y := Get(outEdges, root)[0];
      assert Count(Get(inEdges, y), root) > 0;
      CountPositive(Get(inEdges, y), root);
      assert HasEdge(inEdges, root, y);
    }
  }
}
