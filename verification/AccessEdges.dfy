module AccessEdges {

  // The dependency graph and the sorted list in terms of the attributes that tasks read and write.

  import opened TaskGraph
  import opened Scheduler
  import opened DependencyGraph

  /** A chain of references from a back to b: each attribute is read by the update tasks of the next. */
  predicate IsChain(refs: Refs, p: seq<Attr>, a: Attr, b: Attr) {
    && |p| >= 1 && p[0] == a && p[|p| - 1] == b
    && forall i: nat :: i < |p| - 1 ==> RefersAt(refs, p, i)
  }

  predicate RefersAt(refs: Refs, p: seq<Attr>, i: nat)
    requires i + 1 < |p|
  {
    p[i + 1] in refs && p[i] in refs[p[i + 1]]
  }

  /** Reading b is reading a: a is b itself, or the update of b reads it; the external attribute is not
      followed any further. */
  ghost predicate ReadThrough(refs: Refs, external: Attr, a: Attr, b: Attr) {
    a == b || (b != external && exists p :: IsChain(refs, p, a, b))
  }

  ghost predicate ReadBy(acc: Accesses, refs: Refs, external: Attr, a: Attr, y: Task) {
    y in acc.read && exists i :: 0 <= i < |acc.read[y]| && ReadThrough(refs, external, a, acc.read[y][i])
  }

  predicate ReadBefore(acc: Accesses, all: seq<Task>, a: Attr) {
    exists z :: z in all && z in acc.prev && a in acc.prev[z]
  }

  /** x must run before y: it modifies what y reads in this step, or y is the root and x modifies what
      some task reads from the previous step. */
  ghost predicate Feeds(acc: Accesses, refs: Refs, external: Attr, all: seq<Task>, root: Task, x: Task, y: Task) {
    x in all && x in acc.modified && exists a :: a in acc.modified[x] && ReadLater(acc, refs, external, all, root, a, y)
  }

  ghost predicate ReadLater(acc: Accesses, refs: Refs, external: Attr, all: seq<Task>, root: Task, a: Attr, y: Task) {
    (y in all && ReadBy(acc, refs, external, a, y)) || (y == root && ReadBefore(acc, all, a))
  }

  lemma {:induction false} ReachesThrough(refs: Refs, external: Attr, a: Attr, b: Attr)
    ensures Reaches(refs, external, a, b) <==> ReadThrough(refs, external, a, b)
  {
    if a == b { LeadsSelf(refs, a); }
    if p :| IsPath(refs, p) && p[0] == a && p[|p| - 1] == b {
      forall i: nat | i < |p| - 1 ensures RefersAt(refs, p, i) { assert EdgeAt(refs, p, i); }
      assert IsChain(refs, p, a, b);
    }
    if p :| IsChain(refs, p, a, b) {
      forall i: nat | i < |p| - 1 ensures EdgeAt(refs, p, i) { assert RefersAt(refs, p, i); }
      assert IsPath(refs, p);
    }
  }

  lemma {:induction false} ReadsThrough(acc: Accesses, refs: Refs, external: Attr, a: Attr, y: Task)
    ensures Reads(refs, external, Get(acc.read, y), a) <==> ReadBy(acc, refs, external, a, y)
  {
    hide Reaches, ReadThrough;
    var attrs := Get(acc.read, y);
    forall i | 0 <= i < |attrs|
      ensures Reaches(refs, external, a, attrs[i]) <==> ReadThrough(refs, external, a, attrs[i])
    {
      ReachesThrough(refs, external, a, attrs[i]);
    }
  }

  /** The edges of the dependency graph. */
  lemma {:induction false} EdgesFeed(acc: Accesses, refs: Refs, external: Attr, all: seq<Task>, root: Task, x: Task,
                                     y: Task)
    ensures Depends(acc, refs, external, all, root, x, y) <==> Feeds(acc, refs, external, all, root, x, y)
  {
    forall a
      ensures Triggers(acc, refs, external, all, root, a, y) <==> ReadLater(acc, refs, external, all, root, a, y)
    {
      LaterRead(acc, refs, external, all, root, a, y);
    }
    hide Triggers, ReadLater;
    assert x in all && x !in acc.modified ==> Get(acc.modified, x) == [];
  }

  lemma LaterRead(acc: Accesses, refs: Refs, external: Attr, all: seq<Task>, root: Task, a: Attr, y: Task)
    ensures Triggers(acc, refs, external, all, root, a, y) <==> ReadLater(acc, refs, external, all, root, a, y)
  {
    hide Reads, ReadBy;
    ReadsThrough(acc, refs, external, a, y);
    if z :| z in all && a in Get(acc.prev, z) { assert z in acc.prev && a in acc.prev[z]; }
    if z :| z in all && z in acc.prev && a in acc.prev[z] { assert a in Get(acc.prev, z); }
  }

  // ---------------------------------------------------------------- the sorted list

  ghost predicate FeedsAt(acc: Accesses, refs: Refs, external: Attr, all: seq<Task>, root: Task, p: seq<Task>, i: nat)
    requires i + 1 < |p|
  {
    Feeds(acc, refs, external, all, root, p[i], p[i + 1])
  }

  /** Each task of p must run before the next, up to the root. */
  ghost predicate FeedsRoot(acc: Accesses, refs: Refs, external: Attr, all: seq<Task>, root: Task, p: seq<Task>) {
    |p| >= 1 && p[|p| - 1] == root && forall i: nat :: i < |p| - 1 ==> FeedsAt(acc, refs, external, all, root, p, i)
  }

  /** The sort of the resolved graph: the tasks from which data leads to the root, and of two tasks
      neither must run before an earlier one. */
  lemma {:induction false} SortedFeed(acc: Accesses, refs: Refs, external: Attr, all: seq<Task>, root: Task,
                                      inEdges: Edges, sorted: seq<Task>, t: Task)
    requires IsSort(inEdges, root, sorted)
    requires forall x, y :: HasEdge(inEdges, x, y) <==> Depends(acc, refs, external, all, root, x, y)
    ensures t in sorted <==> t != root && exists p :: FeedsRoot(acc, refs, external, all, root, p) && p[0] == t
    ensures forall i, j :: 0 <= i <= j < |sorted| ==> !Feeds(acc, refs, external, all, root, sorted[j], sorted[i])
  {
    hide Depends, Feeds, HasEdge, Climbing;
    forall x, y ensures HasEdge(inEdges, x, y) <==> Feeds(acc, refs, external, all, root, x, y) {
      EdgesFeed(acc, refs, external, all, root, x, y);
    }
    if p :| IsPath(inEdges, p) && p[0] == t && p[|p| - 1] == root {
      forall i: nat | i < |p| - 1
        ensures FeedsAt(acc, refs, external, all, root, p, i)
      {
        assert EdgeAt(inEdges, p, i);
      }
      assert FeedsRoot(acc, refs, external, all, root, p);
    }
    if p :| FeedsRoot(acc, refs, external, all, root, p) && p[0] == t {
      forall i: nat | i < |p| - 1
        ensures EdgeAt(inEdges, p, i)
      {
        assert FeedsAt(acc, refs, external, all, root, p, i);
      }
      assert IsPath(inEdges, p);
    }
    forall i, j | 0 <= i <= j < |sorted| ensures !Feeds(acc, refs, external, all, root, sorted[j], sorted[i]) {
      assert sorted[j] !in sorted[..i];
    }
  }
}
