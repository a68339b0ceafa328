module PartsInOrder {

  // The parts that lists are split into keep the order of the list.

  import opened Topology
  import TaskGraph
  import TaskLevels

  /** A part of a list, in the order of the list: as position of each of its elements there is one after
      those of the elements before. */
  ghost predicate InOrder<T(!new)>(part: seq<T>, list: seq<T>) {
    exists at :: Places(part, list, at)
  }

  ghost predicate Places<T>(part: seq<T>, list: seq<T>, at: seq<int>) {
    && |at| == |part| && (forall i :: 0 <= i < |at| ==> 0 <= at[i] < |list| && list[at[i]] == part[i])
    && forall i, j :: 0 <= i < j < |at| ==> at[i] < at[j]
  }

  lemma PlacesSame<T(!new)>(part: seq<T>, list: seq<T>, x: T)
    requires InOrder(part, list)
    ensures InOrder(part, list + [x])
  {
    var at :| Places(part, list, at);
    assert Places(part, list + [x], at);
  }

  lemma PlacesMore<T(!new)>(part: seq<T>, list: seq<T>, x: T)
    requires InOrder(part, list)
    ensures InOrder(part + [x], list + [x])
  {
    var at :| Places(part, list, at);
    var at' := at + [|list|];
    forall i, j | 0 <= i < j < |at'| ensures at'[i] < at'[j] { assert i < |at| && at'[i] == at[i]; }
    assert Places(part + [x], list + [x], at');
  }

  /** The nodes of a part. */
  lemma {:induction false} NodesInOrder(nodes: seq<Node>, subnet: Labels, l: nat)
    ensures InOrder(NodesIn(nodes, subnet, l), nodes)
  {
    if nodes == [] {
      assert Places<Node>([], nodes, []);
    } else {
      hide InOrder;
      var n := |nodes| - 1;
      var part := NodesIn(nodes[..n], subnet, l);
      NodesInOrder(nodes[..n], subnet, l);
      PlacesSame(part, nodes[..n], nodes[n]);
      PlacesMore(part, nodes[..n], nodes[n]);
      assert nodes == nodes[..n] + [nodes[n]] && part + [] == part;
    }
  }

  /** The components of a part. */
  lemma {:induction false} ComponentsInOrder(components: seq<Component>, ground: set<Node>, subnet: Labels, l: nat)
    ensures InOrder(ComponentsIn(components, ground, subnet, l), components)
  {
    if components == [] {
      assert Places<Component>([], components, []);
    } else {
      hide InOrder;
      var n := |components| - 1;
      var part := ComponentsIn(components[..n], ground, subnet, l);
      ComponentsInOrder(components[..n], ground, subnet, l);
      PlacesSame(part, components[..n], components[n]);
      PlacesMore(part, components[..n], components[n]);
      assert components == components[..n] + [components[n]] && part + [] == part;
    }
  }

  /** The tasks of a level. */
  lemma {:induction false} LevelInOrder(level: map<TaskGraph.Task, nat>, tasks: seq<TaskGraph.Task>, l: nat)
    ensures InOrder(TaskLevels.AtLevel(level, tasks, l), tasks)
  {
    if tasks == [] {
      assert Places<TaskGraph.Task>([], tasks, []);
    } else {
      hide InOrder;
      var n := |tasks| - 1;
      var part := TaskLevels.AtLevel(level, tasks[..n], l);
      LevelInOrder(level, tasks[..n], l);
      PlacesSame(part, tasks[..n], tasks[n]);
      PlacesMore(part, tasks[..n], tasks[n]);
      assert tasks == tasks[..n] + [tasks[n]] && part + [] == part;
    }
  }
}
