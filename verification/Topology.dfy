module Topology {

  // SystemTopology: finding the subnets of a network and splitting the network along them.

  import opened Chains

  type Node = nat

  /** A component and the nodes of its terminals; signal components take no part in the network. */
  datatype Component = Component(id: nat, power: bool, terminals: seq<Node>)

  /** Two different terminals of a power component, none of them grounded. */
  ghost predicate Adjacent(components: seq<Component>, ground: set<Node>, x: Node, y: Node) {
    exists c :: 0 <= c < |components| && HasPair(components[c], ground, x, y)
  }

  ghost predicate HasPair(comp: Component, ground: set<Node>, x: Node, y: Node) {
    exists i, j :: TerminalPair(comp, ground, i, j, x, y)
  }

  predicate TerminalPair(comp: Component, ground: set<Node>, i: int, j: int, x: Node, y: Node) {
    && comp.power && 0 <= i < |comp.terminals| && 0 <= j < |comp.terminals| && i != j
    && comp.terminals[i] == x && comp.terminals[j] == y && x !in ground && y !in ground
  }

  type Neighbours = map<Node, seq<Node>>

  function Get(neighbours: Neighbours, x: Node): seq<Node> {
    if x in neighbours then neighbours[x] else []
  }

  /** The neighbour lists hold both ends of every line, and the lines are the given pairs. */
  ghost predicate Lists(neighbours: Neighbours, lines: seq<Line>) {
    forall x, y :: y in Get(neighbours, x) <==> Linked(lines, x, y)
  }

  function AddBoth(neighbours: Neighbours, x: Node, y: Node): Neighbours {
    var n := neighbours[x := Get(neighbours, x) + [y]];
    n[y := Get(n, y) + [x]]
  }

  lemma {:induction false} AddLine(neighbours: Neighbours, lines: seq<Line>, x: Node, y: Node)
    requires Lists(neighbours, lines)
    ensures Lists(AddBoth(neighbours, x, y), lines + [(x, y)])
  {
    var n := neighbours[x := Get(neighbours, x) + [y]];
    forall a, b ensures b in Get(AddBoth(neighbours, x, y), a) <==> Linked(lines + [(x, y)], a, b) {
      assert b in Get(n, a) <==> b in Get(neighbours, a) || (a == x && b == y);
      assert b in Get(AddBoth(neighbours, x, y), a) <==> b in Get(n, a) || (a == y && b == x);
    }
  }

  /** The lines from terminal i of a component to those before terminal j. */
  function RowLines(terminals: seq<Node>, ground: set<Node>, i: nat, j: nat): seq<Line>
    requires i < |terminals| && j <= |terminals|
  {
    if j == 0 then [] else
    RowLines(terminals, ground, i, j - 1) +
    if terminals[i] in ground || terminals[j - 1] in ground then [] else [(terminals[i], terminals[j - 1])]
  }

  /** The lines between the first n terminals. */
  function TerminalLines(terminals: seq<Node>, ground: set<Node>, n: nat): seq<Line>
    requires n <= |terminals|
  {
    if n == 0 then [] else TerminalLines(terminals, ground, n - 1) + RowLines(terminals, ground, n - 1, n - 1)
  }

  /** The lines of the first n components. */
  function AllLines(components: seq<Component>, ground: set<Node>, n: nat): seq<Line>
    requires n <= |components|
  {
    if n == 0 then [] else
    var comp := components[n - 1];
    AllLines(components, ground, n - 1) +
      if comp.power then TerminalLines(comp.terminals, ground, |comp.terminals|) else []
  }

  lemma {:induction false} RowHas(terminals: seq<Node>, ground: set<Node>, i: nat, j: nat, x: Node, y: Node)
    requires i < |terminals| && j <= |terminals|
    ensures (x, y) in RowLines(terminals, ground, i, j) <==>
            x == terminals[i] && x !in ground && y !in ground && exists k :: 0 <= k < j && terminals[k] == y
  {
    if j > 0 { RowHas(terminals, ground, i, j - 1, x, y); }
  }

  lemma {:induction false} TerminalsHave(terminals: seq<Node>, ground: set<Node>, n: nat, x: Node, y: Node)
    requires n <= |terminals|
    ensures (x, y) in TerminalLines(terminals, ground, n) <==>
            x !in ground && y !in ground && exists i, k :: 0 <= k < i < n && terminals[i] == x && terminals[k] == y
  {
    if n > 0 {
      TerminalsHave(terminals, ground, n - 1, x, y);
      RowHas(terminals, ground, n - 1, n - 1, x, y);
    }
  }

  function LinesOf(comp: Component, ground: set<Node>): seq<Line> {
    if comp.power then TerminalLines(comp.terminals, ground, |comp.terminals|) else []
  }

  lemma {:induction false} LinesHave(components: seq<Component>, ground: set<Node>, n: nat, x: Node, y: Node)
    requires n <= |components|
    ensures Linked(AllLines(components, ground, n), x, y) <==> Adjacent(components[..n], ground, x, y)
  {
    if n > 0 {
      hide HasPair, TerminalLines, Linked, Adjacent;
      var comp, before := components[n - 1], components[..n - 1];
      LinesHave(components, ground, n - 1, x, y);
      ComponentPair(comp, ground, x, y);
      AdjacentNext(before, comp, ground, x, y);
      assert components[..n] == before + [comp];
      assert AllLines(components, ground, n) == AllLines(components, ground, n - 1) + LinesOf(comp, ground);
      LinkedAppend(AllLines(components, ground, n - 1), LinesOf(comp, ground), x, y);
    } else {
      assert components[..0] == [];
    }
  }

  lemma AdjacentNext(before: seq<Component>, comp: Component, ground: set<Node>, x: Node, y: Node)
    ensures Adjacent(before + [comp], ground, x, y) <==> Adjacent(before, ground, x, y) || HasPair(comp, ground, x, y)
  {
    var all := before + [comp];
    if Adjacent(before, ground, x, y) {
      var c :| 0 <= c < |before| && HasPair(before[c], ground, x, y);
      assert all[c] == before[c];
    }
    assert all[|before|] == comp;
  }

  lemma LinkedAppend(a: seq<Line>, b: seq<Line>, x: Node, y: Node)
    ensures Linked(a + b, x, y) <==> Linked(a, x, y) || Linked(b, x, y)
  {
  }

  lemma ComponentPair(comp: Component, ground: set<Node>, x: Node, y: Node)
    ensures Linked(LinesOf(comp, ground), x, y) <==> HasPair(comp, ground, x, y)
  {
    var t := comp.terminals;
    TerminalsHave(t, ground, |t|, x, y);
    TerminalsHave(t, ground, |t|, y, x);
    if Linked(LinesOf(comp, ground), x, y) {
      if (x, y) in LinesOf(comp, ground) {
        var i, k :| 0 <= k < i < |t| && t[i] == x && t[k] == y;
        assert TerminalPair(comp, ground, i, k, x, y);
      } else {
        var i, k :| 0 <= k < i < |t| && t[i] == y && t[k] == x;
        assert TerminalPair(comp, ground, k, i, x, y);
      }
    }
    if HasPair(comp, ground, x, y) {
      var i, j :| TerminalPair(comp, ground, i, j, x, y);
      if j < i { assert t[i] == x && t[j] == y; } else { assert t[j] == y && t[i] == x; }
    }
  }

  /** The pairs of terminal i with those before it. */
  method PairTerminal(t: seq<Node>, ground: set<Node>, i: nat, neighbours: Neighbours, ghost before: seq<Line>)
    returns (r: Neighbours)
    requires i < |t| && Lists(neighbours, before)
    ensures Lists(r, before + RowLines(t, ground, i, i))
  {
    hide Lists, AddBoth;
    r := neighbours;
    assert before + [] == before;
    for j := 0 to i
      invariant Lists(r, before + RowLines(t, ground, i, j))
    {
      ghost var lines := before + RowLines(t, ground, i, j);
      if t[i] !in ground && t[j] !in ground {
        AddLine(r, lines, t[i], t[j]);
        assert lines + [(t[i], t[j])] == before + RowLines(t, ground, i, j + 1);
        r := AddBoth(r, t[i], t[j]);
      } else {
        assert RowLines(t, ground, i, j + 1) == RowLines(t, ground, i, j);
      }
    }
  }

  method PairTerminals(t: seq<Node>, ground: set<Node>, neighbours: Neighbours, ghost before: seq<Line>)
    returns (r: Neighbours)
    requires Lists(neighbours, before)
    ensures Lists(r, before + TerminalLines(t, ground, |t|))
  {
    hide Lists, RowLines;
    r := neighbours;
    assert before + [] == before;
    for i := 0 to |t|
      invariant Lists(r, before + TerminalLines(t, ground, i))
    {
      r := PairTerminal(t, ground, i, r, before + TerminalLines(t, ground, i));
      assert before + TerminalLines(t, ground, i) + RowLines(t, ground, i, i) ==
             before + TerminalLines(t, ground, i + 1);
    }
  }

  method FindNeighbours(components: seq<Component>, ground: set<Node>) returns (neighbours: Neighbours)
    ensures Lists(neighbours, AllLines(components, ground, |components|))
  {
    neighbours := map[];
    for c := 0 to |components|
      invariant Lists(neighbours, AllLines(components, ground, c))
    {
      hide Lists, TerminalLines;
      if components[c].power {
        neighbours := PairTerminals(components[c].terminals, ground, neighbours, AllLines(components, ground, c));
      } else {
        assert AllLines(components, ground, c + 1) == AllLines(components, ground, c);
      }
    }
  }

  // ---------------------------------------------------------------- labelling the subnets

  type Labels = map<Node, nat>

  predicate Distinct(xs: seq<Node>) {
    forall i, j :: 0 <= i < j < |xs| ==> xs[i] != xs[j]
  }

  function Elements(xs: seq<Node>): set<Node> { set x | x in xs }

  /** Neighbours are nodes of the network, and neighbours of each other. */
  ghost predicate Network(neighbours: Neighbours, nodes: set<Node>) {
    forall x, y {:trigger y in Get(neighbours, x)} :: y in Get(neighbours, x) ==>
           x in nodes && y in nodes && x in Get(neighbours, y)
  }

  /** The labels below k have been given to whole subnets: neighbours have equal labels, equal labels
      only joined nodes, and every label below k is in use. */
  ghost predicate LabelsOk(neighbours: Neighbours, lines: seq<Line>, nodes: set<Node>, subnet: Labels, k: nat) {
    && subnet.Keys <= nodes
    && (forall x :: x in subnet ==> subnet[x] < k)
    && (forall l :: 0 <= l < k ==> InUse(subnet, l))
    && (forall x, y :: x in subnet && y in Get(neighbours, x) ==> y in subnet && subnet[y] == subnet[x])
    && forall x, y :: x in subnet && y in subnet && subnet[x] == subnet[y] ==> Joined(lines, x, y)
  }

  ghost predicate InUse(subnet: Labels, l: nat) {
    exists x :: x in subnet && subnet[x] == l
  }

  /** During the search from node s for subnet k: what has been labelled or waits is joined to s, and
      the neighbours of labelled nodes are labelled or wait. */
  ghost predicate SearchOk(neighbours: Neighbours, lines: seq<Line>, nodes: set<Node>, before: Labels, subnet: Labels,
                           waiting: set<Node>, k: nat, s: Node) {
    && (forall x :: x in before ==> x in subnet && subnet[x] == before[x])
    && (forall x :: x in subnet && x !in before ==> subnet[x] == k && x in nodes && Joined(lines, s, x))
    && (forall x :: x in waiting ==> x in nodes && x !in before && Joined(lines, s, x))
    && (s in waiting || (s in subnet && s !in before))
    && forall x, y :: x in subnet && x !in before && y in Get(neighbours, x) ==> y in subnet || y in waiting
  }

  lemma {:induction false} SearchStart(neighbours: Neighbours, lines: seq<Line>, nodes: set<Node>, before: Labels,
                                       k: nat, s: Node)
    requires s in nodes && s !in before
    ensures SearchOk(neighbours, lines, nodes, before, before, {s}, k, s)
  {
    JoinedSelf(lines, s);
  }

  lemma {:induction false} SearchStep(neighbours: Neighbours, lines: seq<Line>, nodes: set<Node>, before: Labels,
                                      subnet: Labels, waiting: set<Node>, k: nat, s: Node, x: Node, waiting': set<Node>)
    requires SearchOk(neighbours, lines, nodes, before, subnet, waiting, k, s) && x in waiting
    requires Lists(neighbours, lines) && Network(neighbours, nodes) && LabelsOk(neighbours, lines, nodes, before, k)
    requires waiting - {x} <= waiting' &&
             (forall y :: y in waiting' ==> y in waiting || (y in Get(neighbours, x) && y !in subnet))
    requires forall y :: y in Get(neighbours, x) ==> y in subnet || y == x || y in waiting'
    ensures SearchOk(neighbours, lines, nodes, before, subnet[x := k], waiting', k, s)
  {
    forall y | y in Get(neighbours, x) && y !in subnet ensures y in nodes && y !in before && Joined(lines, s, y) {
      assert Linked(lines, x, y);
      JoinedNext(lines, s, x, y);
    }
  }

  lemma {:induction false} SearchEnd(neighbours: Neighbours, lines: seq<Line>, nodes: set<Node>, before: Labels,
                                     subnet: Labels, k: nat, s: Node)
    requires SearchOk(neighbours, lines, nodes, before, subnet, {}, k, s) &&
             LabelsOk(neighbours, lines, nodes, before, k) && Network(neighbours, nodes)
    ensures LabelsOk(neighbours, lines, nodes, subnet, k + 1) && |before| < |subnet|
  {
    NewClosed(neighbours, lines, nodes, before, subnet, k, s);
    NewInUse(neighbours, lines, nodes, before, subnet, k, s);
    NewJoined(neighbours, lines, nodes, before, subnet, k, s);
    Larger(before, subnet, s);
  }

  lemma {:induction false} NewClosed(neighbours: Neighbours, lines: seq<Line>, nodes: set<Node>, before: Labels,
                                     subnet: Labels, k: nat, s: Node)
    requires SearchOk(neighbours, lines, nodes, before, subnet, {}, k, s) &&
             LabelsOk(neighbours, lines, nodes, before, k) && Network(neighbours, nodes)
    ensures subnet.Keys <= nodes && forall x :: x in subnet ==> subnet[x] < k + 1
    ensures forall x, y :: x in subnet && y in Get(neighbours, x) ==> y in subnet && subnet[y] == subnet[x]
  {
    hide Joined;
    forall x | x in subnet ensures x in nodes && subnet[x] < k + 1 { if x in before { assert x in before.Keys; } }
  }

  lemma {:induction false} NewInUse(neighbours: Neighbours, lines: seq<Line>, nodes: set<Node>, before: Labels,
                                    subnet: Labels, k: nat, s: Node)
    requires SearchOk(neighbours, lines, nodes, before, subnet, {}, k, s) &&
             LabelsOk(neighbours, lines, nodes, before, k)
    ensures forall l :: 0 <= l < k + 1 ==> InUse(subnet, l)
  {
    hide Joined;
    forall l | 0 <= l < k + 1 ensures InUse(subnet, l) {
      if l < k {
        assert InUse(before, l);
        var x :| x in before && before[x] == l;
        assert x in subnet;
      }
    }
  }

  lemma {:induction false} NewJoined(neighbours: Neighbours, lines: seq<Line>, nodes: set<Node>, before: Labels,
                                     subnet: Labels, k: nat, s: Node)
    requires SearchOk(neighbours, lines, nodes, before, subnet, {}, k, s) &&
             LabelsOk(neighbours, lines, nodes, before, k)
    ensures forall x, y :: x in subnet && y in subnet && subnet[x] == subnet[y] ==> Joined(lines, x, y)
  {
    hide Joined, InUse;
    forall x, y | x in subnet && y in subnet && subnet[x] == subnet[y] ensures Joined(lines, x, y) {
      if x !in before || y !in before {
        JoinedBack(lines, s, x);
        JoinedOn(lines, x, s, y);
      }
    }
  }

  lemma Larger(before: Labels, subnet: Labels, s: Node)
    requires s in subnet && s !in before && forall x :: x in before ==> x in subnet
    ensures |before| < |subnet|
  {
    SubsetSize(before.Keys, subnet.Keys - {s});
    assert |before.Keys| == |before| && |subnet.Keys| == |subnet|;
  }

  lemma {:induction false} SubsetSize(xs: set<Node>, ys: set<Node>)
    requires xs <= ys
    ensures |xs| <= |ys| && (|xs| == |ys| ==> xs == ys)
  {
    if xs != {} {
      var x :| x in xs;
      SubsetSize(xs - {x}, ys - {x});
    } else if ys != {} {
      var y :| y in ys;
    }
  }

  /** How many entries of the worklist have been labelled since they were added. */
  function Stale(queue: seq<Node>, subnet: Labels): nat {
    if queue == [] then 0 else (if queue[0] in subnet then 1 else 0) + Stale(queue[1..], subnet)
  }

  lemma {:induction false} StaleAppend(queue: seq<Node>, more: seq<Node>, subnet: Labels)
    ensures Stale(queue + more, subnet) == Stale(queue, subnet) + Stale(more, subnet)
  {
    if queue == [] {
      assert queue + more == more;
    } else {
      StaleAppend(queue[1..], more, subnet);
      assert (queue + more)[1..] == queue[1..] + more;
    }
  }

  /** The neighbours that have no label yet join the worklist, whether or not they wait already. */
  method PushUnlabelled(neighbours: seq<Node>, subnet: Labels, queue: seq<Node>) returns (r: seq<Node>)
    ensures Elements(queue) <= Elements(r) && Stale(r, subnet) == Stale(queue, subnet)
    ensures forall y :: y in Elements(r) ==> y in Elements(queue) || (y in neighbours && y !in subnet)
    ensures forall y :: y in neighbours ==> y in subnet || y in Elements(r)
  {
    r := queue;
    for i := 0 to |neighbours|
      invariant Elements(queue) <= Elements(r) && Stale(r, subnet) == Stale(queue, subnet)
      invariant forall y :: y in Elements(r) ==> y in Elements(queue) || (y in neighbours && y !in subnet)
      invariant forall y :: y in neighbours[..i] ==> y in subnet || y in Elements(r)
    {
      assert neighbours[..i + 1] == neighbours[..i] + [neighbours[i]];
      if neighbours[i] !in subnet {
        StaleAppend(r, [neighbours[i]], subnet);
        assert Elements(r + [neighbours[i]]) == Elements(r) + {neighbours[i]};
        r := r + [neighbours[i]];
      }
    }
    assert neighbours[..|neighbours|] == neighbours;
  }

  /** The worklist search from s; entries may be duplicates, and a stale one is labelled and expanded
      again: each such step uses up one stale entry. */
  method LabelSubnet(neighbours: Neighbours, ghost lines: seq<Line>, ghost nodes: set<Node>, before: Labels, k: nat,
                     s: Node) returns (subnet: Labels)
    requires Lists(neighbours, lines) && Network(neighbours, nodes) && LabelsOk(neighbours, lines, nodes, before, k)
    requires s in nodes && s !in before
    ensures LabelsOk(neighbours, lines, nodes, subnet, k + 1) && |before| < |subnet|
  {
    subnet := before;
    var queue := [s];
    SearchStart(neighbours, lines, nodes, before, k, s);
    assert Elements(queue) == {s};
    hide SearchOk, LabelsOk, Lists, Network, Elements;
    while queue != []
      invariant SearchOk(neighbours, lines, nodes, before, subnet, Elements(queue), k, s)
      decreases |nodes - subnet.Keys|, Stale(queue, subnet)
    {
      subnet, queue := SearchNode(neighbours, lines, nodes, before, subnet, queue, k, s);
    }
    assert Elements([]) == {} by { NoElements(); }
    SearchEnd(neighbours, lines, nodes, before, subnet, k, s);
  }

  lemma NoElements()
    ensures Elements([]) == {}
  {
  }

  /** One entry of the worklist. */
  method SearchNode(neighbours: Neighbours, ghost lines: seq<Line>, ghost nodes: set<Node>, ghost before: Labels,
                    subnet: Labels, queue: seq<Node>, k: nat, ghost s: Node)
    returns (subnet': Labels, queue': seq<Node>)
    requires Lists(neighbours, lines) && Network(neighbours, nodes) && LabelsOk(neighbours, lines, nodes, before, k)
    requires SearchOk(neighbours, lines, nodes, before, subnet, Elements(queue), k, s) && queue != []
    ensures SearchOk(neighbours, lines, nodes, before, subnet', Elements(queue'), k, s)
    ensures |nodes - subnet'.Keys| < |nodes - subnet.Keys| ||
            (subnet'.Keys == subnet.Keys && Stale(queue', subnet') < Stale(queue, subnet))
  {
    hide SearchOk, LabelsOk, Lists, Network;
    var x, rest := queue[0], queue[1..];
    assert queue == [x] + rest && Elements(queue) == {x} + Elements(rest);
    WaitingNode(neighbours, lines, nodes, before, subnet, Elements(queue), k, s, x);
    subnet' := subnet[x := k];
    queue' := PushUnlabelled(Get(neighbours, x), subnet', rest);
    SearchStep(neighbours, lines, nodes, before, subnet, Elements(queue), k, s, x, Elements(queue'));
    if x in subnet {
      assert subnet'.Keys == subnet.Keys;
      SameStale(rest, subnet, subnet');
    } else {
      assert nodes - subnet.Keys == (nodes - subnet'.Keys) + {x};
    }
  }

  lemma WaitingNode(neighbours: Neighbours, lines: seq<Line>, nodes: set<Node>, before: Labels, subnet: Labels,
                    waiting: set<Node>, k: nat, s: Node, x: Node)
    requires SearchOk(neighbours, lines, nodes, before, subnet, waiting, k, s) && x in waiting
    ensures x in nodes
  {
  }

  lemma {:induction false} SameStale(queue: seq<Node>, subnet: Labels, subnet': Labels)
    requires subnet.Keys == subnet'.Keys
    ensures Stale(queue, subnet) == Stale(queue, subnet')
  {
    if queue != [] { SameStale(queue[1..], subnet, subnet'); }
  }

  // ---------------------------------------------------------------- all subnets

  /** The terminals of power components are grounded or nodes of the system. */
  ghost predicate Wired(nodes: seq<Node>, ground: set<Node>, components: seq<Component>) {
    Distinct(nodes) && forall c, i ::
      0 <= c < |components| && 0 <= i < |components[c].terminals| && components[c].power ==>
      components[c].terminals[i] in ground || components[c].terminals[i] in nodes
  }

  function NonGround(nodes: seq<Node>, ground: set<Node>): set<Node> {
    set x | x in nodes && x !in ground
  }

  /** What checkTopologySubnets finds: equal labels exactly for nodes joined without passing ground,
      and every label from 0 to k - 1 in use. */
  ghost predicate IsSubnets(nodes: seq<Node>, ground: set<Node>, components: seq<Component>, subnet: Labels, k: nat) {
    && subnet.Keys == NonGround(nodes, ground)
    && (forall x :: x in subnet ==> subnet[x] < k)
    && (forall l :: 0 <= l < k ==> InUse(subnet, l))
    && forall x, y :: x in subnet && y in subnet ==>
         (subnet[x] == subnet[y] <==> Joined(AllLines(components, ground, |components|), x, y))
  }

  lemma {:induction false} WiredPair(nodes: seq<Node>, ground: set<Node>, components: seq<Component>,
                                     neighbours: Neighbours, x: Node, y: Node)
    requires Wired(nodes, ground, components) && Lists(neighbours, AllLines(components, ground, |components|)) &&
             y in Get(neighbours, x)
    ensures x in NonGround(nodes, ground) && y in NonGround(nodes, ground) && x in Get(neighbours, y)
  {
    var lines := AllLines(components, ground, |components|);
    assert Linked(lines, x, y) && Linked(lines, y, x);
    assert components[..|components|] == components;
    LinesHave(components, ground, |components|, x, y);
    var c :| 0 <= c < |components| && HasPair(components[c], ground, x, y);
    var i, j :| TerminalPair(components[c], ground, i, j, x, y);
    assert components[c].terminals[i] in nodes && components[c].terminals[j] in nodes;
  }

  lemma {:induction false} WiredNetwork(nodes: seq<Node>, ground: set<Node>, components: seq<Component>,
                                        neighbours: Neighbours)
    requires Wired(nodes, ground, components) && Lists(neighbours, AllLines(components, ground, |components|))
    ensures Network(neighbours, NonGround(nodes, ground))
  {
    hide Wired, Lists, NonGround, AllLines;
    forall x, y {:trigger y in Get(neighbours, x)} | y in Get(neighbours, x)
      ensures x in NonGround(nodes, ground) && y in NonGround(nodes, ground) && x in Get(neighbours, y)
    {
      WiredPair(nodes, ground, components, neighbours, x, y);
    }
  }

  lemma {:induction false} ChainKeepsLabel(neighbours: Neighbours, lines: seq<Line>, nodes: set<Node>, subnet: Labels,
                                           k: nat, p: seq<nat>)
    requires Lists(neighbours, lines) && LabelsOk(neighbours, lines, nodes, subnet, k) && IsChain(lines, p) &&
             p[0] in subnet
    ensures p[|p| - 1] in subnet && subnet[p[|p| - 1]] == subnet[p[0]]
    decreases |p|
  {
    hide Joined, InUse;
    if |p| > 1 {
      var n := |p| - 1;
      assert IsChain(lines, p[..n]);
      ChainKeepsLabel(neighbours, lines, nodes, subnet, k, p[..n]);
      var a, b := n - 1, n;
      assert Linked(lines, p[a], p[b]);
      assert p[b] in Get(neighbours, p[a]);
    }
  }

  lemma {:induction false} LabelsAreSubnets(nodes: seq<Node>, ground: set<Node>, components: seq<Component>,
                                            neighbours: Neighbours, subnet: Labels, k: nat)
    requires Lists(neighbours, AllLines(components, ground, |components|)) && subnet.Keys == NonGround(nodes, ground)
    requires LabelsOk(neighbours, AllLines(components, ground, |components|), NonGround(nodes, ground), subnet, k)
    ensures IsSubnets(nodes, ground, components, subnet, k)
  {
    var lines := AllLines(components, ground, |components|);
    forall x, y | x in subnet && y in subnet && Joined(lines, x, y) ensures subnet[x] == subnet[y] {
      var p :| IsChain(lines, p) && p[0] == x && p[|p| - 1] == y;
      ChainKeepsLabel(neighbours, lines, NonGround(nodes, ground), subnet, k, p);
    }
  }

  method CountNodes(nodes: seq<Node>, ground: set<Node>) returns (total: nat)
    requires Distinct(nodes)
    ensures total == |NonGround(nodes, ground)|
  {
    total := |nodes|;
    ghost var grounded: set<Node> := {};
    assert NonGround(nodes[..0], ground) == {};
    for i := 0 to |nodes|
      invariant total == |NonGround(nodes[..i], ground)| + (|nodes| - i)
    {
      assert nodes[..i + 1] == nodes[..i] + [nodes[i]] && nodes[i] !in nodes[..i];
      if nodes[i] in ground {
        assert NonGround(nodes[..i + 1], ground) == NonGround(nodes[..i], ground);
        total := total - 1;
      } else {
        assert NonGround(nodes[..i + 1], ground) == NonGround(nodes[..i], ground) + {nodes[i]};
      }
    }
    assert nodes[..|nodes|] == nodes;
  }

  /** The first node that has no label yet. */
  method FirstUnlabelled(nodes: seq<Node>, ground: set<Node>, subnet: Labels) returns (s: Node)
    requires exists x :: x in NonGround(nodes, ground) && x !in subnet
    ensures s in NonGround(nodes, ground) && s !in subnet
  {
    for i := 0 to |nodes|
      invariant forall j :: 0 <= j < i ==> nodes[j] in ground || nodes[j] in subnet
    {
      if nodes[i] !in ground && nodes[i] !in subnet {
        return nodes[i];
      }
    }
    assert false;
  }

  method CheckTopologySubnets(nodes: seq<Node>, ground: set<Node>, components: seq<Component>)
    returns (subnet: Labels, currentNet: nat)
    requires Wired(nodes, ground, components)
    ensures IsSubnets(nodes, ground, components, subnet, currentNet)
  {
    hide LabelsOk, Lists, Network, IsSubnets, AllLines;
    var neighbours := FindNeighbours(components, ground);
    ghost var lines, all := AllLines(components, ground, |components|), NonGround(nodes, ground);
    WiredNetwork(nodes, ground, components, neighbours);
    currentNet := 0;
    var totalNodes := CountNodes(nodes, ground);
    subnet := map[];
    NoLabels(neighbours, lines, all);
    while |subnet| != totalNodes
      invariant LabelsOk(neighbours, lines, all, subnet, currentNet) && subnet.Keys <= all
      decreases |all| - |subnet|
    {
      SubsetSize(subnet.Keys, all);
      SomeUnlabelled(subnet, all);
      var s := FirstUnlabelled(nodes, ground, subnet);
      subnet := LabelSubnet(neighbours, lines, all, subnet, currentNet, s);
      LabelledNodes(neighbours, lines, all, subnet, currentNet + 1);
      SubsetSize(subnet.Keys, all);
      currentNet := currentNet + 1;
    }
    SubsetSize(subnet.Keys, all);
    LabelsAreSubnets(nodes, ground, components, neighbours, subnet, currentNet);
  }

  lemma NoLabels(neighbours: Neighbours, lines: seq<Line>, nodes: set<Node>)
    ensures LabelsOk(neighbours, lines, nodes, map[], 0)
  {
  }

  lemma LabelledNodes(neighbours: Neighbours, lines: seq<Line>, nodes: set<Node>, subnet: Labels, k: nat)
    requires LabelsOk(neighbours, lines, nodes, subnet, k)
    ensures subnet.Keys <= nodes
  {
  }

  lemma SomeUnlabelled(subnet: Labels, nodes: set<Node>)
    requires subnet.Keys <= nodes && |subnet| != |nodes|
    ensures exists x :: x in nodes && x !in subnet
  {
    assert |subnet.Keys| == |subnet|;
    assert subnet.Keys != nodes;
    var x :| x in nodes && x !in subnet.Keys;
  }

  // ---------------------------------------------------------------- the split

  datatype System = System(nodes: seq<Node>, components: seq<Component>)

  /** The subnet of a component: that of its first terminal off ground. Signal components go to the
      first subnet; a power component with grounded terminals only goes nowhere. */
  datatype Home = Nowhere | In(net: nat)

  function HomeFrom(terminals: seq<Node>, ground: set<Node>, subnet: Labels): Home {
    if terminals == [] then Nowhere
    else if terminals[0] !in ground && terminals[0] in subnet then In(subnet[terminals[0]])
    else HomeFrom(terminals[1..], ground, subnet)
  }

  function HomeOf(comp: Component, ground: set<Node>, subnet: Labels): Home {
    if comp.power then HomeFrom(comp.terminals, ground, subnet) else In(0)
  }

  function NodesIn(nodes: seq<Node>, subnet: Labels, l: nat): seq<Node> {
    if nodes == [] then [] else
    var x := nodes[|nodes| - 1];
    NodesIn(nodes[..|nodes| - 1], subnet, l) + if x in subnet && subnet[x] == l then [x] else []
  }

  function ComponentsIn(components: seq<Component>, ground: set<Node>, subnet: Labels, l: nat): seq<Component> {
    if components == [] then [] else
    var comp := components[|components| - 1];
    ComponentsIn(components[..|components| - 1], ground, subnet, l) +
      if HomeOf(comp, ground, subnet) == In(l) then [comp] else []
  }

  lemma {:induction false} NodesInMeans(nodes: seq<Node>, subnet: Labels, l: nat, x: Node)
    ensures x in NodesIn(nodes, subnet, l) <==> x in nodes && x in subnet && subnet[x] == l
  {
    if nodes != [] {
      var n := |nodes| - 1;
      assert nodes == nodes[..n] + [nodes[n]];
      NodesInMeans(nodes[..n], subnet, l, x);
    }
  }

  lemma {:induction false} ComponentsInMeans(components: seq<Component>, ground: set<Node>, subnet: Labels, l: nat,
                                             comp: Component)
    ensures comp in ComponentsIn(components, ground, subnet, l) <==>
              comp in components && HomeOf(comp, ground, subnet) == In(l)
  {
    if components != [] {
      var n := |components| - 1;
      assert components == components[..n] + [components[n]];
      ComponentsInMeans(components[..n], ground, subnet, l, comp);
    }
  }

  lemma {:induction false} HomeIsFirst(terminals: seq<Node>, ground: set<Node>, subnet: Labels)
    requires forall i :: 0 <= i < |terminals| ==> terminals[i] in ground || terminals[i] in subnet
    ensures HomeFrom(terminals, ground, subnet) == Nowhere <==> forall i :: 0 <= i < |terminals| ==>
              terminals[i] in ground
    ensures HomeFrom(terminals, ground, subnet).In? ==>
              exists i ::
                0 <= i < |terminals| && terminals[i] !in ground &&
                HomeFrom(terminals, ground, subnet) == In(subnet[terminals[i]])
  {
    if terminals != [] {
      HomeIsFirst(terminals[1..], ground, subnet);
      assert terminals == [terminals[0]] + terminals[1..];
    }
  }

  /** The subnet that gets a power component holds all its nodes off ground. */
  lemma {:induction false} SubnetHoldsTerminals(nodes: seq<Node>, ground: set<Node>, components: seq<Component>,
                                                subnet: Labels, k: nat, comp: Component, i: nat)
    requires Wired(nodes, ground, components) && IsSubnets(nodes, ground, components, subnet, k)
    requires comp in components && comp.power && i < |comp.terminals| && comp.terminals[i] !in ground
    ensures comp.terminals[i] in subnet && HomeOf(comp, ground, subnet) == In(subnet[comp.terminals[i]])
    ensures comp.terminals[i] in NodesIn(nodes, subnet, subnet[comp.terminals[i]])
  {
    var t := comp.terminals;
    var c :| 0 <= c < |components| && components[c] == comp;
    assert forall j :: 0 <= j < |t| ==> t[j] in ground || t[j] in NonGround(nodes, ground);
    HomeIsFirst(t, ground, subnet);
    var j :| 0 <= j < |t| && t[j] !in ground && HomeOf(comp, ground, subnet) == In(subnet[t[j]]);
    var lines := AllLines(components, ground, |components|);
    if i != j {
      assert TerminalPair(comp, ground, i, j, t[i], t[j]) && HasPair(comp, ground, t[i], t[j]);
      assert components[..|components|] == components;
      LinesHave(components, ground, |components|, t[i], t[j]);
      JoinedSelf(lines, t[i]);
      JoinedNext(lines, t[i], t[i], t[j]);
    }
    NodesInMeans(nodes, subnet, subnet[t[i]], t[i]);
  }

  predicate OffGround(comp: Component, ground: set<Node>) {
    exists i :: 0 <= i < |comp.terminals| && comp.terminals[i] !in ground
  }

  predicate InPart(components: seq<Component>, ground: set<Node>, subnet: Labels, l: nat, comp: Component) {
    comp in ComponentsIn(components, ground, subnet, l)
  }

  /** Components are lost exactly if they are power components with grounded terminals only; every
      other one is in exactly one subnet. */
  lemma {:induction false} ComponentIsKept(nodes: seq<Node>, ground: set<Node>, components: seq<Component>,
                                           subnet: Labels, k: nat, comp: Component)
    requires Wired(nodes, ground, components) && IsSubnets(nodes, ground, components, subnet, k) && k >= 1
    requires comp in components
    ensures (exists l: nat :: l < k && InPart(components, ground, subnet, l, comp)) <==>
              !comp.power || OffGround(comp, ground)
    ensures forall l: nat, l': nat ::
              InPart(components, ground, subnet, l, comp) && InPart(components, ground, subnet, l', comp) ==>
              l == l'
  {
    var c :| 0 <= c < |components| && components[c] == comp;
    var t, home := comp.terminals, HomeOf(comp, ground, subnet);
    if comp.power {
      assert forall j :: 0 <= j < |t| ==> t[j] in ground || t[j] in NonGround(nodes, ground);
      HomeIsFirst(t, ground, subnet);
      HomeBelow(t, ground, subnet, k);
    }
    assert home.In? <==> !comp.power || OffGround(comp, ground);
    forall l: nat ensures InPart(components, ground, subnet, l, comp) <==> home == In(l) {
      ComponentsInMeans(components, ground, subnet, l, comp);
    }
    if home.In? { assert home.net < k && InPart(components, ground, subnet, home.net, comp); }
  }

  predicate Kept(systems: seq<System>, comp: Component) {
    exists l :: 0 <= l < |systems| && comp in systems[l].components
  }

  /** The components of the systems that a network is split into. */
  lemma SystemsKeep(nodes: seq<Node>, ground: set<Node>, components: seq<Component>, subnet: Labels,
                    systems: seq<System>)
    requires Wired(nodes, ground, components) && IsSubnets(nodes, ground, components, subnet, |systems|) &&
             |systems| >= 1
    requires forall l :: 0 <= l < |systems| ==> systems[l].components == ComponentsIn(components, ground, subnet, l)
    ensures forall comp :: comp in components ==> (Kept(systems, comp) <==> !comp.power || OffGround(comp, ground))
  {
    hide Wired, IsSubnets, OffGround, ComponentsIn;
    forall comp | comp in components ensures Kept(systems, comp) <==> !comp.power || OffGround(comp, ground) {
      ComponentIsKept(nodes, ground, components, subnet, |systems|, comp);
      assert forall l: nat :: l < |systems| ==>
               (InPart(components, ground, subnet, l, comp) <==> comp in systems[l].components);
    }
  }

  method FirstHome(comp: Component, ground: set<Node>, subnet: Labels) returns (home: Home)
    requires forall i :: 0 <= i < |comp.terminals| && comp.power ==>
               comp.terminals[i] in ground || comp.terminals[i] in subnet
    ensures home == HomeOf(comp, ground, subnet)
  {
    if !comp.power {
      return In(0);
    }
    var t := comp.terminals;
    for i := 0 to |t|
      invariant HomeFrom(t, ground, subnet) == HomeFrom(t[i..], ground, subnet)
    {
      assert t[i..][0] == t[i] && t[i..][1..] == t[i + 1..];
      if t[i] !in ground {
        return In(subnet[t[i]]);
      }
    }
    home := Nowhere;
  }

  /** Labels below n for exactly the nodes off ground. */
  predicate LabelsBelow(nodes: seq<Node>, ground: set<Node>, subnet: Labels, n: nat) {
    subnet.Keys == NonGround(nodes, ground) && forall x :: x in subnet ==> subnet[x] < n
  }

  method GroupNodes(nodes: seq<Node>, ground: set<Node>, subnet: Labels, n: nat) returns (groups: seq<seq<Node>>)
    requires LabelsBelow(nodes, ground, subnet, n)
    ensures |groups| == n && forall l :: 0 <= l < n ==> groups[l] == NodesIn(nodes, subnet, l)
  {
    groups := seq(n, l => []);
    for i := 0 to |nodes|
      invariant |groups| == n && forall l :: 0 <= l < n ==> groups[l] == NodesIn(nodes[..i], subnet, l)
    {
      var x := nodes[i];
      assert nodes[..i + 1][..i] == nodes[..i];
      assert x in ground ==> x !in NonGround(nodes, ground);
      assert x !in ground ==> x in NonGround(nodes, ground);
      if x !in ground {
        groups := groups[subnet[x] := groups[subnet[x]] + [x]];
      }
    }
    assert nodes[..|nodes|] == nodes;
  }

  method GroupComponents(nodes: seq<Node>, components: seq<Component>, ground: set<Node>, subnet: Labels, n: nat)
    returns (parts: seq<seq<Component>>)
    requires Wired(nodes, ground, components) && LabelsBelow(nodes, ground, subnet, n) && n >= 1
    ensures |parts| == n && forall l :: 0 <= l < n ==> parts[l] == ComponentsIn(components, ground, subnet, l)
  {
    parts := seq(n, l => []);
    for c := 0 to |components|
      invariant |parts| == n && forall l :: 0 <= l < n ==> parts[l] == ComponentsIn(components[..c], ground, subnet, l)
    {
      assert components[..c + 1][..c] == components[..c];
      forall i | 0 <= i < |components[c].terminals| && components[c].power
        ensures components[c].terminals[i] in ground || components[c].terminals[i] in subnet
      {
        assert components[c].terminals[i] in ground || components[c].terminals[i] in NonGround(nodes, ground);
      }
      var home := FirstHome(components[c], ground, subnet);
      HomeBelow(components[c].terminals, ground, subnet, n);
      if home.In? {
        parts := parts[home.net := parts[home.net] + [components[c]]];
      }
    }
    assert components[..|components|] == components;
  }

  lemma {:induction false} HomeBelow(terminals: seq<Node>, ground: set<Node>, subnet: Labels, n: nat)
    requires forall x :: x in subnet ==> subnet[x] < n
    ensures HomeFrom(terminals, ground, subnet).In? ==> HomeFrom(terminals, ground, subnet).net < n
  {
    if terminals != [] { HomeBelow(terminals[1..], ground, subnet, n); }
  }

  /** splitSubnets, for a network with at least one node off ground. */
  method SplitSubnets(nodes: seq<Node>, ground: set<Node>, components: seq<Component>)
    returns (systems: seq<System>, ghost subnet: Labels)
    requires Wired(nodes, ground, components) && NonGround(nodes, ground) != {}
    ensures IsSubnets(nodes, ground, components, subnet, |systems|)
    ensures |systems| == 1 ==> systems == [System(nodes, components)]
    ensures |systems| != 1 ==> forall l :: 0 <= l < |systems| ==>
              systems[l] == System(NodesIn(nodes, subnet, l), ComponentsIn(components, ground, subnet, l))
    ensures |systems| != 1 ==> forall comp :: comp in components ==>
              (Kept(systems, comp) <==> !comp.power || OffGround(comp, ground))
  {
    var labels, n := CheckTopologySubnets(nodes, ground, components);
    subnet := labels;
    if n == 1 {
      return [System(nodes, components)], subnet;
    }
    var x :| x in NonGround(nodes, ground);
    assert x in labels;
    assert n >= 1 && LabelsBelow(nodes, ground, labels, n);
    var groups := GroupNodes(nodes, ground, labels, n);
    var parts := GroupComponents(nodes, components, ground, labels, n);
    systems := seq(n, l requires 0 <= l < n => System(groups[l], parts[l]));
    SystemsKeep(nodes, ground, components, labels, systems);
  }
}
