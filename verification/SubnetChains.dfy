module SubnetChains {

  // The subnets of a network and the parts that it is split into, in terms of its components.

  import opened Chains
  import opened Topology

  /** Both nodes are terminals of one power component, and neither is grounded. */
  ghost predicate Connected(components: seq<Component>, ground: set<Node>, x: Node, y: Node) {
    x !in ground && y !in ground && exists c ::
      0 <= c < |components| && components[c].power && x in components[c].terminals && y in components[c].terminals
  }

  /** Consecutive nodes of p are connected. */
  ghost predicate IsConnection(components: seq<Component>, ground: set<Node>, p: seq<Node>) {
    |p| >= 1 && forall i, j :: 0 <= i < j < |p| && j == i + 1 ==> Connected(components, ground, p[i], p[j])
  }

  ghost predicate ConnectedByChain(components: seq<Component>, ground: set<Node>, x: Node, y: Node) {
    exists p :: IsConnection(components, ground, p) && p[0] == x && p[|p| - 1] == y
  }

  lemma {:induction false} ConnectedIffLinked(components: seq<Component>, ground: set<Node>, x: Node, y: Node)
    requires x != y
    ensures Linked(AllLines(components, ground, |components|), x, y) <==> Connected(components, ground, x, y)
  {
    hide Linked, AllLines;
    assert components[..|components|] == components;
    LinesHave(components, ground, |components|, x, y);
    if c :| 0 <= c < |components| && HasPair(components[c], ground, x, y) {
      var i, j :| TerminalPair(components[c], ground, i, j, x, y);
      assert x in components[c].terminals && y in components[c].terminals;
    }
    if Connected(components, ground, x, y) {
      var c :| 0 <= c < |components| && components[c].power && x in components[c].terminals &&
               y in components[c].terminals;
      var i :| 0 <= i < |components[c].terminals| && components[c].terminals[i] == x;
      var j :| 0 <= j < |components[c].terminals| && components[c].terminals[j] == y;
      assert TerminalPair(components[c], ground, i, j, x, y);
      assert HasPair(components[c], ground, x, y);
    }
  }

  lemma {:induction false} JoinedByConnection(components: seq<Component>, ground: set<Node>, p: seq<Node>)
    requires IsConnection(components, ground, p)
    ensures Joined(AllLines(components, ground, |components|), p[0], p[|p| - 1])
    decreases |p|
  {
    hide Joined, Linked, Connected, AllLines;
    var lines, n := AllLines(components, ground, |components|), |p| - 1;
    JoinedSelf(lines, p[0]);
    if n > 0 {
      assert IsConnection(components, ground, p[..n]);
      JoinedByConnection(components, ground, p[..n]);
      if p[n - 1] != p[n] {
        ConnectedIffLinked(components, ground, p[n - 1], p[n]);
        JoinedNext(lines, p[0], p[n - 1], p[n]);
      }
    }
  }

  lemma {:induction false} ConnectionOfChain(components: seq<Component>, ground: set<Node>, p: seq<Node>)
    requires IsChain(AllLines(components, ground, |components|), p)
    ensures ConnectedByChain(components, ground, p[0], p[|p| - 1])
    decreases |p|
  {
    hide Linked, Connected, AllLines;
    var n := |p| - 1;
    if n == 0 {
      assert IsConnection(components, ground, p);
    } else {
      assert IsChain(AllLines(components, ground, |components|), p[..n]);
      ConnectionOfChain(components, ground, p[..n]);
      if p[n - 1] != p[n] {
        var q :| IsConnection(components, ground, q) && q[0] == p[0] && q[|q| - 1] == p[n - 1];
        ConnectedIffLinked(components, ground, p[n - 1], p[n]);
        assert IsConnection(components, ground, q + [p[n]]);
      }
    }
  }

  /** Two nodes have the same label exactly if the terminals of power components connect them without
      passing ground. */
  lemma {:induction false} SubnetsAreConnected(nodes: seq<Node>, ground: set<Node>, components: seq<Component>,
                                               subnet: Labels, k: nat, x: Node, y: Node)
    requires IsSubnets(nodes, ground, components, subnet, k)
    requires x in nodes && x !in ground && y in nodes && y !in ground
    ensures x in subnet && y in subnet && subnet[x] < k
    ensures subnet[x] == subnet[y] <==> ConnectedByChain(components, ground, x, y)
  {
    hide Joined, IsConnection, AllLines, InUse, Connected, IsChain;
    assert x in NonGround(nodes, ground) && y in NonGround(nodes, ground);
    var lines := AllLines(components, ground, |components|);
    assert subnet[x] == subnet[y] <==> Joined(lines, x, y);
    if Joined(lines, x, y) { ChainJoining(components, ground, x, y); }
    if ConnectedByChain(components, ground, x, y) { JoinedByChain(components, ground, x, y); }
  }

  lemma ChainJoining(components: seq<Component>, ground: set<Node>, x: Node, y: Node)
    requires Joined(AllLines(components, ground, |components|), x, y)
    ensures ConnectedByChain(components, ground, x, y)
  {
    hide IsConnection, AllLines, Linked;
    var p :| IsChain(AllLines(components, ground, |components|), p) && p[0] == x && p[|p| - 1] == y;
    ConnectionOfChain(components, ground, p);
  }

  lemma JoinedByChain(components: seq<Component>, ground: set<Node>, x: Node, y: Node)
    requires ConnectedByChain(components, ground, x, y)
    ensures Joined(AllLines(components, ground, |components|), x, y)
  {
    hide Joined, Connected, AllLines;
    var p :| IsConnection(components, ground, p) && p[0] == x && p[|p| - 1] == y;
    JoinedByConnection(components, ground, p);
  }

  /** The label of the first terminal that has one. */
  predicate FirstLabelled(terminals: seq<Node>, ground: set<Node>, subnet: Labels, i: nat) {
    && i < |terminals| && terminals[i] !in ground && terminals[i] in subnet
    && forall k :: 0 <= k < i ==> terminals[k] in ground || terminals[k] !in subnet
  }

  lemma {:induction false} HomeIsOfFirst(terminals: seq<Node>, ground: set<Node>, subnet: Labels, i: nat)
    requires FirstLabelled(terminals, ground, subnet, i)
    ensures HomeFrom(terminals, ground, subnet) == In(subnet[terminals[i]])
  {
    if i > 0 {
      assert terminals[0] in ground || terminals[0] !in subnet;
      HomeIsOfFirst(terminals[1..], ground, subnet, i - 1);
    }
  }

  /** A component is in a part as often as in the network: a signal component in the first part, a
      power component in that of its first labelled terminal. */
  lemma {:induction false} PartCounts(components: seq<Component>, ground: set<Node>, subnet: Labels, l: nat,
                                      comp: Component, i: nat)
    requires comp.power ==> FirstLabelled(comp.terminals, ground, subnet, i)
    ensures multiset(ComponentsIn(components, ground, subnet, l))[comp] ==
            if l == (if comp.power then subnet[comp.terminals[i]] else 0) then multiset(components)[comp] else 0
  {
    if components != [] {
      var n := |components| - 1;
      assert components == components[..n] + [components[n]];
      PartCounts(components[..n], ground, subnet, l, comp, i);
      if comp.power { HomeIsOfFirst(comp.terminals, ground, subnet, i); }
    }
  }
}
