/** Chains of undirected lines between numbered nodes, which define the voltage zones of the power
    flow solver and the subnets of a topology: an equivalence that grows with the lines. */
module Chains {

  type Line = (nat, nat)

  predicate Linked(lines: seq<Line>, x: nat, y: nat) {
    (x, y) in lines || (y, x) in lines
  }

  /** Consecutive nodes of p are joined by a line. */
  ghost predicate IsChain(lines: seq<Line>, p: seq<nat>) {
    |p| >= 1 && forall k, l :: 0 <= k < l < |p| && l == k + 1 ==> Linked(lines, p[k], p[l])
  }

  /** A chain of lines joins x and y. */
  ghost predicate Joined(lines: seq<Line>, x: nat, y: nat) {
    exists p :: IsChain(lines, p) && p[0] == x && p[|p| - 1] == y
  }

  lemma JoinedSelf(lines: seq<Line>, x: nat)
    ensures Joined(lines, x, x)
  {
    assert IsChain(lines, [x]) && [x][0] == x;
  }

  lemma {:induction false} JoinedBack(lines: seq<Line>, x: nat, y: nat)
    requires Joined(lines, x, y)
    ensures Joined(lines, y, x)
  {
    var p :| IsChain(lines, p) && p[0] == x && p[|p| - 1] == y;
    var n := |p|;
    var q := seq(n, k requires 0 <= k < n => p[n - 1 - k]);
    forall k, l | 0 <= k && l == k + 1 && l < n ensures Linked(lines, q[k], q[l]) {
      var a, b := n - 1 - l, n - 1 - k;
      assert b == a + 1 && Linked(lines, p[a], p[b]);
    }
    assert IsChain(lines, q) && q[0] == y && q[n - 1] == x;
  }

  lemma {:induction false} JoinedOn(lines: seq<Line>, x: nat, y: nat, z: nat)
    requires Joined(lines, x, y) && Joined(lines, y, z)
    ensures Joined(lines, x, z)
  {
    var p :| IsChain(lines, p) && p[0] == x && p[|p| - 1] == y;
    var q :| IsChain(lines, q) && q[0] == y && q[|q| - 1] == z;
    var r := p + q[1..];
    forall k, l | 0 <= k && l == k + 1 && l < |r| ensures Linked(lines, r[k], r[l]) {
      if l < |p| {
        assert r[k] == p[k] && r[l] == p[l];
      } else {
        var a, b := k - |p| + 1, l - |p| + 1;
        assert b == a + 1 && r[l] == q[b] && r[k] == q[a];
      }
    }
    assert IsChain(lines, r) && r[0] == x && r[|r| - 1] == z;
  }

  lemma {:induction false} JoinedMore(lines: seq<Line>, line: Line, x: nat, y: nat)
    requires Joined(lines, x, y)
    ensures Joined(lines + [line], x, y)
  {
    var p :| IsChain(lines, p) && p[0] == x && p[|p| - 1] == y;
    assert IsChain(lines + [line], p);
  }

  lemma JoinedByLine(lines: seq<Line>, a: nat, b: nat)
    ensures Joined(lines + [(a, b)], a, b)
  {
    var all, p := lines + [(a, b)], [a, b];
    assert all[|lines|] == (a, b);
    assert IsChain(all, p) && p[0] == a && p[|p| - 1] == b;
  }

  lemma {:induction false} JoinedNext(lines: seq<Line>, x: nat, y: nat, z: nat)
    requires Joined(lines, x, y) && Linked(lines, y, z)
    ensures Joined(lines, x, z)
  {
    var p := [y, z];
    assert IsChain(lines, p) && p[0] == y && p[|p| - 1] == z;
    JoinedOn(lines, x, y, z);
  }
}
