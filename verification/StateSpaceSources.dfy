module StateSpaceSources {

  // The source terms of the network for given history states: those of all components, each from its
  // own states.

  import opened LinearAlgebra
  import opened StateSpace

  /** The sum of what the first n components inject. */
  function Injections(ks: seq<Contributor>, h: Vec, n: nat, m: nat): (r: Vec)
    requires AllSized(ks, m) && n <= |ks| && Offset(ks, n) <= |h|
    ensures |r| == m
  {
    if n == 0 then Zeros(m)
    else
      Plus(Injections(ks, h, n - 1, m), Combine(ks[n - 1].blocks.c, h[Offset(ks, n - 1)..Offset(ks, n)], m))
  }

  lemma {:induction false} CombineConcat(a: seq<Vec>, b: seq<Vec>, i: Vec, j: Vec, m: nat)
    requires Columns(a, m) && Columns(b, m) && |a| == |i| && |b| == |j|
    ensures Columns(a + b, m) && Combine(a + b, i + j, m) == Plus(Combine(a, i, m), Combine(b, j, m))
  {
    if a == [] {
      assert a + b == b && i + j == j;
    } else {
      assert (a + b)[1..] == a[1..] + b && (i + j)[1..] == i[1..] + j;
      CombineConcat(a[1..], b, i[1..], j, m);
    }
  }

  lemma {:induction false} SourcesOf(s: Stamps, ks: seq<Contributor>, i: nat, m: nat)
    requires AllSized(ks, m) && IsComplete(s, ks, m) && i < |ks|
    ensures Offset(ks, i) + States(ks[i]) <= |s.cd| == Offset(ks, |ks|)
    ensures s.cd[Offset(ks, i)..Offset(ks, i) + States(ks[i])] == ks[i].blocks.c
  {
    hide Offset, Padded;
    var o, n := Offset(ks, i), Offset(ks, |ks|);
    assert StampedAt(s, ks[i].blocks, o, n, m, true) && |ks[i].blocks.c| == States(ks[i]);
    forall r | 0 <= r < States(ks[i]) ensures s.cd[o..o + States(ks[i])][r] == ks[i].blocks.c[r] {
      assert Carries(s, ks[i].blocks, r, o, n, m, true);
    }
  }

  lemma CombineSplit(cd: seq<Vec>, h: Vec, o: nat, o': nat, m: nat)
    requires o <= o' <= |cd| == |h| && Columns(cd, m)
    ensures Columns(cd[..o], m) && Columns(cd[o..o'], m) && Columns(cd[..o'], m)
    ensures Combine(cd[..o'], h[..o'], m) == Plus(Combine(cd[..o], h[..o], m), Combine(cd[o..o'], h[o..o'], m))
  {
    hide Combine;
    assert cd[..o'] == cd[..o] + cd[o..o'] && h[..o'] == h[..o] + h[o..o'];
    CombineConcat(cd[..o], cd[o..o'], h[..o], h[o..o'], m);
  }

  lemma CompleteShape(s: Stamps, ks: seq<Contributor>, n: nat, m: nat)
    requires AllSized(ks, m) && IsComplete(s, ks, m) && n <= |ks|
    ensures Offset(ks, n) <= |s.cd| == Offset(ks, |ks|) && Columns(s.cd, m)
  {
    hide Offset, StampedAt;
    if n < |ks| { OffsetsGrow(ks, n, |ks|); }
  }

  lemma InjectionsNext(ks: seq<Contributor>, h: Vec, n: nat, m: nat)
    requires AllSized(ks, m) && n < |ks| && Offset(ks, n) + States(ks[n]) <= |h|
    ensures Offset(ks, n + 1) == Offset(ks, n) + States(ks[n]) && Columns(ks[n].blocks.c, m)
    ensures |ks[n].blocks.c| == States(ks[n])
    ensures Injections(ks, h, n + 1, m) ==
            Plus(Injections(ks, h, n, m), Combine(ks[n].blocks.c, h[Offset(ks, n)..Offset(ks, n + 1)], m))
  {
    hide Combine;
  }

  lemma SourcesNone(cd: seq<Vec>, ks: seq<Contributor>, h: Vec, m: nat)
    requires AllSized(ks, m)
    ensures Offset(ks, 0) == 0 && Combine(cd[..0], h[..0], m) == Injections(ks, h, 0, m)
  {
  }

  lemma {:induction false} SourcesUpTo(s: Stamps, ks: seq<Contributor>, h: Vec, n: nat, m: nat)
    requires AllSized(ks, m) && IsComplete(s, ks, m) && |h| == Offset(ks, |ks|) && n <= |ks|
    ensures Offset(ks, n) <= |h| == |s.cd| && Columns(s.cd, m)
    ensures Combine(s.cd[..Offset(ks, n)], h[..Offset(ks, n)], m) == Injections(ks, h, n, m)
  {
    hide *;
    CompleteShape(s, ks, n, m);
    SourcesNone(s.cd, ks, h, m);
    if n > 0 {
      SourcesUpTo(s, ks, h, n - 1, m);
      SourcesOf(s, ks, n - 1, m);
      InjectionsNext(ks, h, n - 1, m);
      CombineSplit(s.cd, h, Offset(ks, n - 1), Offset(ks, n), m);
    }
  }

  /** The right side of the network equation holds the injections of every component. */
  lemma {:induction false} SourcesAreInjections(s: Stamps, ks: seq<Contributor>, h: Vec, m: nat)
    requires AllSized(ks, m) && IsComplete(s, ks, m) && |h| == Offset(ks, |ks|)
    ensures Combine(s.cd, h, m) == Injections(ks, h, |ks|, m)
  {
    SourcesUpTo(s, ks, h, |ks|, m);
    assert s.cd[..|h|] == s.cd && h[..|h|] == h;
  }
}
