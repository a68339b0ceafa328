/** MNAStateSpaceExtractor: the closed-loop matrix of the components' history states, cached and
    rebuilt only when a change has been reported. */
module StateSpace {

  import opened LinearAlgebra

  /** What a component stamps for its n history states h, when the network has m unknowns x: its own
      update h' = a h + b x, and the columns c of its source terms Y x = ... + c h. */
  datatype Blocks = Blocks(a: seq<Vec>, b: seq<Vec>, c: seq<Vec>)

  /** A component; updated says whether its blocks may change after initialisation. */
  datatype Contributor = Contributor(updated: bool, blocks: Blocks)

  function States(k: Contributor): nat { |k.blocks.a| }

  predicate BlocksSized(blocks: Blocks, m: nat) {
    IsMatrix(blocks.a, |blocks.a|, |blocks.a|) && IsMatrix(blocks.b, |blocks.a|, m) && IsMatrix(blocks.c, |blocks.a|, m)
  }

  predicate Sized(k: Contributor, m: nat) {
    BlocksSized(k.blocks, m)
  }

  predicate AllSized(ks: seq<Contributor>, m: nat) {
    forall i :: 0 <= i < |ks| ==> Sized(ks[i], m)
  }

  /** The number of states before contributor n. */
  function Offset(ks: seq<Contributor>, n: nat): nat
    requires n <= |ks|
  {
    if n == 0 then 0 else Offset(ks, n - 1) + States(ks[n - 1])
  }

  lemma {:induction false} OffsetsGrow(ks: seq<Contributor>, i: nat, j: nat)
    requires i < j <= |ks|
    ensures Offset(ks, i) + States(ks[i]) <= Offset(ks, j)
  {
    if i < j - 1 { OffsetsGrow(ks, i, j - 1); }
  }

  /** The vector v at offset o of an otherwise zero vector of length n. */
  function Padded(v: Vec, o: nat, n: nat): (r: Vec)
    requires o + |v| <= n
    ensures |r| == n
  {
    Zeros(o) + v + Zeros(n - o - |v|)
  }

  /** A padded row picks out its own part of the states. */
  lemma {:induction false} DotPadded(v: Vec, o: nat, h: Vec)
    requires o + |v| <= |h|
    ensures Dot(Padded(v, o, |h|), h) == Dot(v, h[o..o + |v|])
  {
    if o > 0 {
      DotPadded(v, o - 1, h[1..]);
      assert Padded(v, o, |h|)[0] == Zeros(o)[0] == 0.0;
      assert Padded(v, o, |h|)[1..] == Padded(v, o - 1, |h| - 1);
      assert h[1..][o - 1..o - 1 + |v|] == h[o..o + |v|];
    } else {
      DotTail(v, h);
    }
  }

  lemma {:induction false} DotTail(v: Vec, h: Vec)
    requires |v| <= |h|
    ensures Dot(Padded(v, 0, |h|), h) == Dot(v, h[..|v|])
  {
    if v == [] {
      assert Padded(v, 0, |h|) == Zeros(|h|);
      DotCommutes(Zeros(|h|), h);
      DotZeros(h);
    } else {
      DotTail(v[1..], h[1..]);
      assert Padded(v, 0, |h|)[1..] == Padded(v[1..], 0, |h| - 1) && Padded(v, 0, |h|)[0] == v[0];
      assert h[1..][..|v| - 1] == h[..|v|][1..];
    }
  }

  /** mAdLocal and mBdMna by rows, mCdMna by columns. */
  datatype Stamps = Stamps(ad: seq<Vec>, bd: seq<Vec>, cd: seq<Vec>)

  predicate Shaped(s: Stamps, n: nat, m: nat) {
    IsMatrix(s.ad, n, n) && IsMatrix(s.bd, n, m) && IsMatrix(s.cd, n, m)
  }

  function ZeroStamps(n: nat, m: nat): (s: Stamps)
    ensures Shaped(s, n, m)
  {
    Stamps(seq(n, r => Zeros(n)), seq(n, r => Zeros(m)), seq(n, r => Zeros(m)))
  }

  function PlusStamps(s: Stamps, t: Stamps, n: nat, m: nat): (r: Stamps)
    requires Shaped(s, n, m) && Shaped(t, n, m)
    ensures Shaped(r, n, m)
  {
    Stamps(seq(n, j requires 0 <= j < n => Plus(s.ad[j], t.ad[j])),
           seq(n, j requires 0 <= j < n => Plus(s.bd[j], t.bd[j])),
               seq(n, j requires 0 <= j < n => Plus(s.cd[j], t.cd[j])))
  }

  /** State o + r of the stamps carries local state r of a contributor at offset o, or nothing. */
  predicate Carries(s: Stamps, blocks: Blocks, r: nat, o: nat, n: nat, m: nat, present: bool)
    requires Shaped(s, n, m) && BlocksSized(blocks, m) && r < |blocks.a| && o + |blocks.a| <= n
  {
    && s.ad[o + r] == (if present then Padded(blocks.a[r], o, n) else Zeros(n))
    && s.bd[o + r] == (if present then blocks.b[r] else Zeros(m))
    && s.cd[o + r] == (if present then blocks.c[r] else Zeros(m))
  }

  /** The contributor at offset o has been stamped, or not. */
  predicate StampedAt(s: Stamps, blocks: Blocks, o: nat, n: nat, m: nat, present: bool)
    requires Shaped(s, n, m) && BlocksSized(blocks, m)
  {
    o + |blocks.a| <= n && forall r :: 0 <= r < |blocks.a| ==> Carries(s, blocks, r, o, n, m, present)
  }

  /** The contributors with this flag have been stamped, and no others. */
  ghost predicate IsStamp(s: Stamps, ks: seq<Contributor>, m: nat, flag: bool)
    requires AllSized(ks, m)
  {
    Shaped(s, Offset(ks, |ks|), m) && forall i :: 0 <= i < |ks| ==>
      StampedAt(s, ks[i].blocks, Offset(ks, i), Offset(ks, |ks|), m, ks[i].updated == flag)
  }

  /** All contributors have been stamped. */
  ghost predicate IsComplete(s: Stamps, ks: seq<Contributor>, m: nat)
    requires AllSized(ks, m)
  {
    Shaped(s, Offset(ks, |ks|), m) && forall i :: 0 <= i < |ks| ==>
      StampedAt(s, ks[i].blocks, Offset(ks, i), Offset(ks, |ks|), m, true)
  }

  // ---------------------------------------------------------------- the closed loop

  /** Y^-1 applied to the columns of mCdMna. */
  function Responses(solve: Solver, y: Matrix, cd: seq<Vec>): (r: seq<Vec>)
    ensures |r| == |cd|
  {
    seq(|cd|, k requires 0 <= k < |cd| => solve(y, cd[k]))
  }

  /** mAd = mAdLocal + mBdMna * solve(Y, mCdMna), by rows. */
  ghost predicate IsClosedLoop(ad: seq<Vec>, solve: Solver, y: Matrix, s: Stamps, n: nat, m: nat)
    requires Shaped(s, n, m)
  {
    && |ad| == n && Columns(Responses(solve, y, s.cd), m)
    && forall j :: 0 <= j < n ==> |ad[j]| == n && ad[j] == Plus(s.ad[j], Dots(Responses(solve, y, s.cd), s.bd[j]))
  }

  /** The network solution for history h is the combination of the responses. */
  lemma {:induction false} NetworkSolution(solve: Solver, y: Matrix, s: Stamps, n: nat, m: nat, h: Vec, x: Vec)
    requires Solves(solve) && Regular(y) && |y| == m && Shaped(s, n, m) && |h| == n && |x| == m
    requires Times(y, x) == Combine(s.cd, h, m)
    ensures Columns(Responses(solve, y, s.cd), m) && x == Combine(Responses(solve, y, s.cd), h, m)
  {
    var rs := Responses(solve, y, s.cd);
    forall k | 0 <= k < n ensures |rs[k]| == m && Times(y, rs[k]) == s.cd[k] { SolvesOne(solve, y, s.cd[k]); }
    TimesCombine(y, rs, s.cd, h);
    assert Times(y, x) == Times(y, Combine(rs, h, m));
  }

  /** Solving the network for the history states h and letting every component update its own states
      is one multiplication by the closed-loop matrix. */
  lemma {:induction false} ClosedLoopIsExact(solve: Solver, y: Matrix, s: Stamps, ks: seq<Contributor>, m: nat,
                                             ad: seq<Vec>, h: Vec, x: Vec, i: nat, r: nat)
    requires Solves(solve) && Regular(y) && |y| == m && AllSized(ks, m) && IsComplete(s, ks, m)
    requires |h| == Offset(ks, |ks|) && |x| == m && Times(y, x) == Combine(s.cd, h, m)
    requires IsClosedLoop(ad, solve, y, s, |h|, m) && i < |ks| && r < States(ks[i])
    ensures Offset(ks, i) + States(ks[i]) <= |h|
    ensures Dot(ad[Offset(ks, i) + r], h) ==
            Dot(ks[i].blocks.a[r], h[Offset(ks, i)..Offset(ks, i) + States(ks[i])]) + Dot(ks[i].blocks.b[r], x)
  {
    hide Dot, Times, Combine, Dots, Padded, Regular, Solves, Responses, IsComplete, StampedAt, Carries;
    var n, o, j := |h|, Offset(ks, i), Offset(ks, i) + r;
    CompleteRow(s, ks, m, i, r);
    NetworkSolution(solve, y, s, n, m, h, x);
    LoopRow(ad[j], s.ad[j], s.bd[j], Responses(solve, y, s.cd), h, x);
    DotPadded(ks[i].blocks.a[r], o, h);
  }

  lemma {:induction false} CompleteRow(s: Stamps, ks: seq<Contributor>, m: nat, i: nat, r: nat)
    requires AllSized(ks, m) && IsComplete(s, ks, m) && i < |ks| && r < States(ks[i])
    ensures Shaped(s, Offset(ks, |ks|), m) && Offset(ks, i) + States(ks[i]) <= Offset(ks, |ks|) &&
            |ks[i].blocks.a[r]| == States(ks[i])
    ensures s.ad[Offset(ks, i) + r] == Padded(ks[i].blocks.a[r], Offset(ks, i), Offset(ks, |ks|))
    ensures s.bd[Offset(ks, i) + r] == ks[i].blocks.b[r]
  {
    hide Offset, Padded;
    OffsetsGrow(ks, i, |ks|);
    assert StampedAt(s, ks[i].blocks, Offset(ks, i), Offset(ks, |ks|), m, true);
    assert Carries(s, ks[i].blocks, r, Offset(ks, i), Offset(ks, |ks|), m, true);
  }

  lemma LoopRow(row: Vec, own: Vec, input: Vec, responses: seq<Vec>, h: Vec, x: Vec)
    requires |own| == |h| == |responses| && |input| == |x| && Columns(responses, |input|)
    requires row == Plus(own, Dots(responses, input)) && x == Combine(responses, h, |x|)
    ensures Dot(row, h) == Dot(own, h) + Dot(input, x)
  {
    DotPlusLeft(own, Dots(responses, input), h);
    DotCombine(input, responses, h);
  }

  // ---------------------------------------------------------------- stamping

  /** Outside the states o..o + k - 1 nothing differs. */
  ghost predicate SameOutside(s: Stamps, t: Stamps, o: nat, k: nat, n: nat, m: nat)
    requires Shaped(s, n, m) && Shaped(t, n, m)
  {
    forall j :: 0 <= j < n && (j < o || j >= o + k) ==> s.ad[j] == t.ad[j] && s.bd[j] == t.bd[j] && s.cd[j] == t.cd[j]
  }

  lemma PlusZeros(v: Vec)
    ensures Plus(Zeros(|v|), v) == v && Plus(v, Zeros(|v|)) == v
  {
  }

  /** Adds one state of a contributor. */
  method StampState(s: Stamps, blocks: Blocks, r: nat, o: nat, n: nat, m: nat) returns (t: Stamps)
    requires Shaped(s, n, m) && BlocksSized(blocks, m) && r < |blocks.a| && o + |blocks.a| <= n &&
             Carries(s, blocks, r, o, n, m, false)
    ensures Shaped(t, n, m) && Carries(t, blocks, r, o, n, m, true) && SameOutside(s, t, o + r, 1, n, m)
  {
    var row := Padded(blocks.a[r], o, n);
    PlusZeros(row);
    PlusZeros(blocks.b[r]);
    PlusZeros(blocks.c[r]);
    t := Stamps(s.ad[o + r := Plus(s.ad[o + r], row)], s.bd[o + r := Plus(s.bd[o + r], blocks.b[r])],
                s.cd[o + r := Plus(s.cd[o + r], blocks.c[r])]);
  }

  /** Adds the blocks of one contributor at its offset. */
  method StampContributor(s: Stamps, blocks: Blocks, o: nat, n: nat, m: nat) returns (t: Stamps)
    requires Shaped(s, n, m) && BlocksSized(blocks, m) && StampedAt(s, blocks, o, n, m, false)
    ensures Shaped(t, n, m) && StampedAt(t, blocks, o, n, m, true) && SameOutside(s, t, o, |blocks.a|, n, m)
  {
    t := s;
    for r := 0 to |blocks.a|
      invariant Shaped(t, n, m) && SameOutside(s, t, o, r, n, m)
      invariant forall q :: 0 <= q < r ==> Carries(t, blocks, q, o, n, m, true)
    {
      assert Carries(s, blocks, r, o, n, m, false);
      assert Carries(t, blocks, r, o, n, m, false);
      ghost var before := t;
      t := StampState(t, blocks, r, o, n, m);
      forall q | 0 <= q < r
        ensures Carries(t, blocks, q, o, n, m, true)
      {
        assert Carries(before, blocks, q, o, n, m, true);
      }
    }
  }

  lemma StillStamped(s: Stamps, t: Stamps, o: nat, k: nat, blocks: Blocks, o': nat, n: nat, m: nat, present: bool)
    requires Shaped(s, n, m) && Shaped(t, n, m) && SameOutside(s, t, o, k, n, m) && BlocksSized(blocks, m)
    requires StampedAt(s, blocks, o', n, m, present) && (o' + |blocks.a| <= o || o + k <= o')
    ensures StampedAt(t, blocks, o', n, m, present)
  {
    forall r | 0 <= r < |blocks.a|
      ensures Carries(t, blocks, r, o', n, m, present)
    {
      assert Carries(s, blocks, r, o', n, m, present);
    }
  }

  /** The first n contributors have been stamped as far as they carry the flag. */
  ghost predicate IsStampUpTo(s: Stamps, ks: seq<Contributor>, m: nat, flag: bool, n: nat)
    requires AllSized(ks, m)
  {
    && Shaped(s, Offset(ks, |ks|), m)
    && forall i :: 0 <= i < |ks| ==>
         StampedAt(s, ks[i].blocks, Offset(ks, i), Offset(ks, |ks|), m, i < n && ks[i].updated == flag)
  }

  /** stampConstantMatrices and restampUpdatedMatrices. */
  method StampAll(ks: seq<Contributor>, m: nat, flag: bool) returns (s: Stamps)
    requires AllSized(ks, m)
    ensures IsStamp(s, ks, m, flag)
  {
    s := ZeroStamps(Offset(ks, |ks|), m);
    StartStamps(ks, m, flag);
    for i := 0 to |ks|
      invariant IsStampUpTo(s, ks, m, flag, i)
    {
      hide StampedAt, IsStampUpTo;
      StampShape(s, ks, m, flag, i);
      if ks[i].updated != flag {
        SkipStamp(s, ks, m, flag, i);
      } else {
        var t := StampContributor(s, ks[i].blocks, Offset(ks, i), Offset(ks, |ks|), m);
        NextStamp(s, t, ks, m, flag, i);
        s := t;
      }
    }
    AllStamped(s, ks, m, flag);
  }

  lemma StampShape(s: Stamps, ks: seq<Contributor>, m: nat, flag: bool, n: nat)
    requires AllSized(ks, m) && n < |ks| && IsStampUpTo(s, ks, m, flag, n)
    ensures Shaped(s, Offset(ks, |ks|), m) && BlocksSized(ks[n].blocks, m) &&
            StampedAt(s, ks[n].blocks, Offset(ks, n), Offset(ks, |ks|), m, false)
  {
    hide StampedAt;
  }

  lemma SkipStamp(s: Stamps, ks: seq<Contributor>, m: nat, flag: bool, n: nat)
    requires AllSized(ks, m) && n < |ks| && ks[n].updated != flag && IsStampUpTo(s, ks, m, flag, n)
    ensures IsStampUpTo(s, ks, m, flag, n + 1)
  {
    hide StampedAt, Offset, BlocksSized;
    forall i | 0 <= i < |ks|
      ensures StampedAt(s, ks[i].blocks, Offset(ks, i), Offset(ks, |ks|), m, i < n + 1 && ks[i].updated == flag)
    {
      assert StampedAt(s, ks[i].blocks, Offset(ks, i), Offset(ks, |ks|), m, i < n && ks[i].updated == flag);
    }
  }

  lemma AllStamped(s: Stamps, ks: seq<Contributor>, m: nat, flag: bool)
    requires AllSized(ks, m) && IsStampUpTo(s, ks, m, flag, |ks|)
    ensures IsStamp(s, ks, m, flag)
  {
    hide StampedAt;
    forall i | 0 <= i < |ks|
      ensures StampedAt(s, ks[i].blocks, Offset(ks, i), Offset(ks, |ks|), m, ks[i].updated == flag)
    {
      assert StampedAt(s, ks[i].blocks, Offset(ks, i), Offset(ks, |ks|), m, i < |ks| && ks[i].updated == flag);
    }
  }

  lemma {:induction false} StartStamps(ks: seq<Contributor>, m: nat, flag: bool)
    requires AllSized(ks, m)
    ensures IsStampUpTo(ZeroStamps(Offset(ks, |ks|), m), ks, m, flag, 0)
  {
    var s, n := ZeroStamps(Offset(ks, |ks|), m), Offset(ks, |ks|);
    forall i | 0 <= i < |ks| ensures StampedAt(s, ks[i].blocks, Offset(ks, i), n, m, false) {
      OffsetsGrow(ks, i, |ks|);
    }
  }

  lemma {:induction false} NextStamp(s: Stamps, t: Stamps, ks: seq<Contributor>, m: nat, flag: bool, n: nat)
    requires AllSized(ks, m) && n < |ks| && ks[n].updated == flag && IsStampUpTo(s, ks, m, flag, n) &&
             Shaped(t, Offset(ks, |ks|), m)
    requires StampedAt(t, ks[n].blocks, Offset(ks, n), Offset(ks, |ks|), m, true) &&
             SameOutside(s, t, Offset(ks, n), States(ks[n]), Offset(ks, |ks|), m)
    ensures IsStampUpTo(t, ks, m, flag, n + 1)
  {
    hide StampedAt, SameOutside;
    forall i | 0 <= i < |ks|
      ensures StampedAt(t, ks[i].blocks, Offset(ks, i), Offset(ks, |ks|), m, i < n + 1 && ks[i].updated == flag)
    {
      assert StampedAt(s, ks[i].blocks, Offset(ks, i), Offset(ks, |ks|), m, i < n && ks[i].updated == flag);
      if i < n { OffsetsGrow(ks, i, n); } else if i > n { OffsetsGrow(ks, n, i); }
      if i != n {
        StillStamped(s, t, Offset(ks, n), States(ks[n]), ks[i].blocks, Offset(ks, i), Offset(ks, |ks|), m, i < n &&
                     ks[i].updated == flag);
      }
    }
  }

  /** The constant and the updated stamps add up to all of them. */
  lemma {:induction false} Combined(s: Stamps, t: Stamps, ks: seq<Contributor>, m: nat)
    requires AllSized(ks, m) && IsStamp(s, ks, m, false) && IsStamp(t, ks, m, true)
    ensures IsComplete(PlusStamps(s, t, Offset(ks, |ks|), m), ks, m)
  {
    var n := Offset(ks, |ks|);
    var p := PlusStamps(s, t, n, m);
    forall i | 0 <= i < |ks| ensures StampedAt(p, ks[i].blocks, Offset(ks, i), n, m, true) {
      CombinedAt(s, t, ks[i].blocks, Offset(ks, i), n, m, ks[i].updated);
    }
  }

  lemma {:induction false} CombinedAt(s: Stamps, t: Stamps, blocks: Blocks, o: nat, n: nat, m: nat, updated: bool)
    requires Shaped(s, n, m) && Shaped(t, n, m) && BlocksSized(blocks, m)
    requires StampedAt(s, blocks, o, n, m, updated == false) && StampedAt(t, blocks, o, n, m, updated == true)
    ensures StampedAt(PlusStamps(s, t, n, m), blocks, o, n, m, true)
  {
    forall r | 0 <= r < |blocks.a| ensures Carries(PlusStamps(s, t, n, m), blocks, r, o, n, m, true) {
      assert Carries(s, blocks, r, o, n, m, !updated) && Carries(t, blocks, r, o, n, m, updated);
      PlusZeros(Padded(blocks.a[r], o, n));
      PlusZeros(blocks.b[r]);
      PlusZeros(blocks.c[r]);
    }
  }

  /** The same contributors as before except for the blocks of those that may be updated. */
  ghost predicate SameConstants(ks: seq<Contributor>, ks': seq<Contributor>, m: nat) {
    && |ks| == |ks'| && AllSized(ks, m) && AllSized(ks', m)
    && (forall i :: 0 <= i < |ks| ==> ks[i].updated == ks'[i].updated && States(ks[i]) == States(ks'[i]))
    && forall i :: 0 <= i < |ks| && !ks[i].updated ==> ks[i] == ks'[i]
  }

  lemma {:induction false} SameOffsets(ks: seq<Contributor>, ks': seq<Contributor>, n: nat)
    requires |ks| == |ks'| && n <= |ks| && forall i :: 0 <= i < |ks| ==> States(ks[i]) == States(ks'[i])
    ensures Offset(ks, n) == Offset(ks', n)
  {
    if n > 0 { SameOffsets(ks, ks', n - 1); }
  }

  /** The constant stamps stay those of the later contributors. */
  lemma {:induction false} ConstantsStay(s: Stamps, ks: seq<Contributor>, ks': seq<Contributor>, m: nat)
    requires AllSized(ks, m) && IsStamp(s, ks, m, false) && SameConstants(ks, ks', m)
    ensures IsStamp(s, ks', m, false)
  {
    SameOffsets(ks, ks', |ks|);
    forall i | 0 <= i < |ks|
      ensures StampedAt(s, ks'[i].blocks, Offset(ks', i), Offset(ks', |ks'|), m, ks'[i].updated == false)
    {
      SameOffsets(ks, ks', i);
      assert StampedAt(s, ks[i].blocks, Offset(ks, i), Offset(ks, |ks|), m, ks[i].updated == false);
      if ks[i].updated {
        forall r | 0 <= r < States(ks'[i])
          ensures Carries(s, ks'[i].blocks, r, Offset(ks', i), Offset(ks', |ks'|), m, false)
        {
          assert Carries(s, ks[i].blocks, r, Offset(ks, i), Offset(ks, |ks|), m, false);
        }
      }
    }
  }

  // ---------------------------------------------------------------- the cache

  /** Every component whose blocks differ from before has been reported, one by one or all together. */
  ghost predicate Reported(before: seq<Contributor>, now: seq<Contributor>, all: bool, requiresUpdate: seq<bool>) {
    |before| == |now| == |requiresUpdate| && forall i :: 0 <= i < |now| && now[i] != before[i] ==>
      all || requiresUpdate[i]
  }

  /** Some component that may be updated asks for it. */
  predicate AnyUpdate(ks: seq<Contributor>, requiresUpdate: seq<bool>) {
    exists i :: 0 <= i < |ks| && i < |requiresUpdate| && ks[i].updated && requiresUpdate[i]
  }

  predicate AnyUpdated(ks: seq<Contributor>) {
    exists i :: 0 <= i < |ks| && ks[i].updated
  }

  lemma {:induction false} NothingReported(before: seq<Contributor>, now: seq<Contributor>, m: nat, all: bool,
                                           requiresUpdate: seq<bool>)
    requires SameConstants(before, now, m) && Reported(before, now, all, requiresUpdate)
    requires !AnyUpdated(now) || !(all || AnyUpdate(now, requiresUpdate))
    ensures before == now
  {
    forall i | 0 <= i < |now| ensures before[i] == now[i] {
      assert now[i].updated ==> AnyUpdated(now);
      assert now[i].updated && requiresUpdate[i] ==> AnyUpdate(now, requiresUpdate);
    }
  }

  lemma {:induction false} NoStates(before: seq<Contributor>, now: seq<Contributor>, m: nat)
    requires SameConstants(before, now, m) && Offset(before, |before|) == 0
    ensures before == now
  {
    forall i | 0 <= i < |now| ensures before[i] == now[i] {
      OffsetsGrow(before, i, |before|);
      assert before[i].blocks == Blocks([], [], []) && now[i].blocks == Blocks([], [], []);
    }
  }

  method FindUpdate(ks: seq<Contributor>, requiresUpdate: seq<bool>) returns (found: bool)
    requires |ks| == |requiresUpdate|
    ensures found <==> AnyUpdate(ks, requiresUpdate)
  {
    for i := 0 to |ks|
      invariant forall j :: 0 <= j < i ==> !(ks[j].updated && requiresUpdate[j])
    {
      if ks[i].updated && requiresUpdate[i] { return true; }
    }
    return false;
  }

  method FindUpdated(ks: seq<Contributor>) returns (found: bool)
    ensures found <==> AnyUpdated(ks)
  {
    for i := 0 to |ks|
      invariant forall j :: 0 <= j < i ==> !ks[j].updated
    {
      if ks[i].updated { return true; }
    }
    return false;
  }

  /** computeStateMatrix. */
  method ClosedLoop(solve: Solver, y: Matrix, s: Stamps, n: nat, m: nat) returns (ad: seq<Vec>)
    requires Solves(solve) && Regular(y) && |y| == m && Shaped(s, n, m)
    ensures IsClosedLoop(ad, solve, y, s, n, m)
  {
    var rs := Responses(solve, y, s.cd);
    forall k | 0 <= k < n ensures |rs[k]| == m { SolvesOne(solve, y, s.cd[k]); }
    ad := seq(n, j requires 0 <= j < n => Plus(s.ad[j], Dots(rs, s.bd[j])));
  }

  class StateSpaceExtractor {
    const solve: Solver
    const m: nat
    const stateCount: nat
    const hasUpdated: bool
    const constant: Stamps
    var combined: Stamps
    var stateMatrix: seq<Vec>
    var stateMatrixValid: bool
    /** The components as they were last stamped, and the system matrix of the last computation. */
    ghost var stamped: seq<Contributor>
    ghost var factored: Matrix

    /** The stamps are those of the components, and a valid state matrix was computed from them. */
    ghost predicate Valid()
      reads this
    {
      && Solves(solve) && AllSized(stamped, m) && stateCount == Offset(stamped, |stamped|) &&
         (hasUpdated <==> AnyUpdated(stamped))
      && IsStamp(constant, stamped, m, false) && IsComplete(combined, stamped, m)
      && (stateMatrixValid && stateCount > 0 ==> IsClosedLoop(stateMatrix, solve, factored, combined, stateCount, m))
    }

    /** initialize. */
    constructor (ks: seq<Contributor>, m: nat, solve: Solver)
      requires Solves(solve) && AllSized(ks, m)
      ensures Valid() && !stateMatrixValid && stamped == ks && this.solve == solve && this.m == m
    {
      var constants := StampAll(ks, m, false);
      var updates := StampAll(ks, m, true);
      var any := FindUpdated(ks);
      Combined(constants, updates, ks, m);
      this.solve, this.m := solve, m;
      stateCount, hasUpdated := Offset(ks, |ks|), any;
      constant := constants;
      combined := PlusStamps(constants, updates, Offset(ks, |ks|), m);
      stateMatrixValid := false;
      stateMatrix := [];
      stamped, factored := ks, [];
    }

    /** restampUpdatedMatrices and rebuildCombinedMatrices. */
    method Restamp(now: seq<Contributor>)
      requires Valid() && SameConstants(stamped, now, m)
      modifies `combined, `stamped, `stateMatrixValid
      ensures Valid() && stamped == now && !stateMatrixValid
    {
      ConstantsStay(constant, stamped, now, m);
      SameOffsets(stamped, now, |now|);
      assert AnyUpdated(stamped) <==> AnyUpdated(now) by { SameFlags(stamped, now, m); }
      hide IsStamp, IsComplete, AnyUpdated;
      var updates := StampAll(now, m, true);
      Combined(constant, updates, now, m);
      StampShaped(updates, now, m, true);
      combined := PlusStamps(constant, updates, stateCount, m);
      stamped := now;
      stateMatrixValid := false;
    }

    /** Must the matrix be computed again? */
    predicate Recomputes(now: seq<Contributor>, variableModelChanged: bool, requiresUpdate: seq<bool>,
                         systemMatrixChanged: bool)
      reads this
    {
      !stateMatrixValid || systemMatrixChanged ||
        (hasUpdated && (variableModelChanged || AnyUpdate(now, requiresUpdate)))
    }

    /** extract, with the system matrix y that the solver holds and the blocks now that the components
        would stamp. Afterwards the state matrix belongs to these blocks, and to y exactly if it was
        computed again; otherwise to the matrix of the last computation. */
    method Extract(y: Matrix, now: seq<Contributor>, variableModelChanged: bool, requiresUpdate: seq<bool>,
                   systemMatrixChanged: bool)
      requires Valid() && Regular(y) && |y| == m && SameConstants(stamped, now, m)
      requires Reported(stamped, now, variableModelChanged, requiresUpdate)
      modifies this
      ensures Valid() && stateMatrixValid && stamped == now
      ensures stateCount > 0 ==>
                factored == if old(Recomputes(now, variableModelChanged, requiresUpdate, systemMatrixChanged)) then y
                  else old(factored)
    {
      hide IsStamp, IsComplete, AnyUpdate, SameConstants, Reported, Regular, IsClosedLoop;
      if stateCount == 0 {
        NoStates(stamped, now, m);
        stateMatrixValid := true;
        return;
      }
      ReportedLength(stamped, now, variableModelChanged, requiresUpdate);
      var updatedMatricesChanged := variableModelChanged;
      if !updatedMatricesChanged {
        updatedMatricesChanged := FindUpdate(now, requiresUpdate);
      }
      if updatedMatricesChanged && hasUpdated {
        Restamp(now);
      } else {
        SameFlags(stamped, now, m);
        NothingReported(stamped, now, m, variableModelChanged, requiresUpdate);
      }
      if systemMatrixChanged {
        stateMatrixValid := false;
      }
      if !stateMatrixValid {
        CompleteShape(combined, stamped, m);
        var ad := ClosedLoop(solve, y, combined, stateCount, m);
        stateMatrix := ad;
        factored := y;
        stateMatrixValid := true;
      }
    }
  }

  lemma ReportedLength(before: seq<Contributor>, now: seq<Contributor>, all: bool, requiresUpdate: seq<bool>)
    requires Reported(before, now, all, requiresUpdate)
    ensures |now| == |requiresUpdate|
  {
  }

  lemma CompleteShape(s: Stamps, ks: seq<Contributor>, m: nat)
    requires AllSized(ks, m) && IsComplete(s, ks, m)
    ensures Shaped(s, Offset(ks, |ks|), m)
  {
  }

  /** MnaSolverDirect as far as the extraction goes: the switch status, whose matrix the solver holds,
      and the flag that the last solve left. */
  class SwitchedSolver {
    const extractor: StateSpaceExtractor
    const matrices: seq<Matrix>
    var status: nat
    var systemMatrixChanged: bool
    /** The status at the last extraction. */
    ghost var extracted: nat

    ghost predicate Valid()
      reads this, extractor
    {
      && extractor.Valid() && status < |matrices| && extracted < |matrices|
      && (forall k :: 0 <= k < |matrices| ==> Regular(matrices[k]) && |matrices[k]| == extractor.m)
      && (extractor.stateMatrixValid && extractor.stateCount > 0 ==> extractor.factored == matrices[extracted])
    }

    /** The flag tells whether the status has changed since the last extraction. */
    ghost predicate InStep()
      reads this, extractor
    {
      !systemMatrixChanged && extractor.stateMatrixValid ==> status == extracted
    }

    constructor (extractor: StateSpaceExtractor, matrices: seq<Matrix>, status: nat)
      requires extractor.Valid() && !extractor.stateMatrixValid && status < |matrices|
      requires forall k :: 0 <= k < |matrices| ==> Regular(matrices[k]) && |matrices[k]| == extractor.m
      ensures Valid() && InStep() && this.extractor == extractor && this.matrices == matrices && this.status == status
    {
      this.extractor, this.matrices, this.status := extractor, matrices, status;
      systemMatrixChanged, extracted := false, status;
    }

    /** solve: only the status before and after this solve are compared. */
    method Solve(newStatus: nat)
      requires Valid() && newStatus < |matrices|
      modifies `status, `systemMatrixChanged
      ensures Valid() && status == newStatus && (systemMatrixChanged <==> newStatus != old(status))
      ensures old(status) == extracted || !extractor.stateMatrixValid ==> InStep()
    {
      var previous := status;
      status := newStatus;
      systemMatrixChanged := status != previous;
    }

    /** extractStateSpace. When the flag is in step, the state matrix is that of the current switch
        status and the current blocks; when it is not and nothing else asks for a computation, it is
        still that of the earlier status. */
    method ExtractStateSpace(now: seq<Contributor>, requiresUpdate: seq<bool>)
      requires Valid() && SameConstants(extractor.stamped, now, extractor.m) &&
               Reported(extractor.stamped, now, false, requiresUpdate)
      modifies `extracted, extractor
      ensures Valid() && extractor.stateMatrixValid && extractor.stamped == now
      ensures old(InStep()) ==> extracted == status
      ensures !old(InStep()) && extractor.stateCount > 0 ==>
                extracted == if extractor.hasUpdated && AnyUpdate(now, requiresUpdate) then status else old(extracted)
      ensures extractor.stateCount > 0 ==>
                IsClosedLoop(extractor.stateMatrix, extractor.solve, matrices[extracted], extractor.combined,
                             extractor.stateCount, extractor.m)
    {
      hide IsClosedLoop, AnyUpdate, Regular;
      ghost var recomputes := extractor.Recomputes(now, false, requiresUpdate, systemMatrixChanged);
      extractor.Extract(matrices[status], now, false, requiresUpdate, systemMatrixChanged);
      if recomputes || extractor.stateCount == 0 {
        extracted := status;
      }
    }

    /** A step of the simulation that extracts after its solve keeps the flag in step: the matrix is
        never that of an earlier switch status or of earlier blocks. */
    method Step(newStatus: nat, now: seq<Contributor>, requiresUpdate: seq<bool>)
      requires Valid() && (extracted == status || !extractor.stateMatrixValid) && newStatus < |matrices|
      requires SameConstants(extractor.stamped, now, extractor.m) &&
               Reported(extractor.stamped, now, false, requiresUpdate)
      modifies this, extractor
      ensures Valid() && status == newStatus && extracted == status && extractor.stateMatrixValid &&
              extractor.stamped == now
      ensures extractor.stateCount > 0 ==>
                IsClosedLoop(extractor.stateMatrix, extractor.solve, matrices[newStatus], extractor.combined,
                             extractor.stateCount, extractor.m)
    {
      hide IsClosedLoop, SameConstants, Reported, Regular;
      Solve(newStatus);
      ExtractStateSpace(now, requiresUpdate);
    }

    /** Two solves between extractions: a switch in the first of them goes unnoticed, and the matrix
        stays that of the earlier status. */
    method StaleAfterTwoSolves(newStatus: nat, now: seq<Contributor>, requiresUpdate: seq<bool>)
      requires Valid() && extracted == status && extractor.stateMatrixValid && extractor.stateCount > 0
      requires newStatus < |matrices| && newStatus != status
      requires now == extractor.stamped && |requiresUpdate| == |now| && !AnyUpdate(now, requiresUpdate)
      modifies this, extractor
      ensures Valid() && status == newStatus && extractor.stateMatrixValid &&
              extractor.factored == matrices[old(status)]
      ensures extractor.stamped == now
    {
      hide IsClosedLoop, Regular, AnyUpdate;
      Solve(newStatus);
      Solve(newStatus);
      ExtractStateSpace(now, requiresUpdate);
    }
  }

  // ---------------------------------------------------------------- a matrix that is recomputed

  /** hasVariableComponentChanged. */
  method AnyChanged(flags: seq<bool>) returns (changed: bool)
    ensures changed <==> true in flags
  {
    for i := 0 to |flags|
      invariant true !in flags[..i]
    {
      if flags[i] { return true; }
      assert flags[..i + 1] == flags[..i] + [flags[i]];
    }
    assert flags[..|flags|] == flags;
    return false;
  }

  /** MnaSolverDirect when it recomputes its one system matrix for variable components: the matrix
      it has factorised, and the flag that the last solve left. */
  class RecomputingSolver {
    const extractor: StateSpaceExtractor
    var matrix: Matrix
    var variableComponentChanged: bool

    ghost predicate Valid()
      reads this, extractor
    {
      extractor.Valid() && Regular(matrix) && |matrix| == extractor.m
    }

    /** The cached closed loop, if there is one, belongs to the current matrix. */
    ghost predicate UpToDate()
      reads this, extractor
    {
      extractor.stateMatrixValid && extractor.stateCount > 0 ==> extractor.factored == matrix
    }

    constructor (extractor: StateSpaceExtractor, matrix: Matrix)
      requires extractor.Valid() && !extractor.stateMatrixValid && Regular(matrix) && |matrix| == extractor.m
      ensures Valid() && UpToDate() && this.extractor == extractor && this.matrix == matrix
    {
      this.extractor, this.matrix, variableComponentChanged := extractor, matrix, false;
    }

    /** solveWithSystemMatrixRecomputation: now is what the base matrix and the variable components
        would stamp; the components' flags report every change. */
    method Solve(changed: seq<bool>, now: Matrix)
      requires Valid() && Regular(now) && |now| == |matrix| && (true !in changed ==> now == matrix)
      modifies `matrix, `variableComponentChanged
      ensures Valid() && matrix == now && (variableComponentChanged <==> true in changed)
    {
      hide Regular;
      variableComponentChanged := AnyChanged(changed);
      if variableComponentChanged {
        matrix := now;
      }
    }

    /** extractStateSpace in this mode: one flag stands for both kinds of change. */
    method ExtractStateSpace(now: seq<Contributor>, requiresUpdate: seq<bool>)
      requires Valid() && SameConstants(extractor.stamped, now, extractor.m)
      requires Reported(extractor.stamped, now, variableComponentChanged, requiresUpdate)
      modifies extractor
      ensures Valid() && extractor.stateMatrixValid && extractor.stamped == now
      ensures extractor.stateCount > 0 ==>
                extractor.factored ==
                if old(extractor.Recomputes(now, variableComponentChanged, requiresUpdate,
                                            variableComponentChanged)) then matrix
                else old(extractor.factored)
      ensures extractor.stateCount > 0 ==>
                IsClosedLoop(extractor.stateMatrix, extractor.solve, extractor.factored, extractor.combined,
                             extractor.stateCount, extractor.m)
    {
      hide IsClosedLoop, AnyUpdate, Regular, SameConstants, Reported;
      extractor.Extract(matrix, now, variableComponentChanged, requiresUpdate, variableComponentChanged);
    }

    /** A step: the closed loop belongs to the matrix and the blocks of this step, whatever changed. */
    method Step(changed: seq<bool>, matrixNow: Matrix, now: seq<Contributor>, requiresUpdate: seq<bool>)
      requires Valid() && UpToDate() && Regular(matrixNow) && |matrixNow| == |matrix| &&
               (true !in changed ==> matrixNow == matrix)
      requires SameConstants(extractor.stamped, now, extractor.m) &&
               Reported(extractor.stamped, now, true in changed, requiresUpdate)
      modifies this, extractor
      ensures Valid() && UpToDate() && matrix == matrixNow && extractor.stateMatrixValid && extractor.stamped == now
      ensures extractor.stateCount > 0 ==>
                IsClosedLoop(extractor.stateMatrix, extractor.solve, matrixNow, extractor.combined,
                             extractor.stateCount, extractor.m)
    {
      hide IsClosedLoop, SameConstants, Reported, Regular, AnyUpdate;
      Solve(changed, matrixNow);
      ExtractStateSpace(now, requiresUpdate);
    }
  }

  // ---------------------------------------------------------------- a stale closed loop

  /** A network with one unknown. */
  function Scalar(a: real): Matrix { [[a]] }

  lemma ScalarRegular(a: real)
    requires a != 0.0
    ensures Regular(Scalar(a)) && |Scalar(a)| == 1
  {
    forall x: Vec, y: Vec | |x| == 1 && |y| == 1 && Times(Scalar(a), x) == Times(Scalar(a), y) ensures x == y {
      ScalarTimes(a, x);
      ScalarTimes(a, y);
      assert [a * x[0]][0] == [a * y[0]][0];
      SameFactor(a, x[0], y[0]);
    }
  }

  lemma ScalarTimes(a: real, x: Vec)
    requires |x| == 1
    ensures Times(Scalar(a), x) == [a * x[0]]
  {
    assert [a][1..] == [] && x[1..] == [] && Dot([a], x) == a * x[0];
  }

  lemma SameFactor(a: real, x: real, y: real)
    requires a != 0.0 && a * x == a * y
    ensures x == y
  {
    assert a * (x - y) == 0.0;
  }

  lemma ScalarSolve(solve: Solver, a: real, x: Vec)
    requires Solves(solve) && a != 0.0 && x == solve(Scalar(a), [1.0])
    ensures |x| == 1 && a * x[0] == 1.0
  {
    hide Regular, Solves, Scalar, Times;
    ScalarRegular(a);
    SolvesOne(solve, Scalar(a), [1.0]);
    ScalarTimes(a, x);
    assert [a * x[0]][0] == [1.0][0];
  }

  /** One state h with h' = h + x, and a source term h in the one equation of the network. */
  function OneState(): seq<Contributor> {
    [Contributor(false, Blocks([[1.0]], [[1.0]], [[1.0]]))]
  }

  function OneStamp(): Stamps {
    Stamps([[1.0]], [[1.0]], [[1.0]])
  }

  lemma OneStateSized()
    ensures AllSized(OneState(), 1) && Offset(OneState(), |OneState()|) == 1 && !AnyUpdate(OneState(), [false])
    ensures SameConstants(OneState(), OneState(), 1) && Reported(OneState(), OneState(), false, [false])
    ensures Shaped(OneStamp(), 1, 1)
  {
    assert Offset(OneState(), 0) == 0;
  }

  lemma OneStateStamps(s: Stamps)
    requires AllSized(OneState(), 1) && IsComplete(s, OneState(), 1)
    ensures s == OneStamp()
  {
    var ks := OneState();
    assert Offset(ks, 0) == 0 && Offset(ks, 1) == 1;
    assert StampedAt(s, ks[0].blocks, 0, 1, 1, true) && Carries(s, ks[0].blocks, 0, 0, 1, 1, true);
    assert Padded([1.0], 0, 1) == [1.0];
  }

  lemma OneStateLoop(solve: Solver, y: Matrix, ad: seq<Vec>, x: Vec)
    requires x == solve(y, [1.0]) && |x| == 1 && Shaped(OneStamp(), 1, 1) &&
             IsClosedLoop(ad, solve, y, OneStamp(), 1, 1)
    ensures |ad| == 1 && |ad[0]| == 1 && ad[0][0] == 1.0 + x[0]
  {
    var rs := Responses(solve, y, [[1.0]]);
    assert rs == [x] && Dots(rs, [1.0])[0] == Dot([1.0], x);
    assert [1.0][1..] == [] && x[1..] == [] && Dot([1.0], x) == x[0];
  }

  lemma OneStateDiffers(solve: Solver, ad: seq<Vec>)
    requires Solves(solve) && Shaped(OneStamp(), 1, 1) && IsClosedLoop(ad, solve, Scalar(1.0), OneStamp(), 1, 1)
    ensures !IsClosedLoop(ad, solve, Scalar(2.0), OneStamp(), 1, 1)
  {
    hide IsClosedLoop, Solves, Scalar, OneStamp, Shaped;
    var x1, x2 := solve(Scalar(1.0), [1.0]), solve(Scalar(2.0), [1.0]);
    ScalarSolve(solve, 1.0, x1);
    ScalarSolve(solve, 2.0, x2);
    OneStateLoop(solve, Scalar(1.0), ad, x1);
    if IsClosedLoop(ad, solve, Scalar(2.0), OneStamp(), 1, 1) { OneStateLoop(solve, Scalar(2.0), ad, x2); }
  }

  /** A hazard of the interface: were there two solves between extractions, the closed loop could be
      that of an old switch status. Here it is 2, where the current status demands 3/2. */
  method StaleWitness(solve: Solver) returns (s: SwitchedSolver)
    requires Solves(solve)
    ensures fresh(s) && fresh(s.extractor) && s.Valid() && s.status == 1 && s.matrices == [Scalar(1.0), Scalar(2.0)]
    ensures s.extractor.stateMatrixValid && s.extractor.stateCount == 1 && s.extractor.m == 1
    ensures !IsClosedLoop(s.extractor.stateMatrix, solve, s.matrices[s.status], s.extractor.combined, 1, 1)
  {
    s := SteppedOnce(solve);
    OneStateSized();
    hide Regular, Solves, Scalar, OneState, OneStamp, Shaped, IsClosedLoop, IsComplete, IsStamp, AnyUpdate, AnyUpdated;
    hide SameConstants, Reported, AllSized, Offset;
    s.StaleAfterTwoSolves(1, OneState(), [false]);
    ghost var ad, stamps := s.extractor.stateMatrix, s.extractor.combined;
    assert IsComplete(stamps, OneState(), 1);
    OneStateStamps(stamps);
    assert s.matrices[0] == Scalar(1.0) && s.matrices[1] == Scalar(2.0);
    assert IsClosedLoop(ad, solve, Scalar(1.0), stamps, 1, 1);
    OneStateDiffers(solve, ad);
  }

  /** The solver of the witness after one step with switch status 0. */
  method SteppedOnce(solve: Solver) returns (s: SwitchedSolver)
    requires Solves(solve)
    ensures fresh(s) && fresh(s.extractor) && s.Valid() && s.status == 0 && s.extracted == 0 &&
            s.matrices == [Scalar(1.0), Scalar(2.0)]
    ensures s.extractor.stateMatrixValid && s.extractor.stateCount == 1 && s.extractor.m == 1
    ensures s.extractor.stamped == OneState() && s.extractor.solve == solve
  {
    ScalarRegular(1.0);
    ScalarRegular(2.0);
    OneStateSized();
    hide Regular, Solves, Scalar, OneState, IsClosedLoop, IsComplete, IsStamp, AnyUpdate, AnyUpdated;
    hide SameConstants, Reported, AllSized, Offset;
    var matrices := [Scalar(1.0), Scalar(2.0)];
    var extractor := new StateSpaceExtractor(OneState(), 1, solve);
    s := new SwitchedSolver(extractor, matrices, 0);
    s.Step(0, OneState(), [false]);
  }

  lemma StampShaped(s: Stamps, ks: seq<Contributor>, m: nat, flag: bool)
    requires AllSized(ks, m) && IsStamp(s, ks, m, flag)
    ensures Shaped(s, Offset(ks, |ks|), m)
  {
  }

  lemma SameFlags(ks: seq<Contributor>, ks': seq<Contributor>, m: nat)
    requires SameConstants(ks, ks', m)
    ensures AnyUpdated(ks) <==> AnyUpdated(ks')
  {
    if AnyUpdated(ks) {
      var i :| 0 <= i < |ks| && ks[i].updated;
      assert ks'[i].updated;
    }
    if AnyUpdated(ks') {
      var i :| 0 <= i < |ks'| && ks'[i].updated;
      assert ks[i].updated;
    }
  }
}
