module ZoneReferences {

  // The reference voltage of a zone and the agreement of its ratings, in terms of the single ratings
  // at the nodes that chains of lines join.

  import opened Chains
  import opened VoltageZones

  /** A rating of this kind that is not near zero. */
  predicate IsKept(r: Rating, authoritative: bool) {
    r.authoritative == authoritative && (r.voltage > 0.000001 || r.voltage < -0.000001)
  }

  predicate KeptAt(ratings: seq<Rating>, authoritative: bool, k: nat) {
    k < |ratings| && IsKept(ratings[k], authoritative)
  }

  /** The k-th rating at node m counts for node i. */
  ghost predicate Counts(lines: seq<Line>, ratings: seq<seq<Rating>>, i: nat, authoritative: bool, m: nat, k: nat) {
    m < |ratings| && Joined(lines, m, i) && KeptAt(ratings[m], authoritative, k)
  }

  /** The first such rating, in the order of the nodes and then of the components at a node. */
  ghost predicate First(lines: seq<Line>, ratings: seq<seq<Rating>>, i: nat, authoritative: bool, m: nat, k: nat) {
    && Counts(lines, ratings, i, authoritative, m, k)
    && forall m': nat, k': nat :: Counts(lines, ratings, i, authoritative, m', k') ==> m < m' || (m == m' && k <= k')
  }

  ghost predicate Any(lines: seq<Line>, ratings: seq<seq<Rating>>, i: nat, authoritative: bool) {
    exists m: nat, k: nat :: Counts(lines, ratings, i, authoritative, m, k)
  }

  lemma {:induction false} KeptOne(ratings: seq<Rating>, authoritative: bool, x: real) returns (k: nat)
    requires x in Kept(ratings, authoritative)
    ensures KeptAt(ratings, authoritative, k) && ratings[k].voltage == x
  {
    var n := |ratings| - 1;
    if x in Kept(ratings[..n], authoritative) { k := KeptOne(ratings[..n], authoritative, x); } else { k := n; }
  }

  lemma {:induction false} KeptAll(ratings: seq<Rating>, authoritative: bool, k: nat)
    requires KeptAt(ratings, authoritative, k)
    ensures ratings[k].voltage in Kept(ratings, authoritative)
  {
    if k < |ratings| - 1 { KeptAll(ratings[..|ratings| - 1], authoritative, k); }
  }

  lemma {:induction false} KeptFirst(ratings: seq<Rating>, authoritative: bool) returns (k: nat)
    requires Kept(ratings, authoritative) != []
    ensures KeptAt(ratings, authoritative, k) && ratings[k].voltage == Kept(ratings, authoritative)[0]
    ensures forall j: nat :: KeptAt(ratings, authoritative, j) ==> k <= j
  {
    var n := |ratings| - 1;
    var before := ratings[..n];
    if Kept(before, authoritative) != [] {
      k := KeptFirst(before, authoritative);
      assert forall j: nat :: KeptAt(ratings, authoritative, j) && j < n ==> KeptAt(before, authoritative, j);
    } else {
      k := n;
      forall j: nat | KeptAt(ratings, authoritative, j) ensures n <= j { NoneKept(before, authoritative, j); }
    }
  }

  lemma NoneKept(ratings: seq<Rating>, authoritative: bool, k: nat)
    requires Kept(ratings, authoritative) == []
    ensures !KeptAt(ratings, authoritative, k)
  {
    if KeptAt(ratings, authoritative, k) { KeptAll(ratings, authoritative, k); }
  }

  lemma AroundStep(lines: seq<Line>, ratings: seq<seq<Rating>>, i: nat, authoritative: bool, n: nat)
    requires 0 < n <= |ratings|
    ensures RatingsAround(lines, ratings, i, authoritative, n) ==
            RatingsAround(lines, ratings, i, authoritative, n - 1) + Here(lines, ratings, i, authoritative, n - 1)
  {
  }

  lemma {:induction false} AroundOne(lines: seq<Line>, ratings: seq<seq<Rating>>, i: nat, authoritative: bool, n: nat,
                                     x: real)
    returns (m: nat, k: nat)
    requires n <= |ratings| && x in RatingsAround(lines, ratings, i, authoritative, n)
    ensures m < n && Counts(lines, ratings, i, authoritative, m, k) && ratings[m][k].voltage == x
  {
    if x in RatingsAround(lines, ratings, i, authoritative, n - 1) {
      m, k := AroundOne(lines, ratings, i, authoritative, n - 1, x);
    } else {
      m := n - 1;
      k := KeptOne(ratings[m], authoritative, x);
    }
  }

  lemma Concat(a: seq<real>, b: seq<real>, x: real)
    ensures x in a + b <==> x in a || x in b
    ensures a != [] ==> (a + b)[0] == a[0]
    ensures a == [] ==> a + b == b
  {
  }

  predicate Has(xs: seq<real>, x: real) { x in xs }

  lemma AroundIn(lines: seq<Line>, ratings: seq<seq<Rating>>, i: nat, authoritative: bool, n: nat, x: real)
    requires 0 < n <= |ratings|
    ensures Has(RatingsAround(lines, ratings, i, authoritative, n), x) <==>
            Has(RatingsAround(lines, ratings, i, authoritative, n - 1), x) ||
              Has(Here(lines, ratings, i, authoritative, n - 1), x)
  {
    AroundStep(lines, ratings, i, authoritative, n);
    hide Here, RatingsAround, Abs;
    Concat(RatingsAround(lines, ratings, i, authoritative, n - 1), Here(lines, ratings, i, authoritative, n - 1), x);
  }

  lemma {:induction false} AroundHolds(lines: seq<Line>, ratings: seq<seq<Rating>>, i: nat, authoritative: bool, n: nat,
                                       m: nat, x: real)
    requires m < n <= |ratings| && Has(Here(lines, ratings, i, authoritative, m), x)
    ensures Has(RatingsAround(lines, ratings, i, authoritative, n), x)
    decreases n
  {
    hide *;
    if m < n - 1 { AroundHolds(lines, ratings, i, authoritative, n - 1, m, x); }
    AroundIn(lines, ratings, i, authoritative, n, x);
  }

  lemma AroundAll(lines: seq<Line>, ratings: seq<seq<Rating>>, i: nat, authoritative: bool, n: nat, m: nat, k: nat)
    requires m < n <= |ratings| && Counts(lines, ratings, i, authoritative, m, k)
    ensures ratings[m][k].voltage in RatingsAround(lines, ratings, i, authoritative, n)
  {
    HereAll(lines, ratings, i, authoritative, m, k);
    AroundHolds(lines, ratings, i, authoritative, n, m, ratings[m][k].voltage);
    hide Here, RatingsAround, Counts;
  }

  lemma HereAll(lines: seq<Line>, ratings: seq<seq<Rating>>, i: nat, authoritative: bool, m: nat, k: nat)
    requires Counts(lines, ratings, i, authoritative, m, k)
    ensures m < |ratings| && k < |ratings[m]| && ratings[m][k].voltage in Here(lines, ratings, i, authoritative, m)
  {
    KeptAll(ratings[m], authoritative, k);
    hide Joined, Kept;
  }

  /** The ratings at node m, if it is joined to node i. */
  ghost function Here(lines: seq<Line>, ratings: seq<seq<Rating>>, i: nat, authoritative: bool, m: nat): seq<real>
    requires m < |ratings|
  {
    if Joined(lines, m, i) then Kept(ratings[m], authoritative) else []
  }

  lemma {:induction false} AroundFirst(lines: seq<Line>, ratings: seq<seq<Rating>>, i: nat, authoritative: bool, n: nat)
    returns (m: nat, k: nat)
    requires 0 < n <= |ratings| && RatingsAround(lines, ratings, i, authoritative, n) != []
    ensures m < n && Counts(lines, ratings, i, authoritative, m, k)
    ensures ratings[m][k].voltage == RatingsAround(lines, ratings, i, authoritative, n)[0]
    ensures forall m': nat, k': nat :: Counts(lines, ratings, i, authoritative, m', k') ==>
              m < m' || (m == m' && k <= k')
  {
    hide *;
    NothingBelow(lines, ratings, i, authoritative);
    var before, here := RatingsAround(lines, ratings, i, authoritative, n - 1),
        Here(lines, ratings, i, authoritative, n - 1);
    AroundStep(lines, ratings, i, authoritative, n);
    Concat(before, here, 0.0);
    if before != [] {
      m, k := AroundFirst(lines, ratings, i, authoritative, n - 1);
    } else {
      m := n - 1;
      k := HereFirst(lines, ratings, i, authoritative, m);
    }
  }

  lemma {:induction false} HereFirst(lines: seq<Line>, ratings: seq<seq<Rating>>, i: nat, authoritative: bool, m: nat)
    returns (k: nat)
    requires m < |ratings| && RatingsAround(lines, ratings, i, authoritative, m) == []
    requires Here(lines, ratings, i, authoritative, m) != []
    ensures Counts(lines, ratings, i, authoritative, m, k)
    ensures ratings[m][k].voltage == Here(lines, ratings, i, authoritative, m)[0]
    ensures forall m': nat, k': nat :: Counts(lines, ratings, i, authoritative, m', k') ==>
              m < m' || (m == m' && k <= k')
  {
    hide Joined, Kept, RatingsAround;
    k := KeptFirst(ratings[m], authoritative);
    forall m': nat, k': nat | Counts(lines, ratings, i, authoritative, m', k')
      ensures m < m' || (m == m' && k <= k')
    {
      NoneAround(lines, ratings, i, authoritative, m, m', k');
    }
  }

  lemma NothingBelow(lines: seq<Line>, ratings: seq<seq<Rating>>, i: nat, authoritative: bool)
    ensures RatingsAround(lines, ratings, i, authoritative, 0) == []
  {
  }

  lemma NoneAround(lines: seq<Line>, ratings: seq<seq<Rating>>, i: nat, authoritative: bool, n: nat, m: nat, k: nat)
    requires n <= |ratings| && RatingsAround(lines, ratings, i, authoritative, n) == []
    ensures m < n ==> !Counts(lines, ratings, i, authoritative, m, k)
  {
    if m < n && Counts(lines, ratings, i, authoritative, m, k) { AroundAll(lines, ratings, i, authoritative, n, m, k); }
  }

  /** The base voltage of a node: the first authoritative rating around it; without one the first other
      rating; without any rating zero. */
  lemma {:induction false} ReferenceIs(lines: seq<Line>, ratings: seq<seq<Rating>>, i: nat)
    ensures Any(lines, ratings, i, true) ==>
              exists m: nat, k: nat ::
                First(lines, ratings, i, true, m, k) && VoltageAround(lines, ratings, i) == ratings[m][k].voltage
    ensures !Any(lines, ratings, i, true) && Any(lines, ratings, i, false) ==>
              exists m: nat, k: nat ::
                First(lines, ratings, i, false, m, k) && VoltageAround(lines, ratings, i) == ratings[m][k].voltage
    ensures !Any(lines, ratings, i, true) && !Any(lines, ratings, i, false) ==> VoltageAround(lines, ratings, i) == 0.0
  {
    FirstOfKind(lines, ratings, i, true);
    FirstOfKind(lines, ratings, i, false);
    hide RatingsAround, First, Any;
  }

  lemma {:induction false} FirstOfKind(lines: seq<Line>, ratings: seq<seq<Rating>>, i: nat, authoritative: bool)
    ensures Any(lines, ratings, i, authoritative) <==> RatingsAround(lines, ratings, i, authoritative, |ratings|) != []
    ensures Any(lines, ratings, i, authoritative) ==>
              exists m: nat, k: nat ::
                First(lines, ratings, i, authoritative, m, k) &&
                ratings[m][k].voltage == RatingsAround(lines, ratings, i, authoritative, |ratings|)[0]
  {
    hide RatingsAround, KeptAt, Joined;
    if m: nat, k: nat :| Counts(lines, ratings, i, authoritative, m, k) {
      AroundAll(lines, ratings, i, authoritative, |ratings|, m, k);
    }
    if RatingsAround(lines, ratings, i, authoritative, |ratings|) != [] {
      NothingBelow(lines, ratings, i, authoritative);
      var m, k := AroundFirst(lines, ratings, i, authoritative, |ratings|);
      assert First(lines, ratings, i, authoritative, m, k);
    }
  }

  /** How far a rating may be from the reference: relative to the larger of the two. */
  predicate Within(x: real, reference: real, tolerance: real) {
    var larger := if Abs(x) < Abs(reference) then Abs(reference) else Abs(x);
    -(tolerance * larger) <= x - reference <= tolerance * larger
  }

  lemma WithinIsClose(x: real, reference: real, tolerance: real)
    requires x > 0.000001 || x < -0.000001
    ensures Close(x, reference, tolerance) <==> Within(x, reference, tolerance)
  {
    var d, larger := Abs(x - reference), MaxReal(Abs(x), Abs(reference));
    assert larger > 0.0;
    assert d / larger <= tolerance <==> d <= tolerance * larger by { DivideBy(d, larger, tolerance); }
  }

  lemma DivideBy(d: real, m: real, t: real)
    requires m > 0.0
    ensures d / m <= t <==> d <= t * m
  {
    var q := d / m;
    assert q * m == d;
    if q <= t { assert (t - q) * m >= 0.0; } else { assert (q - t) * m > 0.0; }
  }

  /** The ratings around a node agree if and only if each of them is within its own tolerance of the
      reference: the strict one for authoritative ratings, the loose one for the others. */
  lemma {:induction false} AgreementIs(lines: seq<Line>, ratings: seq<seq<Rating>>, strictTolerance: real,
                                       looseTolerance: real, i: nat)
    ensures AgreesAround(lines, ratings, strictTolerance, looseTolerance, i) <==>
            (forall m: nat, k: nat :: Counts(lines, ratings, i, true, m, k) ==>
               Within(ratings[m][k].voltage, VoltageAround(lines, ratings, i), strictTolerance)) &&
            (forall m: nat, k: nat :: Counts(lines, ratings, i, false, m, k) ==>
               Within(ratings[m][k].voltage, VoltageAround(lines, ratings, i), looseTolerance))
  {
    hide Within, Close, VoltageAround, RatingsAround;
    AllWithin(lines, ratings, i, true, VoltageAround(lines, ratings, i), strictTolerance);
    AllWithin(lines, ratings, i, false, VoltageAround(lines, ratings, i), looseTolerance);
    AgreesIs(lines, ratings, strictTolerance, looseTolerance, i);
  }

  lemma AgreesIs(lines: seq<Line>, ratings: seq<seq<Rating>>, strictTolerance: real, looseTolerance: real, i: nat)
    ensures AgreesAround(lines, ratings, strictTolerance, looseTolerance, i) <==>
            AllClose(RatingsAround(lines, ratings, i, true, |ratings|), VoltageAround(lines, ratings, i),
                     strictTolerance) &&
            AllClose(RatingsAround(lines, ratings, i, false, |ratings|), VoltageAround(lines, ratings, i),
                     looseTolerance)
  {
    hide RatingsAround, AllClose, ZoneVoltage;
  }

  lemma {:induction false} AllWithin(lines: seq<Line>, ratings: seq<seq<Rating>>, i: nat, authoritative: bool,
                                     reference: real, tolerance: real)
    ensures AllClose(RatingsAround(lines, ratings, i, authoritative, |ratings|), reference, tolerance) <==>
            forall m: nat, k: nat :: Counts(lines, ratings, i, authoritative, m, k) ==>
                   Within(ratings[m][k].voltage, reference, tolerance)
  {
    hide Within, Close, Joined;
    var around := RatingsAround(lines, ratings, i, authoritative, |ratings|);
    hide RatingsAround;
    if AllClose(around, reference, tolerance) {
      forall m: nat, k: nat | Counts(lines, ratings, i, authoritative, m, k)
        ensures Within(ratings[m][k].voltage, reference, tolerance)
      {
        AroundAll(lines, ratings, i, authoritative, |ratings|, m, k);
        WithinIsClose(ratings[m][k].voltage, reference, tolerance);
      }
    }
    if forall m: nat, k: nat :: Counts(lines, ratings, i, authoritative, m, k) ==>
       Within(ratings[m][k].voltage, reference, tolerance) {
      forall j | 0 <= j < |around| ensures Close(around[j], reference, tolerance) {
        var m, k := AroundOne(lines, ratings, i, authoritative, |ratings|, around[j]);
        WithinIsClose(around[j], reference, tolerance);
      }
    }
  }
}
