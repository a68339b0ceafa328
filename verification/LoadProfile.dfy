/** CSVReader: load profiles as piecewise linear functions of time, and their resampling in place. */
module LoadProfile {

  /** Active and reactive power. */
  datatype PQ = PQ(p: real, q: real)

  datatype Row = Row(time: real, value: PQ)

  /** A std::map from times: ordered, each time once. */
  type Profile = seq<Row>

  predicate Sorted(rows: Profile) {
    forall i, j :: 0 <= i < j < |rows| ==> rows[i].time < rows[j].time
  }

  ghost predicate HasTime(rows: Profile, t: real) {
    exists i :: 0 <= i < |rows| && rows[i].time == t
  }

  /** std::map::upper_bound: the first row later than x. */
  function UpperBound(rows: Profile, x: real): (u: nat)
    requires Sorted(rows)
    ensures u <= |rows|
    ensures forall i :: 0 <= i < u ==> rows[i].time <= x
    ensures forall i :: u <= i < |rows| ==> rows[i].time > x
  {
    if rows == [] || rows[|rows| - 1].time <= x then |rows| else UpperBound(rows[..|rows| - 1], x)
  }

  function Lerp(delta: real, from: real, to: real): real {
    delta * to + (1.0 - delta) * from
  }

  function Between(a: Row, b: Row, x: real): PQ
    requires a.time < b.time
  {
    var delta := (x - a.time) / (b.time - a.time);
    PQ(Lerp(delta, a.value.p, b.value.p), Lerp(delta, a.value.q, b.value.q))
  }

  /** interpol_linear: constant outside the data. */
  function Interpolate(rows: Profile, x: real): PQ
    requires Sorted(rows) && rows != []
  {
    var u := UpperBound(rows, x);
    if u == |rows| then rows[|rows| - 1].value
    else if u == 0 then rows[0].value
    else Between(rows[u - 1], rows[u], x)
  }

  // ---------------------------------------------------------------- points on a line

  /** y lies on the line through (a, va) and (b, vb) at x. */
  predicate OnLine(a: real, va: real, b: real, vb: real, x: real, y: real) {
    (y - va) * (b - a) == (vb - va) * (x - a)
  }

  lemma LerpOnLine(a: real, va: real, b: real, vb: real, x: real)
    requires a < b
    ensures OnLine(a, va, b, vb, x, Lerp((x - a) / (b - a), va, vb))
  {
    var delta, d, e := (x - a) / (b - a), b - a, vb - va;
    assert delta * d == x - a;
    assert Lerp(delta, va, vb) - va == delta * e;
    assert delta * e * d == e * (delta * d);
  }

  lemma LineUnique(a: real, va: real, b: real, vb: real, x: real, y: real, y': real)
    requires a < b && OnLine(a, va, b, vb, x, y) && OnLine(a, va, b, vb, x, y')
    ensures y == y'
  {
    assert (y - y') * (b - a) == 0.0;
  }

  /** A point of a line spans the same line with either end. */
  lemma SameLine(a: real, va: real, b: real, vb: real, x: real, y: real, t: real, z: real)
    requires a < x < b && OnLine(a, va, b, vb, x, y)
    ensures OnLine(a, va, x, y, t, z) ==> OnLine(a, va, b, vb, t, z)
    ensures OnLine(x, y, b, vb, t, z) ==> OnLine(a, va, b, vb, t, z)
  {
    var l, e, h := b - a, vb - va, y - va;
    var m := x - a;
    if OnLine(a, va, x, y, t, z) {
      Cancel(z - va, t - a, m, h, l, e);
    }
    if OnLine(x, y, b, vb, t, z) {
      assert (z - y) * (l - m) == (e - h) * (t - x);
      assert (e - h) * l == e * l - e * m && h * l == e * m;
      Cancel(z - y, t - x, l - m, e - h, l, e);
      assert (z - va) * l == (z - y) * l + h * l;
      assert e * (t - a) == e * (t - x) + e * m;
    }
  }

  lemma Cancel(z: real, t: real, m: real, h: real, l: real, e: real)
    requires m != 0.0 && z * m == h * t && h * l == e * m
    ensures z * l == e * t
  {
    assert z * l * m == h * t * l;
    assert h * t * l == e * m * t;
    assert (z * l - e * t) * m == 0.0;
  }

  lemma {:induction false} SameBetween(a: Row, b: Row, x: real, t: real)
    requires a.time < x < b.time
    ensures Between(a, Row(x, Between(a, b, x)), t) == Between(a, b, t) &&
            Between(Row(x, Between(a, b, x)), b, t) == Between(a, b, t)
  {
    hide OnLine, Lerp;
    SameLerp(a.time, a.value.p, b.time, b.value.p, x, t);
    SameLerp(a.time, a.value.q, b.time, b.value.q, x, t);
  }

  lemma {:induction false} SameLerp(a: real, va: real, b: real, vb: real, x: real, t: real)
    requires a < x < b
    ensures var y, z := Lerp((x - a) / (b - a), va, vb), Lerp((t - a) / (b - a), va, vb);
            Lerp((t - a) / (x - a), va, y) == z && Lerp((t - x) / (b - x), y, vb) == z
  {
    hide OnLine, Lerp;
    var y, z := Lerp((x - a) / (b - a), va, vb), Lerp((t - a) / (b - a), va, vb);
    var left, right := Lerp((t - a) / (x - a), va, y), Lerp((t - x) / (b - x), y, vb);
    LerpOnLine(a, va, b, vb, x);
    LerpOnLine(a, va, b, vb, t);
    LerpOnLine(a, va, x, y, t);
    LerpOnLine(x, y, b, vb, t);
    SameLine(a, va, b, vb, x, y, t, left);
    SameLine(a, va, b, vb, x, y, t, right);
    LineUnique(a, va, b, vb, t, z, left);
    LineUnique(a, va, b, vb, t, z, right);
  }

  lemma BetweenEqual(a: Row, b: Row, t: real)
    requires a.time < b.time && a.value == b.value
    ensures Between(a, b, t) == a.value
  {
  }

  /** At a row, the interpolation returns the row. */
  lemma AtStart(a: Row, b: Row)
    requires a.time < b.time
    ensures Between(a, b, a.time) == a.value
  {
  }

  // ---------------------------------------------------------------- inserting interpolated rows

  lemma UpperIs(rows: Profile, t: real, u: nat)
    requires Sorted(rows) && u <= |rows|
    requires (u > 0 ==> rows[u - 1].time <= t) && (u < |rows| ==> rows[u].time > t)
    ensures UpperBound(rows, t) == u
  {
    var v := UpperBound(rows, t);
  }

  /** std::map::insert of a time that is not there yet. */
  function Inserted(rows: Profile, x: real, y: PQ): Profile
    requires Sorted(rows)
  {
    rows[..UpperBound(rows, x)] + [Row(x, y)] + rows[UpperBound(rows, x)..]
  }

  lemma {:induction false} InsertedSorted(rows: Profile, x: real, y: PQ)
    requires Sorted(rows) && !HasTime(rows, x)
    ensures Sorted(Inserted(rows, x, y))
    ensures forall t :: HasTime(Inserted(rows, x, y), t) <==> HasTime(rows, t) || t == x
  {
    var u, r := UpperBound(rows, x), Inserted(rows, x, y);
    InsertedAt(rows, x, y);
    hide Inserted;
    assert forall i :: 0 <= i < |r| ==> r[i] == if i < u then rows[i] else if i == u then Row(x, y) else rows[i - 1];
    InsertedTimes(rows, x, y);
    assert forall i :: 0 <= i < |rows| ==> rows[i].time != x;
    hide HasTime;
  }

  lemma {:induction false} InsertedTimes(rows: Profile, x: real, y: PQ)
    requires Sorted(rows)
    ensures forall t :: HasTime(Inserted(rows, x, y), t) <==> HasTime(rows, t) || t == x
  {
    var u, r := UpperBound(rows, x), Inserted(rows, x, y);
    InsertedAt(rows, x, y);
    hide Sorted, UpperBound, Inserted;
    forall t ensures HasTime(r, t) <==> HasTime(rows, t) || t == x {
      if HasTime(rows, t) {
        var i :| 0 <= i < |rows| && rows[i].time == t;
        assert r[if i < u then i else i + 1].time == t;
      }
      assert r[u].time == x;
      if HasTime(r, t) {
        var i :| 0 <= i < |r| && r[i].time == t;
        if i != u { assert rows[if i < u then i else i - 1].time == t; }
      }
    }
  }

  lemma InsertedAt(rows: Profile, x: real, y: PQ)
    requires Sorted(rows)
    ensures |Inserted(rows, x, y)| == |rows| + 1 && Inserted(rows, x, y)[UpperBound(rows, x)] == Row(x, y)
    ensures forall i :: 0 <= i < UpperBound(rows, x) ==> Inserted(rows, x, y)[i] == rows[i]
    ensures forall i :: UpperBound(rows, x) < i <= |rows| ==> Inserted(rows, x, y)[i] == rows[i - 1]
  {
  }

  /** Inserting the interpolated value changes the profile as a function nowhere. */
  lemma {:induction false} InsertKeepsFunction(rows: Profile, x: real, t: real)
    requires Sorted(rows) && rows != [] && !HasTime(rows, x)
    ensures Sorted(Inserted(rows, x, Interpolate(rows, x)))
    ensures Interpolate(Inserted(rows, x, Interpolate(rows, x)), t) == Interpolate(rows, t)
  {
    InsertedSorted(rows, x, Interpolate(rows, x));
    if UpperBound(rows, t) < UpperBound(rows, x) || (UpperBound(rows, t) == UpperBound(rows, x) && t < x) {
      KeepsBefore(rows, x, t);
    } else {
      KeepsAfter(rows, x, t);
    }
  }

  lemma {:induction false} KeepsBefore(rows: Profile, x: real, t: real)
    requires Sorted(rows) && rows != [] && !HasTime(rows, x)
    requires UpperBound(rows, t) < UpperBound(rows, x) || (UpperBound(rows, t) == UpperBound(rows, x) && t < x)
    requires Sorted(Inserted(rows, x, Interpolate(rows, x)))
    ensures Interpolate(Inserted(rows, x, Interpolate(rows, x)), t) == Interpolate(rows, t)
  {
    hide Between, Inserted, Sorted;
    var u, w, y := UpperBound(rows, x), UpperBound(rows, t), Interpolate(rows, x);
    var r := Inserted(rows, x, y);
    InsertedAt(rows, x, y);
    UpperIs(r, t, w);
    if w == u && u > 0 {
      assert rows[u - 1].time != x;
      if u < |rows| { SameBetween(rows[u - 1], rows[u], x, t); } else { BetweenEqual(rows[u - 1], Row(x, y), t); }
    }
  }

  lemma {:induction false} KeepsAfter(rows: Profile, x: real, t: real)
    requires Sorted(rows) && rows != [] && !HasTime(rows, x)
    requires UpperBound(rows, t) > UpperBound(rows, x) || (UpperBound(rows, t) == UpperBound(rows, x) && t >= x)
    requires Sorted(Inserted(rows, x, Interpolate(rows, x)))
    ensures Interpolate(Inserted(rows, x, Interpolate(rows, x)), t) == Interpolate(rows, t)
  {
    hide Between, Inserted, Sorted;
    var u, w, y := UpperBound(rows, x), UpperBound(rows, t), Interpolate(rows, x);
    var r := Inserted(rows, x, y);
    InsertedAt(rows, x, y);
    UpperIs(r, t, w + 1);
    if w == u && u < |rows| {
      if u > 0 {
        assert rows[u - 1].time != x;
        SameBetween(rows[u - 1], rows[u], x, t);
      } else {
        BetweenEqual(Row(x, y), rows[u], t);
      }
    }
  }

  /** A row of the profile is what the interpolation gives at its time. */
  lemma {:induction false} RowIsValue(rows: Profile, i: nat)
    requires Sorted(rows) && i < |rows|
    ensures Interpolate(rows, rows[i].time) == rows[i].value
  {
    UpperIs(rows, rows[i].time, i + 1);
    if i + 1 < |rows| { AtStart(rows[i], rows[i + 1]); }
  }

  // ---------------------------------------------------------------- resampling

  /** rows is the profile from with rows added at the given times: each row lies on it. */
  ghost predicate IsResampled(from: Profile, times: seq<real>, rows: Profile)
    requires Sorted(from) && from != []
  {
    && Sorted(rows) && rows != []
    && (forall t :: HasTime(rows, t) <==> HasTime(from, t) || t in times)
    && forall i :: 0 <= i < |rows| ==> rows[i].value == Interpolate(from, rows[i].time)
  }

  ghost predicate SameFunction(a: Profile, b: Profile)
    requires Sorted(a) && a != [] && Sorted(b) && b != []
  {
    forall t :: Interpolate(a, t) == Interpolate(b, t)
  }

  method Find(rows: Profile, x: real) returns (found: bool)
    ensures found <==> HasTime(rows, x)
  {
    for i := 0 to |rows|
      invariant forall j :: 0 <= j < i ==> rows[j].time != x
    {
      if rows[i].time == x { return true; }
    }
    return false;
  }

  /** y is on the straight line between rows a and b, for both components. */
  predicate OnSegment(a: Row, b: Row, x: real, y: PQ) {
    OnLine(a.time, a.value.p, b.time, b.value.p, x, y.p) && OnLine(a.time, a.value.q, b.time, b.value.q, x, y.q)
  }

  /** What interpolation gives: the straight line between the two rows around x, constant outside. */
  lemma {:induction false} InterpolationIs(rows: Profile, x: real, i: nat)
    requires Sorted(rows) && i < |rows|
    ensures x < rows[0].time ==> Interpolate(rows, x) == rows[0].value
    ensures x >= rows[|rows| - 1].time ==> Interpolate(rows, x) == rows[|rows| - 1].value
    ensures i > 0 && rows[i - 1].time <= x < rows[i].time ==> OnSegment(rows[i - 1], rows[i], x, Interpolate(rows, x))
  {
    if i > 0 && rows[i - 1].time <= x < rows[i].time {
      UpperIs(rows, x, i);
      var a, b := rows[i - 1], rows[i];
      LerpOnLine(a.time, a.value.p, b.time, b.value.p, x);
      LerpOnLine(a.time, a.value.q, b.time, b.value.q, x);
    }
  }

  /** y is the value at x of the straight lines from row to row, constant before the first and after
      the last. */
  ghost predicate FollowsLines(rows: Profile, x: real, y: PQ)
    requires rows != []
  {
    && (x < rows[0].time ==> y == rows[0].value)
    && (x >= rows[|rows| - 1].time ==> y == rows[|rows| - 1].value)
    && forall i {:trigger rows[i]} :: 0 < i < |rows| && rows[i - 1].time <= x < rows[i].time ==>
         OnSegment(rows[i - 1], rows[i], x, y)
  }

  lemma InterpolationFollows(rows: Profile, x: real)
    requires Sorted(rows) && rows != []
    ensures FollowsLines(rows, x, Interpolate(rows, x))
  {
    hide Interpolate, OnSegment, Sorted;
    InterpolationIs(rows, x, 0);
    forall i | 0 < i < |rows| && rows[i - 1].time <= x < rows[i].time
      ensures OnSegment(rows[i - 1], rows[i], x, Interpolate(rows, x))
    {
      InterpolationIs(rows, x, i);
    }
  }

  /** Resampled profiles follow the lines of the original one at every time. */
  lemma ResampledFollows(from: Profile, times: seq<real>, rows: Profile, t: real)
    requires Sorted(from) && from != [] && IsResampled(from, times, rows) && SameFunction(rows, from)
    ensures FollowsLines(from, t, Interpolate(rows, t))
    ensures forall i :: 0 <= i < |rows| ==> FollowsLines(from, rows[i].time, rows[i].value)
  {
    InterpolationFollows(from, t);
    forall i | 0 <= i < |rows| ensures FollowsLines(from, rows[i].time, rows[i].value) {
      InterpolationFollows(from, rows[i].time);
    }
  }

  method InterpolLinear(rows: Profile, x: real) returns (y: PQ)
    requires Sorted(rows) && rows != []
    ensures y == Interpolate(rows, x) && FollowsLines(rows, x, y)
  {
    var entry := Search(rows, x);
    InterpolationFollows(rows, x);
    hide Sorted, FollowsLines, Between;
    if entry == |rows| {
      return rows[entry - 1].value;
    }
    if entry == 0 {
      return rows[entry].value;
    }
    y := Weighted(rows[entry - 1], rows[entry], x);
  }

  /** upper_bound. */
  method Search(rows: Profile, x: real) returns (entry: nat)
    requires Sorted(rows)
    ensures entry == UpperBound(rows, x)
  {
    entry := 0;
    while entry < |rows| && rows[entry].time <= x
      invariant entry <= |rows| && (entry > 0 ==> rows[entry - 1].time <= x)
    {
      entry := entry + 1;
    }
    UpperIs(rows, x, entry);
  }

  /** The weighted mean of two rows. */
  method Weighted(prev: Row, entry: Row, x: real) returns (y: PQ)
    requires prev.time < entry.time
    ensures y == Between(prev, entry, x)
  {
    var delta := (x - prev.time) / (entry.time - prev.time);
    y := PQ(delta * entry.value.p + (1.0 - delta) * prev.value.p, delta * entry.value.q + (1.0 - delta) * prev.value.q);
  }

  /** Inserts the interpolated row, unless there is a row at that time. */
  method ResampleAt(ghost from: Profile, ghost times: seq<real>, rows: Profile, x: real, checkFirst: bool)
    returns (r: Profile)
    requires Sorted(from) && from != [] && IsResampled(from, times, rows) && SameFunction(rows, from)
    ensures Sorted(r) && r != [] && IsResampled(from, times + [x], r) && SameFunction(r, from)
  {
    hide SameFunction, Interpolate, Inserted, FollowsLines;
    r := rows;
    var found := Find(rows, x);
    if !checkFirst || !found {
      var y := InterpolLinear(rows, x);
      if !found {
        ResampleOne(from, times, rows, x);
        r := Inserted(rows, x, y);
      }
    }
    if found { ResampleSame(from, times, rows, x); }
  }

  method Resample(from: Profile, times: seq<real>, checkFirst: bool) returns (rows: Profile)
    requires Sorted(from) && from != []
    ensures IsResampled(from, times, rows) && SameFunction(rows, from)
    ensures forall i :: 0 <= i < |from| ==> from[i] in rows
    ensures forall i :: 0 <= i < |rows| ==> FollowsLines(from, rows[i].time, rows[i].value)
  {
    hide *;
    rows := from;
    assert times[..0] == [];
    ResampleNone(from);
    for k := 0 to |times|
      invariant Sorted(rows) && rows != [] && IsResampled(from, times[..k], rows) && SameFunction(rows, from)
    {
      assert times[..k + 1] == times[..k] + [times[k]];
      rows := ResampleAt(from, times[..k], rows, times[k], checkFirst);
    }
    assert times[..|times|] == times;
    forall i | 0 <= i < |from| ensures from[i] in rows { RowStays(from, times, rows, i); }
    ResampledFollows(from, times, rows, 0.0);
  }

  lemma {:induction false} ResampleNone(from: Profile)
    requires Sorted(from) && from != []
    ensures IsResampled(from, [], from) && SameFunction(from, from)
  {
    forall i | 0 <= i < |from| ensures from[i].value == Interpolate(from, from[i].time) { RowIsValue(from, i); }
  }

  lemma {:induction false} ResampleSame(from: Profile, times: seq<real>, rows: Profile, x: real)
    requires Sorted(from) && from != [] && IsResampled(from, times, rows) && HasTime(rows, x)
    ensures IsResampled(from, times + [x], rows)
  {
  }

  lemma {:induction false} ResampleOne(from: Profile, times: seq<real>, rows: Profile, x: real)
    requires Sorted(from) && from != [] && IsResampled(from, times, rows) && SameFunction(rows, from) &&
             !HasTime(rows, x)
    ensures Sorted(Inserted(rows, x, Interpolate(rows, x))) && Inserted(rows, x, Interpolate(rows, x)) != []
    ensures IsResampled(from, times + [x], Inserted(rows, x, Interpolate(rows, x)))
    ensures SameFunction(Inserted(rows, x, Interpolate(rows, x)), from)
  {
    hide Sorted, HasTime, Inserted, Interpolate;
    var y := Interpolate(rows, x);
    var r := Inserted(rows, x, y);
    InsertedAt(rows, x, y);
    InsertedSorted(rows, x, y);
    forall i | 0 <= i < |r| ensures r[i].value == Interpolate(from, r[i].time) {
      if i > UpperBound(rows, x) { assert r[i] == rows[i - 1]; }
    }
    forall t ensures Interpolate(r, t) == Interpolate(from, t) { InsertKeepsFunction(rows, x, t); }
  }

  lemma {:induction false} RowStays(from: Profile, times: seq<real>, rows: Profile, i: nat)
    requires Sorted(from) && from != [] && IsResampled(from, times, rows) && i < |from|
    ensures from[i] in rows
  {
    assert HasTime(from, from[i].time) && HasTime(rows, from[i].time);
    var j :| 0 <= j < |rows| && rows[j].time == from[i].time;
    RowIsValue(from, i);
  }

  /** The order of the times does not matter, nor do repetitions. */
  lemma {:induction false} OrderDoesNotMatter(from: Profile, times: seq<real>, times': seq<real>, rows: Profile,
                                              rows': Profile)
    requires Sorted(from) && from != [] && IsResampled(from, times, rows) && IsResampled(from, times', rows')
    requires forall t :: t in times <==> t in times'
    ensures rows == rows'
  {
    hide Interpolate;
    SameTimes(rows, rows');
  }

  lemma {:induction false} SameTimes(rows: Profile, rows': Profile)
    requires Sorted(rows) && Sorted(rows') && forall t :: HasTime(rows, t) <==> HasTime(rows', t)
    ensures |rows| == |rows'| && forall i :: 0 <= i < |rows| ==> rows[i].time == rows'[i].time
  {
    if rows != [] && rows' != [] {
      var n, m := |rows| - 1, |rows'| - 1;
      assert HasTime(rows, rows[n].time) && HasTime(rows', rows'[m].time);
      var a, b := rows[..n], rows'[..m];
      forall t ensures HasTime(a, t) <==> HasTime(b, t) {
        LastTime(rows, t);
        LastTime(rows', t);
      }
      SameTimes(a, b);
    } else if rows != [] {
      assert HasTime(rows, rows[0].time);
    } else if rows' != [] {
      assert HasTime(rows', rows'[0].time);
    }
  }

  lemma LastTime(rows: Profile, t: real)
    requires Sorted(rows) && rows != []
    ensures HasTime(rows[..|rows| - 1], t) <==> HasTime(rows, t) && t != rows[|rows| - 1].time
  {
    var n, a := |rows| - 1, rows[..|rows| - 1];
    if HasTime(rows, t) && t != rows[n].time {
      var i :| 0 <= i < |rows| && rows[i].time == t;
      assert a[i].time == t;
    }
    if HasTime(a, t) {
      var i :| 0 <= i < |a| && a[i].time == t;
      assert rows[i].time == t;
    }
  }

  /** Interpolated values stay within any bounds that the data keep. */
  lemma {:induction false} StaysWithin(rows: Profile, t: real, low: PQ, high: PQ)
    requires Sorted(rows) && rows != []
    requires forall i :: 0 <= i < |rows| ==> low.p <= rows[i].value.p <= high.p && low.q <= rows[i].value.q <= high.q
    ensures low.p <= Interpolate(rows, t).p <= high.p && low.q <= Interpolate(rows, t).q <= high.q
  {
    var u := UpperBound(rows, t);
    if 0 < u < |rows| {
      var a, b := rows[u - 1], rows[u];
      LerpWithin((t - a.time) / (b.time - a.time), a.value.p, b.value.p, low.p, high.p);
      LerpWithin((t - a.time) / (b.time - a.time), a.value.q, b.value.q, low.q, high.q);
    }
  }

  lemma LerpWithin(delta: real, va: real, vb: real, low: real, high: real)
    requires 0.0 <= delta <= 1.0 && low <= va <= high && low <= vb <= high
    ensures low <= Lerp(delta, va, vb) <= high
  {
    ProductNotNegative(delta, vb - low);
    ProductNotNegative(1.0 - delta, va - low);
    ProductNotNegative(delta, high - vb);
    ProductNotNegative(1.0 - delta, high - va);
  }

  lemma ProductNotNegative(x: real, y: real)
    requires x >= 0.0 && y >= 0.0
    ensures x * y >= 0.0
  {
  }

  /** The sampling times: from start on by steps, up to and including end. */
  method SampleTimes(start: real, step: real, end: real) returns (times: seq<real>)
    requires step > 0.0
    ensures forall k :: 0 <= k < |times| ==> times[k] == start + k as real * step && times[k] <= end
    ensures start + |times| as real * step > end
  {
    times := [];
    var x := start;
    while x <= end
      invariant x == start + |times| as real * step
      invariant forall k :: 0 <= k < |times| ==> times[k] == start + k as real * step && times[k] <= end
      decreases ((end - x) / step).Floor
    {
      times := times + [x];
      StepsFall(end - x, step);
      x := x + step;
    }
  }

  lemma StepsFall(rest: real, step: real)
    requires step > 0.0 && rest >= 0.0
    ensures ((rest - step) / step).Floor < (rest / step).Floor && (rest / step).Floor >= 0
  {
    var q, r := rest / step, (rest - step) / step;
    assert q * step == rest && r * step == rest - step;
    assert (q - r - 1.0) * step == 0.0;
    ZeroFactor(q - r - 1.0, step);
    FloorStep(q, r);
  }

  lemma ZeroFactor(x: real, y: real)
    requires x * y == 0.0 && y > 0.0
    ensures x == 0.0
  {
  }

  lemma FloorStep(q: real, r: real)
    requires r == q - 1.0 && q >= 0.0
    ensures r.Floor < q.Floor && q.Floor >= 0
  {
  }
}
