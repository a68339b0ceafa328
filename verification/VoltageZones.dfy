module VoltageZones {

  // PFSolver::propagateAndVerifyBaseVoltage: voltage zones by union-find with path halving, and the
  // base voltage that the ratings in each zone agree on.

  import opened Chains

  // ---------------------------------------------------------------- the forest

  /** parent is a forest over 0..n-1: following it leads from i to root[i], and depth falls on the way. */
  ghost predicate Forest(parent: seq<nat>, root: seq<nat>, depth: seq<nat>) {
    && |parent| == |root| == |depth|
    && forall i :: 0 <= i < |parent| ==> NodeOk(parent, root, depth, i)
  }

  ghost predicate NodeOk(parent: seq<nat>, root: seq<nat>, depth: seq<nat>, i: nat)
    requires |parent| == |root| == |depth| && i < |parent|
  {
    && parent[i] < |parent| && root[i] < |parent|
    && root[parent[i]] == root[i] && root[root[i]] == root[i]
    && (parent[i] == i <==> root[i] == i)
    && (parent[i] != i ==> depth[parent[i]] < depth[i])
  }

  /** findZone: halves the path on the way, which changes no root. */
  method FindZone(zoneParent: array<nat>, start: nat, ghost root: seq<nat>, ghost depth: seq<nat>) returns (node: nat)
    requires start < zoneParent.Length && Forest(zoneParent[..], root, depth)
    modifies zoneParent
    ensures Forest(zoneParent[..], root, depth) && node < zoneParent.Length && node == root[start]
  {
    node := start;
    while zoneParent[node] != node
      invariant node < zoneParent.Length && Forest(zoneParent[..], root, depth) && root[node] == root[start]
      decreases depth[node]
    {
      assert NodeOk(zoneParent[..], root, depth, node);
      var up := zoneParent[node];
      assert NodeOk(zoneParent[..], root, depth, up);
      HalveStep(zoneParent[..], root, depth, node);
      zoneParent[node] := zoneParent[up];
      node := zoneParent[node];
    }
    assert NodeOk(zoneParent[..], root, depth, node);
  }

  lemma {:induction false} HalveStep(parent: seq<nat>, root: seq<nat>, depth: seq<nat>, i: nat)
    requires Forest(parent, root, depth) && i < |parent| && parent[i] != i
    ensures parent[i] < |parent| && parent[parent[i]] < |parent|
    ensures Forest(parent[i := parent[parent[i]]], root, depth)
    ensures depth[parent[parent[i]]] < depth[i] && root[parent[parent[i]]] == root[i]
  {
    var up := parent[i];
    assert NodeOk(parent, root, depth, i) && NodeOk(parent, root, depth, up);
    var parent' := parent[i := parent[up]];
    forall j | 0 <= j < |parent'| ensures NodeOk(parent', root, depth, j) { assert NodeOk(parent, root, depth, j); }
  }

  /** The roots after the tree of ra has been hung below rb. */
  ghost function Rerooted(root: seq<nat>, ra: nat, rb: nat): seq<nat> {
    seq(|root|, i requires 0 <= i < |root| => if root[i] == ra then rb else root[i])
  }

  ghost function Deepened(root: seq<nat>, depth: seq<nat>, ra: nat, more: nat): seq<nat>
    requires |root| == |depth|
  {
    seq(|root|, i requires 0 <= i < |root| => if root[i] == ra then depth[i] + more else depth[i])
  }

  lemma {:induction false} HangBelow(parent: seq<nat>, root: seq<nat>, depth: seq<nat>, ra: nat, rb: nat)
    requires Forest(parent, root, depth) && ra < |parent| && rb < |parent| && root[ra] == ra && root[rb] == rb &&
             ra != rb
    ensures Forest(parent[ra := rb], Rerooted(root, ra, rb), Deepened(root, depth, ra, depth[rb] + 1))
  {
    var parent', root', depth' := parent[ra := rb], Rerooted(root, ra, rb), Deepened(root, depth, ra, depth[rb] + 1);
    assert NodeOk(parent, root, depth, rb);
    forall i | 0 <= i < |parent| ensures NodeOk(parent', root', depth', i) {
      assert NodeOk(parent, root, depth, i);
      assert NodeOk(parent, root, depth, root[i]);
    }
  }

  /** Same root exactly where a chain of lines joins two nodes. */
  ghost predicate RootsAreZones(root: seq<nat>, lines: seq<Line>) {
    && (forall i, j :: 0 <= i < |root| && 0 <= j < |root| && root[i] == root[j] ==> Joined(lines, i, j))
    && forall k :: 0 <= k < |lines| ==>
         lines[k].0 < |root| && lines[k].1 < |root| && root[lines[k].0] == root[lines[k].1]
  }

  lemma {:induction false} ChainKeepsRoot(root: seq<nat>, lines: seq<Line>, p: seq<nat>)
    requires RootsAreZones(root, lines) && IsChain(lines, p) && p[0] < |root|
    ensures p[|p| - 1] < |root| && root[p[|p| - 1]] == root[p[0]]
    decreases |p|
  {
    if |p| > 1 {
      var n := |p| - 1;
      assert IsChain(lines, p[..n]);
      ChainKeepsRoot(root, lines, p[..n]);
      var a, b := n - 1, n;
      assert Linked(lines, p[a], p[b]);
    }
  }

  /** The zones that the union-find ends with are those joined by chains of lines. */
  lemma {:induction false} SameRootIffJoined(root: seq<nat>, lines: seq<Line>, i: nat, j: nat)
    requires RootsAreZones(root, lines) && i < |root| && j < |root|
    ensures root[i] == root[j] <==> Joined(lines, i, j)
  {
    if Joined(lines, i, j) {
      var p :| IsChain(lines, p) && p[0] == i && p[|p| - 1] == j;
      ChainKeepsRoot(root, lines, p);
    }
  }

  lemma {:induction false} ZonesUnited(root: seq<nat>, lines: seq<Line>, a: nat, b: nat)
    requires RootsAreZones(root, lines) && a < |root| && b < |root|
    ensures RootsAreZones(Rerooted(root, root[a], root[b]), lines + [(a, b)])
  {
    var ra, rb := root[a], root[b];
    var root', lines' := Rerooted(root, ra, rb), lines + [(a, b)];
    forall i, j | 0 <= i < |root| && 0 <= j < |root| && root'[i] == root'[j] ensures Joined(lines', i, j) {
      if root[i] == root[j] {
        JoinedMore(lines, (a, b), i, j);
      } else if root[i] == ra {
        Across(root, lines, a, b, i, j);
      } else {
        Across(root, lines, a, b, j, i);
        JoinedBack(lines', j, i);
      }
    }
    forall k | 0 <= k < |lines'|
      ensures lines'[k].0 < |root'| && lines'[k].1 < |root'| && root'[lines'[k].0] == root'[lines'[k].1]
    {
      if k < |lines| { assert lines'[k] == lines[k]; }
    }
  }

  lemma {:induction false} Across(root: seq<nat>, lines: seq<Line>, a: nat, b: nat, i: nat, j: nat)
    requires RootsAreZones(root, lines) && a < |root| && b < |root| && i < |root| && j < |root|
    requires root[i] == root[a] && root[j] == root[b]
    ensures Joined(lines + [(a, b)], i, j)
  {
    JoinedMore(lines, (a, b), i, a);
    JoinedMore(lines, (a, b), b, j);
    JoinedByLine(lines, a, b);
    JoinedOn(lines + [(a, b)], i, a, b);
    JoinedOn(lines + [(a, b)], i, b, j);
  }

  /** uniteZones; the right-hand side of the assignment is evaluated first. */
  method UniteZones(zoneParent: array<nat>, a: nat, b: nat, ghost root: seq<nat>, ghost depth: seq<nat>,
                    ghost lines: seq<Line>)
    returns (ghost root': seq<nat>, ghost depth': seq<nat>)
    requires Forest(zoneParent[..], root, depth) && RootsAreZones(root, lines) && a < |root| && b < |root|
    modifies zoneParent
    ensures Forest(zoneParent[..], root', depth') && RootsAreZones(root', lines + [(a, b)])
  {
    hide RootsAreZones;
    var rb := FindZone(zoneParent, b, root, depth);
    var ra := FindZone(zoneParent, a, root, depth);
    assert NodeOk(zoneParent[..], root, depth, a) && NodeOk(zoneParent[..], root, depth, b);
    assert NodeOk(zoneParent[..], root, depth, ra);
    ZonesUnited(root, lines, a, b);
    ghost var before := zoneParent[..];
    if ra == rb {
      root', depth' := root, depth;
      assert Rerooted(root, ra, rb) == root;
    } else {
      HangBelow(zoneParent[..], root, depth, ra, rb);
      root', depth' := Rerooted(root, ra, rb), Deepened(root, depth, ra, depth[rb] + 1);
    }
    zoneParent[ra] := rb;
    assert zoneParent[..] == before[ra := rb];
    if ra == rb { assert zoneParent[..] == before; }
  }

  method FindZones(n: nat, lines: seq<Line>)
    returns (zoneParent: array<nat>, ghost root: seq<nat>, ghost depth: seq<nat>)
    requires forall k :: 0 <= k < |lines| ==> lines[k].0 < n && lines[k].1 < n
    ensures fresh(zoneParent) && zoneParent.Length == n && Forest(zoneParent[..], root, depth) &&
            RootsAreZones(root, lines)
  {
    zoneParent := new nat[n](i => i);
    root, depth := seq(n, i => i), seq(n, i => 0);
    forall i | 0 <= i < n ensures Joined([], i, i) { JoinedSelf([], i); }
    assert lines[..0] == [];
    for k := 0 to |lines|
      invariant Forest(zoneParent[..], root, depth) && RootsAreZones(root, lines[..k])
    {
      assert lines[..k + 1] == lines[..k] + [(lines[k].0, lines[k].1)];
      root, depth := UniteZones(zoneParent, lines[k].0, lines[k].1, root, depth, lines[..k]);
    }
    assert lines[..|lines|] == lines;
  }

  // ---------------------------------------------------------------- the base voltages

  /** A rating at a node: what componentBaseVoltage gives for a component there, and whether the
      component's rating is authoritative. */
  datatype Rating = Rating(voltage: real, authoritative: bool)

  datatype Result<T> = Ok(value: T) | InvalidArgument

  function Abs(x: real): real { if x < 0.0 then -x else x }

  function MaxReal(x: real, y: real): real { if x < y then y else x }

  /** The ratings of one kind; those near zero do not count. */
  function Kept(ratings: seq<Rating>, authoritative: bool): (r: seq<real>)
    ensures forall k :: 0 <= k < |r| ==> Abs(r[k]) > 0.000001
  {
    if ratings == [] then [] else
    var last := ratings[|ratings| - 1];
    Kept(ratings[..|ratings| - 1], authoritative) +
    if Abs(last.voltage) > 0.000001 && last.authoritative == authoritative then [last.voltage] else []
  }

  /** The ratings of one kind at the first n nodes as far as they lie in zone z. */
  function Bucket(ratings: seq<seq<Rating>>, root: seq<nat>, z: nat, authoritative: bool, n: nat): (r: seq<real>)
    requires n <= |ratings| && n <= |root|
    ensures forall k :: 0 <= k < |r| ==> Abs(r[k]) > 0.000001
  {
    if n == 0 then [] else
    Bucket(ratings, root, z, authoritative, n - 1) +
      if root[n - 1] == z then Kept(ratings[n - 1], authoritative) else []
  }

  /** The relative difference of a rating to the reference is within the tolerance. */
  predicate Close(candidate: real, reference: real, tolerance: real)
    requires Abs(candidate) > 0.000001
  {
    Abs(candidate - reference) / MaxReal(Abs(candidate), Abs(reference)) <= tolerance
  }

  predicate AllClose(candidates: seq<real>, reference: real, tolerance: real)
    requires forall k :: 0 <= k < |candidates| ==> Abs(candidates[k]) > 0.000001
  {
    forall k :: 0 <= k < |candidates| ==> Close(candidates[k], reference, tolerance)
  }

  /** The voltage of a zone with these ratings: the first authoritative one, else the first, else 0. */
  function ZoneVoltage(strict: seq<real>, loose: seq<real>): real {
    if strict != [] then strict[0] else if loose != [] then loose[0] else 0.0
  }

  predicate ZoneAgrees(strict: seq<real>, loose: seq<real>, strictTolerance: real, looseTolerance: real)
    requires forall k :: 0 <= k < |strict| ==> Abs(strict[k]) > 0.000001
    requires forall k :: 0 <= k < |loose| ==> Abs(loose[k]) > 0.000001
  {
    AllClose(strict, ZoneVoltage(strict, loose), strictTolerance) &&
      AllClose(loose, ZoneVoltage(strict, loose), looseTolerance)
  }

  /** Two positive ratings that agree with the same reference differ by a factor of at least (1 - t)^2. */
  lemma {:induction false} CloseRatings(x: real, y: real, reference: real, t: real)
    requires x > 0.000001 && y > 0.000001 && 0.0 <= t < 1.0 && Close(x, reference, t) && Close(y, reference, t)
    ensures x >= (1.0 - t) * (1.0 - t) * y
  {
    CloseMeans(x, reference, t);
    CloseMeans(y, reference, t);
    Transitive(x, y, reference, t);
  }

  /** t times x, and what remains of x. */
  function Share(t: real, x: real): real { t * x }

  function Part(t: real, x: real): real { x - Share(t, x) }

  lemma ShareBounds(t: real, x: real)
    requires 0.0 <= t < 1.0 && x > 0.0
    ensures 0.0 <= Share(t, x) < x
  {
  }

  lemma PartGrows(t: real, x: real, y: real)
    requires 0.0 <= t < 1.0 && x <= y
    ensures Part(t, x) <= Part(t, y)
  {
    var s, d := 1.0 - t, y - x;
    NotNegative(s, d);
    assert s * d == Part(t, y) - Part(t, x);
  }

  lemma NotNegative(s: real, d: real)
    requires s >= 0.0 && d >= 0.0
    ensures s * d >= 0.0
  {
  }

  lemma PartTwice(t: real, y: real)
    ensures Part(t, Part(t, y)) == (1.0 - t) * (1.0 - t) * y
  {
    assert Part(t, Part(t, y)) == (1.0 - t) * ((1.0 - t) * y);
  }

  lemma Transitive(x: real, y: real, reference: real, t: real)
    requires 0.0 <= t < 1.0 && x >= Part(t, reference) && reference >= Part(t, y)
    ensures x >= (1.0 - t) * (1.0 - t) * y
  {
    hide Part;
    PartGrows(t, Part(t, y), reference);
    PartTwice(t, y);
  }

  lemma CloseMeans(x: real, reference: real, t: real)
    requires x > 0.000001 && 0.0 <= t < 1.0 && Close(x, reference, t)
    ensures reference > 0.0 && x >= Part(t, reference) && reference >= Part(t, x)
  {
    Quotient(Abs(x - reference), MaxReal(Abs(x), Abs(reference)), t);
    CloseProducts(x, reference, t);
  }

  lemma CloseProducts(x: real, reference: real, t: real)
    requires x > 0.0 && 0.0 <= t < 1.0 && Abs(x - reference) <= Share(t, MaxReal(Abs(x), Abs(reference)))
    ensures reference > 0.0 && x >= Part(t, reference) && reference >= Part(t, x)
  {
    hide Share;
    ShareBounds(t, MaxReal(Abs(x), Abs(reference)));
    ShareBounds(t, x);
    if reference > 0.0 { ShareBounds(t, reference); }
  }

  lemma Quotient(d: real, m: real, t: real)
    requires m > 0.0 && d / m <= t
    ensures d <= Share(t, m)
  {
    var q := d / m;
    assert q * m == d;
    assert (t - q) * m >= 0.0;
  }

  /** Any two positive authoritative ratings of a zone that agrees. */
  lemma {:induction false} ZoneRatings(strict: seq<real>, loose: seq<real>, strictTolerance: real, looseTolerance: real,
                                       j: nat, k: nat)
    requires forall i :: 0 <= i < |strict| ==> Abs(strict[i]) > 0.000001
    requires forall i :: 0 <= i < |loose| ==> Abs(loose[i]) > 0.000001
    requires ZoneAgrees(strict, loose, strictTolerance, looseTolerance) && 0.0 <= strictTolerance < 1.0
    requires j < |strict| && k < |strict| && strict[j] > 0.0 && strict[k] > 0.0
    ensures strict[j] >= (1.0 - strictTolerance) * (1.0 - strictTolerance) * strict[k]
  {
    CloseRatings(strict[j], strict[k], strict[0], strictTolerance);
  }

  type Buckets = map<nat, seq<real>>

  function Lookup(buckets: Buckets, z: nat): seq<real> {
    if z in buckets then buckets[z] else []
  }

  predicate NoEmpty(buckets: Buckets) {
    forall z :: z in buckets ==> buckets[z] != []
  }

  lemma KeptNext(ratings: seq<Rating>, k: nat, authoritative: bool)
    requires k < |ratings|
    ensures Kept(ratings[..k + 1], authoritative) == Kept(ratings[..k], authoritative) +
            if Abs(ratings[k].voltage) > 0.000001 && ratings[k].authoritative == authoritative then [ratings[k].voltage]
               else []
  {
    assert ratings[..k + 1][..k] == ratings[..k];
  }

  /** The bucket of the zone has been extended by xs, and no other. */
  ghost predicate Extended(before: Buckets, after: Buckets, zone: nat, xs: seq<real>) {
    NoEmpty(after) && forall z: nat ::
      Lookup(after, z) == if z == zone then Lookup(before, z) + xs else Lookup(before, z)
  }

  lemma ExtendOne(before: Buckets, after: Buckets, zone: nat, xs: seq<real>, x: real)
    requires Extended(before, after, zone, xs)
    ensures Extended(before, after[zone := Lookup(after, zone) + [x]], zone, xs + [x])
  {
    assert Lookup(before, zone) + xs + [x] == Lookup(before, zone) + (xs + [x]);
  }

  /** Adds the ratings of one node to the buckets of its zone. */
  method AddRatings(zone: nat, ratings: seq<Rating>, strict: Buckets, loose: Buckets)
    returns (strict': Buckets, loose': Buckets)
    requires NoEmpty(strict) && NoEmpty(loose)
    ensures Extended(strict, strict', zone, Kept(ratings, true)) && Extended(loose, loose', zone, Kept(ratings, false))
  {
    strict', loose' := strict, loose;
    assert Extended(strict, strict', zone, []) && Extended(loose, loose', zone, []);
    hide Extended;
    for k := 0 to |ratings|
      invariant Extended(strict, strict', zone, Kept(ratings[..k], true)) &&
                Extended(loose, loose', zone, Kept(ratings[..k], false))
    {
      KeptNext(ratings, k, true);
      KeptNext(ratings, k, false);
      assert Kept(ratings[..k], true) + [] == Kept(ratings[..k], true) &&
             Kept(ratings[..k], false) + [] == Kept(ratings[..k], false);
      var voltage := ratings[k].voltage;
      if Abs(voltage) > 0.000001 {
        if ratings[k].authoritative {
          ExtendOne(strict, strict', zone, Kept(ratings[..k], true), voltage);
          strict' := strict'[zone := Lookup(strict', zone) + [voltage]];
        } else {
          ExtendOne(loose, loose', zone, Kept(ratings[..k], false), voltage);
          loose' := loose'[zone := Lookup(loose', zone) + [voltage]];
        }
      }
    }
    assert ratings[..|ratings|] == ratings;
  }

  /** The buckets of the first n nodes. */
  ghost predicate Collected(buckets: Buckets, ratings: seq<seq<Rating>>, root: seq<nat>, authoritative: bool, n: nat)
    requires n <= |ratings| && n <= |root|
  {
    NoEmpty(buckets) && forall z: nat :: Lookup(buckets, z) == Bucket(ratings, root, z, authoritative, n)
  }

  lemma CollectedNext(buckets: Buckets, buckets': Buckets, ratings: seq<seq<Rating>>, root: seq<nat>,
                      authoritative: bool, n: nat)
    requires n < |ratings| && n < |root| && Collected(buckets, ratings, root, authoritative, n)
    requires Extended(buckets, buckets', root[n], Kept(ratings[n], authoritative))
    ensures Collected(buckets', ratings, root, authoritative, n + 1)
  {
    hide Kept;
    forall z: nat ensures Lookup(buckets', z) == Bucket(ratings, root, z, authoritative, n + 1) {
      assert Lookup(buckets, z) + [] == Lookup(buckets, z);
    }
  }

  method Collect(zoneParent: array<nat>, ratings: seq<seq<Rating>>, ghost root: seq<nat>, ghost depth: seq<nat>)
    returns (strict: Buckets, loose: Buckets)
    requires Forest(zoneParent[..], root, depth) && |ratings| == zoneParent.Length
    modifies zoneParent
    ensures Forest(zoneParent[..], root, depth)
    ensures Collected(strict, ratings, root, true, |ratings|) && Collected(loose, ratings, root, false, |ratings|)
  {
    strict, loose := map[], map[];
    assert Collected(strict, ratings, root, true, 0) && Collected(loose, ratings, root, false, 0);
    for i := 0 to |ratings|
      invariant Forest(zoneParent[..], root, depth)
      invariant Collected(strict, ratings, root, true, i) && Collected(loose, ratings, root, false, i)
    {
      hide Bucket, Kept, Extended;
      var zone := FindZone(zoneParent, i, root, depth);
      var strict', loose' := AddRatings(zone, ratings[i], strict, loose);
      CollectedNext(strict, strict', ratings, root, true, i);
      CollectedNext(loose, loose', ratings, root, false, i);
      strict, loose := strict', loose';
    }
  }

  method Verify(candidates: seq<real>, reference: real, tolerance: real) returns (ok: bool)
    requires forall k :: 0 <= k < |candidates| ==> Abs(candidates[k]) > 0.000001
    ensures ok <==> AllClose(candidates, reference, tolerance)
  {
    for k := 0 to |candidates|
      invariant forall j :: 0 <= j < k ==> Close(candidates[j], reference, tolerance)
    {
      var relDiff := Abs(candidates[k] - reference) / MaxReal(Abs(candidates[k]), Abs(reference));
      if relDiff > tolerance { return false; }
    }
    return true;
  }

  /** The agreement of zone z with its own reference. */
  predicate ZoneOk(ratings: seq<seq<Rating>>, root: seq<nat>, strictTolerance: real, looseTolerance: real, z: nat)
    requires |root| == |ratings|
  {
    ZoneAgrees(Bucket(ratings, root, z, true, |ratings|), Bucket(ratings, root, z, false, |ratings|), strictTolerance,
               looseTolerance)
  }

  function VoltageOf(ratings: seq<seq<Rating>>, root: seq<nat>, z: nat): real
    requires |root| == |ratings|
  {
    ZoneVoltage(Bucket(ratings, root, z, true, |ratings|), Bucket(ratings, root, z, false, |ratings|))
  }

  /** The references of the zones below z, entered where a zone has a rating. */
  ghost predicate VoltagesOk(zoneVoltage: map<nat, real>, ratings: seq<seq<Rating>>, root: seq<nat>, z: nat)
    requires |root| == |ratings|
  {
    forall y: nat :: y < z ==> VoltageOf(ratings, root, y) == if y in zoneVoltage then zoneVoltage[y] else 0.0
  }

  method ResolveZones(ratings: seq<seq<Rating>>, strict: Buckets, loose: Buckets, strictTolerance: real,
                      looseTolerance: real, ghost root: seq<nat>)
    returns (ok: bool, zoneVoltage: map<nat, real>)
    requires |root| == |ratings| && Collected(strict, ratings, root, true, |ratings|) &&
             Collected(loose, ratings, root, false, |ratings|)
    ensures ok <==> forall z :: 0 <= z < |ratings| ==> ZoneOk(ratings, root, strictTolerance, looseTolerance, z)
    ensures ok ==> VoltagesOk(zoneVoltage, ratings, root, |ratings|)
  {
    hide Bucket, AllClose;
    zoneVoltage := map[];
    for z := 0 to |ratings|
      invariant forall y :: 0 <= y < z ==>
                  AllClose(Bucket(ratings, root, y, true, |ratings|), VoltageOf(ratings, root, y), strictTolerance)
      invariant forall y: nat :: y in zoneVoltage <==> y < z && y in strict
      invariant forall y: nat :: y in zoneVoltage ==> zoneVoltage[y] == VoltageOf(ratings, root, y)
    {
      assert Lookup(strict, z) == Bucket(ratings, root, z, true, |ratings|);
      if z in strict {
        var reference := strict[z][0];
        var agrees := Verify(strict[z], reference, strictTolerance);
        if !agrees {
          assert !ZoneOk(ratings, root, strictTolerance, looseTolerance, z);
          return false, zoneVoltage;
        }
        zoneVoltage := zoneVoltage[z := reference];
      } else {
        NoneClose(VoltageOf(ratings, root, z), strictTolerance);
      }
    }
    ghost var resolved := zoneVoltage;
    for z := 0 to |ratings|
      invariant forall y :: 0 <= y < z ==> ZoneOk(ratings, root, strictTolerance, looseTolerance, y)
      invariant forall y: nat :: z <= y ==> (y in zoneVoltage <==> y < |ratings| && y in strict)
      invariant forall y: nat :: y in zoneVoltage ==> zoneVoltage[y] == VoltageOf(ratings, root, y)
      invariant VoltagesOk(zoneVoltage, ratings, root, z)
    {
      assert Lookup(loose, z) == Bucket(ratings, root, z, false, |ratings|) &&
             Lookup(strict, z) == Bucket(ratings, root, z, true, |ratings|);
      if z in loose {
        var hasAuthoritative := z in zoneVoltage;
        var reference := if hasAuthoritative then zoneVoltage[z] else loose[z][0];
        var agrees := Verify(loose[z], reference, looseTolerance);
        if !agrees {
          assert !ZoneOk(ratings, root, strictTolerance, looseTolerance, z);
          return false, zoneVoltage;
        }
        if !hasAuthoritative {
          zoneVoltage := zoneVoltage[z := reference];
        }
      } else {
        NoneClose(VoltageOf(ratings, root, z), looseTolerance);
      }
    }
    ok := true;
  }

  lemma NoneClose(reference: real, tolerance: real)
    ensures AllClose([], reference, tolerance)
  {
  }

  // ---------------------------------------------------------------- the result, in terms of lines

  /** The ratings of one kind at those of the first n nodes that chains of lines join to node i. */
  ghost function RatingsAround(lines: seq<Line>, ratings: seq<seq<Rating>>, i: nat, authoritative: bool,
                               n: nat): (r: seq<real>)
    requires n <= |ratings|
    ensures forall k :: 0 <= k < |r| ==> Abs(r[k]) > 0.000001
  {
    if n == 0 then [] else
    RatingsAround(lines, ratings, i, authoritative, n - 1) +
      if Joined(lines, n - 1, i) then Kept(ratings[n - 1], authoritative) else []
  }

  ghost predicate AgreesAround(lines: seq<Line>, ratings: seq<seq<Rating>>, strictTolerance: real, looseTolerance: real,
                               i: nat) {
    ZoneAgrees(RatingsAround(lines, ratings, i, true, |ratings|), RatingsAround(lines, ratings, i, false, |ratings|),
               strictTolerance, looseTolerance)
  }

  ghost function VoltageAround(lines: seq<Line>, ratings: seq<seq<Rating>>, i: nat): real {
    ZoneVoltage(RatingsAround(lines, ratings, i, true, |ratings|), RatingsAround(lines, ratings, i, false, |ratings|))
  }

  lemma {:induction false} BucketIsAround(root: seq<nat>, lines: seq<Line>, ratings: seq<seq<Rating>>, i: nat,
                                          authoritative: bool, n: nat)
    requires RootsAreZones(root, lines) && i < |root| == |ratings| && n <= |ratings|
    ensures Bucket(ratings, root, root[i], authoritative, n) == RatingsAround(lines, ratings, i, authoritative, n)
  {
    hide Kept, Joined, RootsAreZones;
    if n > 0 {
      BucketIsAround(root, lines, ratings, i, authoritative, n - 1);
      SameRootIffJoined(root, lines, n - 1, i);
    }
  }

  lemma {:induction false} NobodysBucket(root: seq<nat>, ratings: seq<seq<Rating>>, z: nat, authoritative: bool, n: nat)
    requires |root| == |ratings| && z !in root && n <= |ratings|
    ensures Bucket(ratings, root, z, authoritative, n) == []
  {
    if n > 0 { NobodysBucket(root, ratings, z, authoritative, n - 1); }
  }

  /** The zone labelled root[i] is what lies around node i. */
  lemma ZoneIsAround(root: seq<nat>, lines: seq<Line>, ratings: seq<seq<Rating>>, strictTolerance: real,
                     looseTolerance: real, i: nat)
    requires RootsAreZones(root, lines) && i < |root| == |ratings|
    ensures ZoneOk(ratings, root, strictTolerance, looseTolerance, root[i]) <==>
              AgreesAround(lines, ratings, strictTolerance, looseTolerance, i)
    ensures VoltageOf(ratings, root, root[i]) == VoltageAround(lines, ratings, i)
  {
    BucketIsAround(root, lines, ratings, i, true, |ratings|);
    BucketIsAround(root, lines, ratings, i, false, |ratings|);
  }

  lemma {:induction false} AllZonesAgree(root: seq<nat>, lines: seq<Line>, ratings: seq<seq<Rating>>,
                                         strictTolerance: real, looseTolerance: real)
    requires RootsAreZones(root, lines) && |root| == |ratings| && forall i :: 0 <= i < |root| ==> root[i] < |root|
    ensures (forall z :: 0 <= z < |ratings| ==> ZoneOk(ratings, root, strictTolerance, looseTolerance, z)) <==>
            forall i :: 0 <= i < |ratings| ==> AgreesAround(lines, ratings, strictTolerance, looseTolerance, i)
  {
    hide ZoneOk, AgreesAround, RootsAreZones;
    forall i | 0 <= i < |root|
      ensures ZoneOk(ratings, root, strictTolerance, looseTolerance, root[i]) <==>
                AgreesAround(lines, ratings, strictTolerance, looseTolerance, i)
    {
      ZoneIsAround(root, lines, ratings, strictTolerance, looseTolerance, i);
    }
    forall z: nat | z < |root| && z !in root ensures ZoneOk(ratings, root, strictTolerance, looseTolerance, z) {
      EmptyZoneOk(root, ratings, strictTolerance, looseTolerance, z);
    }
  }

  lemma EmptyZoneOk(root: seq<nat>, ratings: seq<seq<Rating>>, strictTolerance: real, looseTolerance: real, z: nat)
    requires |root| == |ratings| && z !in root
    ensures ZoneOk(ratings, root, strictTolerance, looseTolerance, z)
  {
    NobodysBucket(root, ratings, z, true, |ratings|);
    NobodysBucket(root, ratings, z, false, |ratings|);
  }

  lemma RootsInRange(parent: seq<nat>, root: seq<nat>, depth: seq<nat>)
    requires Forest(parent, root, depth)
    ensures |root| == |parent| && forall i :: 0 <= i < |root| ==> root[i] < |root|
  {
    forall i | 0 <= i < |root| ensures root[i] < |root| { assert NodeOk(parent, root, depth, i); }
  }

  /** Fails exactly when, for some node, the ratings at the nodes joined to it by lines disagree;
      otherwise every node gets the reference among those ratings. */
  method PropagateAndVerify(lines: seq<Line>, ratings: seq<seq<Rating>>, strictTolerance: real, looseTolerance: real)
    returns (r: Result<seq<real>>)
    requires forall k :: 0 <= k < |lines| ==> lines[k].0 < |ratings| && lines[k].1 < |ratings|
    ensures r.Ok? <==> forall i :: 0 <= i < |ratings| ==>
              AgreesAround(lines, ratings, strictTolerance, looseTolerance, i)
    ensures r.Ok? ==> |r.value| == |ratings| && forall i :: 0 <= i < |ratings| ==>
              r.value[i] == VoltageAround(lines, ratings, i)
  {
    hide Bucket, AllClose, ZoneOk, AgreesAround, VoltageAround, VoltageOf, RootsAreZones;
    var zoneParent, root, depth := FindZones(|ratings|, lines);
    RootsInRange(zoneParent[..], root, depth);
    AllZonesAgree(root, lines, ratings, strictTolerance, looseTolerance);
    var strict, loose := Collect(zoneParent, ratings, root, depth);
    var ok, zoneVoltage := ResolveZones(ratings, strict, loose, strictTolerance, looseTolerance, root);
    if !ok {
      return InvalidArgument;
    }
    var base := [];
    for i := 0 to |ratings|
      invariant Forest(zoneParent[..], root, depth)
      invariant |base| == i && forall j :: 0 <= j < i ==> base[j] == VoltageAround(lines, ratings, j)
    {
      var zone := FindZone(zoneParent, i, root, depth);
      ZoneIsAround(root, lines, ratings, strictTolerance, looseTolerance, i);
      base := base + [if zone in zoneVoltage then zoneVoltage[zone] else 0.0];
    }
    r := Ok(base);
  }

  /** Nodes joined by lines get the same base voltage. */
  lemma {:induction false} OneVoltagePerZone(lines: seq<Line>, ratings: seq<seq<Rating>>, i: nat, j: nat)
    requires Joined(lines, i, j)
    ensures VoltageAround(lines, ratings, i) == VoltageAround(lines, ratings, j)
  {
    SameAround(lines, ratings, i, j, true, |ratings|);
    SameAround(lines, ratings, i, j, false, |ratings|);
  }

  lemma {:induction false} SameAround(lines: seq<Line>, ratings: seq<seq<Rating>>, i: nat, j: nat, authoritative: bool,
                                      n: nat)
    requires Joined(lines, i, j) && n <= |ratings|
    ensures RatingsAround(lines, ratings, i, authoritative, n) == RatingsAround(lines, ratings, j, authoritative, n)
  {
    if n > 0 {
      SameAround(lines, ratings, i, j, authoritative, n - 1);
      JoinedBack(lines, i, j);
      if Joined(lines, n - 1, i) { JoinedOn(lines, n - 1, i, j); }
      if Joined(lines, n - 1, j) { JoinedOn(lines, n - 1, j, i); }
    }
  }
}
