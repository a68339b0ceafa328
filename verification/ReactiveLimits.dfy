module ReactiveLimits {

  // PFSolverPowerPolar::enforceReactiveLimits and the outer loop of PFSolver::solvePowerflow:
  // generator buses switch between voltage control (PV) and a reactive power pinned at a limit (PQ).

  type Bus = nat

  /** A reactive power limit; one that is not finite does not bind. */
  datatype Bound = Finite(value: real) | Unlimited

  datatype Generator = Generator(qMax: Bound, qMin: Bound, vSet: real)

  /** The limits of a bus; NoLimits without a generator or without any finite limit. */
  datatype Limits = NoLimits | Limits(qMax: Bound, qMin: Bound, vSet: real)

  function AddBounds(a: Bound, b: Bound): Bound {
    if a.Finite? && b.Finite? then Finite(a.value + b.value) else Unlimited
  }

  function SumMax(gens: seq<Generator>): Bound {
    if gens == [] then Finite(0.0) else AddBounds(SumMax(gens[..|gens| - 1]), gens[|gens| - 1].qMax)
  }

  function SumMin(gens: seq<Generator>): Bound {
    if gens == [] then Finite(0.0) else AddBounds(SumMin(gens[..|gens| - 1]), gens[|gens| - 1].qMin)
  }

  function LimitsOf(gens: seq<Generator>): Limits {
    if exists i :: 0 <= i < |gens| && (gens[i].qMax.Finite? || gens[i].qMin.Finite?)
    then Limits(SumMax(gens), SumMin(gens), gens[|gens| - 1].vSet) else NoLimits
  }

  method BusLimits(gens: seq<Generator>) returns (r: Limits)
    ensures r == LimitsOf(gens)
  {
    var qMax, qMin, vSet, anyFinite := Finite(0.0), Finite(0.0), 0.0, false;
    for i := 0 to |gens|
      invariant qMax == SumMax(gens[..i]) && qMin == SumMin(gens[..i]) && (i > 0 ==> vSet == gens[i - 1].vSet)
      invariant anyFinite <==> exists j :: 0 <= j < i && (gens[j].qMax.Finite? || gens[j].qMin.Finite?)
    {
      assert gens[..i + 1][..i] == gens[..i];
      qMax, qMin, vSet := AddBounds(qMax, gens[i].qMax), AddBounds(qMin, gens[i].qMin), gens[i].vSet;
      if gens[i].qMax.Finite? || gens[i].qMin.Finite? { anyFinite := true; }
    }
    assert gens[..|gens|] == gens;
    r := if anyFinite then Limits(qMax, qMin, vSet) else NoLimits;
  }

  /** The sum of the values of finite limits. */
  ghost function TotalOf(bounds: seq<Bound>): real {
    if bounds == [] then 0.0
    else TotalOf(bounds[1..]) + if bounds[0].Finite? then bounds[0].value else 0.0
  }

  ghost function Maxima(gens: seq<Generator>): seq<Bound> { seq(|gens|, i requires 0 <= i < |gens| => gens[i].qMax) }

  ghost function Minima(gens: seq<Generator>): seq<Bound> { seq(|gens|, i requires 0 <= i < |gens| => gens[i].qMin) }

  lemma {:induction false} TotalAppend(bounds: seq<Bound>, b: Bound)
    ensures TotalOf(bounds + [b]) == TotalOf(bounds) + if b.Finite? then b.value else 0.0
  {
    if bounds == [] {
      assert [b][1..] == [];
    } else {
      assert (bounds + [b])[1..] == bounds[1..] + [b];
      TotalAppend(bounds[1..], b);
    }
  }

  lemma {:induction false} SumsAre(gens: seq<Generator>)
    ensures SumMax(gens) ==
              if forall i :: 0 <= i < |gens| ==> gens[i].qMax.Finite? then Finite(TotalOf(Maxima(gens))) else Unlimited
    ensures SumMin(gens) ==
              if forall i :: 0 <= i < |gens| ==> gens[i].qMin.Finite? then Finite(TotalOf(Minima(gens))) else Unlimited
  {
    if gens != [] {
      var n := |gens| - 1;
      SumsAre(gens[..n]);
      assert Maxima(gens) == Maxima(gens[..n]) + [gens[n].qMax] && Minima(gens) == Minima(gens[..n]) + [gens[n].qMin];
      TotalAppend(Maxima(gens[..n]), gens[n].qMax);
      TotalAppend(Minima(gens[..n]), gens[n].qMin);
    }
  }

  /** The limits of a bus: none if none of its generators has a finite one; otherwise the sums of the
      maxima and of the minima, each finite exactly if all its terms are, and the set point of the last
      generator. */
  lemma {:induction false} LimitsAre(gens: seq<Generator>)
    ensures LimitsOf(gens).NoLimits? <==> forall i :: 0 <= i < |gens| ==>
              gens[i].qMax.Unlimited? && gens[i].qMin.Unlimited?
    ensures LimitsOf(gens).Limits? ==>
              && gens != [] && LimitsOf(gens).vSet == gens[|gens| - 1].vSet == VoltageSet(gens)
              && (LimitsOf(gens).qMax.Finite? <==> forall i :: 0 <= i < |gens| ==> gens[i].qMax.Finite?)
              && (LimitsOf(gens).qMin.Finite? <==> forall i :: 0 <= i < |gens| ==> gens[i].qMin.Finite?)
              && (LimitsOf(gens).qMax.Finite? ==> LimitsOf(gens).qMax.value == TotalOf(Maxima(gens)))
              && (LimitsOf(gens).qMin.Finite? ==> LimitsOf(gens).qMin.value == TotalOf(Minima(gens)))
  {
    SumsAre(gens);
  }

  // ---------------------------------------------------------------- the decisions

  predicate AboveMax(limits: Limits, q: real) {
    limits.Limits? && limits.qMax.Finite? && q > limits.qMax.value
  }

  predicate BelowMin(limits: Limits, q: real) {
    limits.Limits? && limits.qMin.Finite? && q < limits.qMin.value
  }

  /** The limit at which a bus is pinned. */
  function PinnedAt(limits: Limits, atMax: bool): real {
    if limits.NoLimits? then 0.0
    else if atMax then (if limits.qMax.Finite? then limits.qMax.value else 0.0)
    else (if limits.qMin.Finite? then limits.qMin.value else 0.0)
  }

  /** The set point that is restored: that of the last generator. */
  function VoltageSet(gens: seq<Generator>): real {
    if gens == [] then 0.0 else gens[|gens| - 1].vSet
  }

  lemma PinnedAtIs(limits: Limits, atMax: bool)
    ensures limits.Limits? && (if atMax then limits.qMax else limits.qMin).Finite? ==>
              PinnedAt(limits, atMax) == (if atMax then limits.qMax else limits.qMin).value
  {
  }

  /** A pinned bus whose constraint no longer binds. */
  predicate Relaxed(limits: Limits, atMax: bool, v: real) {
    limits.Limits? && if atMax then v > limits.vSet else v < limits.vSet
  }

  function VoltageAt(v: map<Bus, real>, b: Bus): real {
    if b in v then v[b] else 0.0
  }

  function CountOf(count: map<Bus, nat>, b: Bus): nat {
    if b in count then count[b] else 0
  }

  /** A bus that has never switched is not frozen, whatever the maximum. */
  predicate Frozen(count: map<Bus, nat>, maxSwitches: nat, b: Bus) {
    b in count && count[b] >= maxSwitches
  }

  /** The largest count a bus can reach: with a maximum of 0 a bus can still switch once. */
  function MaxCount(maxSwitches: nat): nat {
    if maxSwitches == 0 then 1 else maxSwitches
  }

  predicate Distinct(xs: seq<Bus>) {
    forall i, j :: 0 <= i < j < |xs| ==> xs[i] != xs[j]
  }

  /** The list without b, as erase and remove leave it. */
  function Without(xs: seq<Bus>, b: Bus): (r: seq<Bus>)
    ensures forall x :: x in r <==> x in xs && x != b
  {
    if xs == [] then [] else
    assert xs == [xs[0]] + xs[1..];
    (if xs[0] == b then [] else [xs[0]]) + Without(xs[1..], b)
  }

  lemma {:induction false} WithoutDistinct(xs: seq<Bus>, b: Bus)
    requires Distinct(xs)
    ensures Distinct(Without(xs, b))
  {
    if xs != [] {
      WithoutDistinct(xs[1..], b);
      assert xs[0] !in xs[1..];
    }
  }

  // ---------------------------------------------------------------- the sum of the counts

  function SumCounts(buses: seq<Bus>, count: map<Bus, nat>): nat {
    if buses == [] then 0 else CountOf(count, buses[0]) + SumCounts(buses[1..], count)
  }

  lemma {:induction false} SumGrows(buses: seq<Bus>, count: map<Bus, nat>, count': map<Bus, nat>)
    requires forall b :: b in buses ==> CountOf(count, b) <= CountOf(count', b)
    ensures SumCounts(buses, count) <= SumCounts(buses, count')
    ensures (exists b :: b in buses && CountOf(count, b) < CountOf(count', b)) ==>
              SumCounts(buses, count) < SumCounts(buses, count')
  {
    if buses != [] {
      assert buses == [buses[0]] + buses[1..];
      SumGrows(buses[1..], count, count');
    }
  }

  lemma {:induction false} SumBounded(buses: seq<Bus>, count: map<Bus, nat>, bound: nat)
    requires forall b :: b in buses ==> CountOf(count, b) <= bound
    ensures SumCounts(buses, count) <= |buses| * bound
  {
    if buses != [] {
      assert buses == [buses[0]] + buses[1..];
      SumBounded(buses[1..], count, bound);
      assert |buses| * bound == bound + |buses[1..]| * bound;
    }
  }

  lemma {:induction false} SumZero(buses: seq<Bus>)
    ensures SumCounts(buses, map[]) == 0
  {
    if buses != [] { SumZero(buses[1..]); }
  }

  // ---------------------------------------------------------------- the solver

  /** What a Newton run leaves: whether it converged, the voltages and the generators' reactive power. */
  datatype Outcome = Outcome(converged: bool, v: Bus -> real, q: Bus -> real)

  /** A bus that is to be pinned. */
  datatype Pin = Pin(bus: Bus, atMax: bool, limit: real)

  ghost predicate SplitOk(pqOrig: seq<Bus>, pvOrig: seq<Bus>, pq: seq<Bus>, pv: seq<Bus>, pinned: set<Bus>) {
    && Distinct(pqOrig + pvOrig) && Distinct(pq) && Distinct(pv)
    && (forall b :: b in pq <==> b in pqOrig || b in pinned)
    && (forall b :: b in pv <==> b in pvOrig && b !in pinned)
    && forall b :: b in pinned ==> b in pvOrig
  }

  ghost predicate CountsOk(pvOrig: seq<Bus>, pinned: set<Bus>, count: map<Bus, nat>, maxSwitches: nat) {
    && (forall b :: b in count ==> b in pvOrig)
    && (forall b :: b in pinned <==> CountOf(count, b) % 2 == 1)
    && forall b :: CountOf(count, b) <= MaxCount(maxSwitches)
  }

  ghost predicate PinsOk(generators: Bus -> seq<Generator>, loadQ: Bus -> real, converted: map<Bus, bool>,
                         qesp: map<Bus, real>) {
    forall b :: b in converted ==> b in qesp && qesp[b] == PinnedAt(LimitsOf(generators(b)), converted[b]) - loadQ(b)
  }

  lemma SplitIsDistinct(pqOrig: seq<Bus>, pvOrig: seq<Bus>, pq: seq<Bus>, pv: seq<Bus>, pinned: set<Bus>)
    requires SplitOk(pqOrig, pvOrig, pq, pv, pinned)
    ensures Distinct(pq + pv)
  {
    DistinctApart(pqOrig, pvOrig);
    var all := pq + pv;
    assert forall i :: 0 <= i < |pq| ==> all[i] in pq;
    assert forall i :: |pq| <= i < |all| ==> all[i] in pv && all[i] == pv[i - |pq|];
  }

  lemma SplitFacts(pqOrig: seq<Bus>, pvOrig: seq<Bus>, pq: seq<Bus>, pv: seq<Bus>, pinned: set<Bus>)
    requires SplitOk(pqOrig, pvOrig, pq, pv, pinned)
    ensures forall b :: b in pv <==> b in pvOrig && b !in pinned
    ensures forall b :: b in pinned ==> b in pvOrig
  {
  }

  lemma SplitPin(pqOrig: seq<Bus>, pvOrig: seq<Bus>, pq: seq<Bus>, pv: seq<Bus>, pinned: set<Bus>, b: Bus)
    requires SplitOk(pqOrig, pvOrig, pq, pv, pinned) && b in pv
    ensures SplitOk(pqOrig, pvOrig, pq + [b], Without(pv, b), pinned + {b})
  {
    DistinctApart(pqOrig, pvOrig);
    WithoutDistinct(pv, b);
    assert b !in pq;
  }

  lemma SplitRelease(pqOrig: seq<Bus>, pvOrig: seq<Bus>, pq: seq<Bus>, pv: seq<Bus>, pinned: set<Bus>, b: Bus)
    requires SplitOk(pqOrig, pvOrig, pq, pv, pinned) && b in pinned
    ensures SplitOk(pqOrig, pvOrig, Without(pq, b), pv + [b], pinned - {b})
  {
    DistinctApart(pqOrig, pvOrig);
    WithoutDistinct(pq, b);
    assert b !in pv;
  }

  lemma CountSwitch(pvOrig: seq<Bus>, pinned: set<Bus>, count: map<Bus, nat>, maxSwitches: nat, b: Bus)
    requires CountsOk(pvOrig, pinned, count, maxSwitches) && b in pvOrig && !Frozen(count, maxSwitches, b)
    ensures CountsOk(pvOrig, if b in pinned then pinned - {b}
                     else pinned + {b}, count[b := CountOf(count, b) + 1], maxSwitches)
  {
    var n, count' := CountOf(count, b), count[b := CountOf(count, b) + 1];
    assert n + 1 <= MaxCount(maxSwitches) && (n % 2 == 1 <==> (n + 1) % 2 == 0);
    forall c ensures CountOf(count', c) == if c == b then n + 1 else CountOf(count, c) {}
  }

  /** The pin for a bus with reactive power q: the upper limit is looked at first. */
  function PinFor(limits: Limits, b: Bus, q: real): Pin {
    Pin(b, AboveMax(limits, q), PinnedAt(limits, AboveMax(limits, q)))
  }

  function BusesOf(pins: seq<Pin>): set<Bus> {
    set i | 0 <= i < |pins| :: pins[i].bus
  }

  function Elements(xs: seq<Bus>): set<Bus> {
    set x | x in xs
  }

  predicate DistinctPins(pins: seq<Pin>) {
    forall i, j :: 0 <= i < j < |pins| ==> pins[i].bus != pins[j].bus
  }

  /** The counts after every bus of s has switched once more. */
  function Bumped(count: map<Bus, nat>, s: set<Bus>): map<Bus, nat> {
    map b | b in count.Keys + s :: CountOf(count, b) + if b in s then 1 else 0
  }

  lemma BumpOne(count: map<Bus, nat>, s: set<Bus>, b: Bus)
    requires b !in s
    ensures Bumped(count, s)[b := CountOf(Bumped(count, s), b) + 1] == Bumped(count, s + {b})
    ensures b in Bumped(count, s) <==> b in count
    ensures b in count ==> Bumped(count, s)[b] == count[b]
  {
  }

  /** The pinned buses after the pins have been applied and the buses of released let go. */
  ghost predicate ConvertedAfter(before: map<Bus, bool>, after: map<Bus, bool>, pins: seq<Pin>, released: set<Bus>) {
    && (forall b :: b in after <==> (b in before && b !in released) || b in BusesOf(pins))
    && (forall b :: b in before && b in after ==> after[b] == before[b])
    && forall i :: 0 <= i < |pins| ==> pins[i].bus in after && after[pins[i].bus] == pins[i].atMax
  }

  lemma PinOne(before: map<Bus, bool>, after: map<Bus, bool>, pins: seq<Pin>, k: nat)
    requires k < |pins| && DistinctPins(pins) && ConvertedAfter(before, after, pins[..k], {}) && pins[k].bus !in before
    ensures pins[k].bus !in BusesOf(pins[..k]) && BusesOf(pins[..k + 1]) == BusesOf(pins[..k]) + {pins[k].bus}
    ensures ConvertedAfter(before, after[pins[k].bus := pins[k].atMax], pins[..k + 1], {})
  {
    assert pins[..k + 1] == pins[..k] + [pins[k]];
    forall b ensures b in BusesOf(pins[..k + 1]) <==> b in BusesOf(pins[..k]) || b == pins[k].bus {
      if b in BusesOf(pins[..k]) {
        var i :| 0 <= i < k && pins[..k][i].bus == b;
        assert pins[..k + 1][i].bus == b;
      }
      assert pins[..k + 1][k] == pins[k];
    }
  }

  /** The reactive power q is beyond this limit, the maximum or the minimum. */
  ghost predicate Violates(limits: Limits, atMax: bool, limit: real, q: real) {
    && limits.Limits?
    && if atMax then limits.qMax == Finite(limit) && q > limit else limits.qMin == Finite(limit) && q < limit
  }

  /** A pin carries the limit that is violated. */
  lemma PinForLimit(limits: Limits, b: Bus, q: real)
    requires AboveMax(limits, q) || BelowMin(limits, q)
    ensures var p := PinFor(limits, b, q);
            p.bus == b && Violates(limits, p.atMax, p.limit, q)
  {
  }

  class PowerFlowSolver {
    const generators: Bus -> seq<Generator>
    const loadQ: Bus -> real
    const maxSwitches: nat
    const maxOuter: nat
    const pqOrig: seq<Bus>
    const pvOrig: seq<Bus>
    var pqBuses: seq<Bus>
    var pvBuses: seq<Bus>
    var converted: map<Bus, bool>
    var switchCount: map<Bus, nat>
    /** The reactive injections that the PQ equations are solved for. */
    var qesp: map<Bus, real>
    var solV: map<Bus, real>
    /** mPQPVBusIndices and mNumUnknowns, of which the Newton runs make use. */
    var indices: seq<Bus>
    var unknowns: nat

    /** PQ and PV buses split the original non-slack buses; a generator bus is pinned exactly after
        an odd number of switches, then at its limit, and never switches more than MaxCount times. */
    ghost predicate Valid()
      reads this
    {
      && SplitOk(pqOrig, pvOrig, pqBuses, pvBuses, converted.Keys)
      && CountsOk(pvOrig, converted.Keys, switchCount, maxSwitches)
      && PinsOk(generators, loadQ, converted, qesp)
    }

    constructor (generators: Bus -> seq<Generator>, loadQ: Bus -> real, maxSwitches: nat, maxOuter: nat, pq: seq<Bus>,
                 pv: seq<Bus>)
      requires Distinct(pq + pv)
      ensures Valid() && Indexed() && converted == map[] && switchCount == map[] && pqOrig == pq && pvOrig == pv
      ensures this.generators == generators && this.loadQ == loadQ && this.maxSwitches == maxSwitches &&
              this.maxOuter == maxOuter
    {
      this.generators, this.loadQ, this.maxSwitches, this.maxOuter := generators, loadQ, maxSwitches, maxOuter;
      pqOrig, pvOrig, pqBuses, pvBuses := pq, pv, pq, pv;
      converted, switchCount, qesp, solV := map[], map[], map[], map[];
      indices, unknowns := pq + pv, 2 * |pq| + |pv|;
      DistinctParts(pq, pv);
    }

    /** The index vectors belong to the bus lists; no unknown occurs twice. */
    ghost predicate Indexed()
      reads this
    {
      indices == pqBuses + pvBuses && unknowns == 2 * |pqBuses| + |pvBuses| && Distinct(indices)
    }

    /** rebuildBusIndexAggregates, after every change of the lists. */
    method RebuildIndices()
      requires Valid()
      modifies `indices, `unknowns
      ensures Valid() && Indexed()
    {
      indices := [];
      for k := 0 to |pqBuses|
        invariant indices == pqBuses[..k]
      {
        indices := indices + [pqBuses[k]];
      }
      for k := 0 to |pvBuses|
        invariant indices == pqBuses + pvBuses[..k]
      {
        indices := indices + [pvBuses[k]];
      }
      unknowns := 2 * |pqBuses| + |pvBuses|;
      SplitIsDistinct(pqOrig, pvOrig, pqBuses, pvBuses, converted.Keys);
    }

    /** resetToOriginalClassification. */
    method Reset()
      requires Valid()
      modifies `pqBuses, `pvBuses, `converted, `switchCount, `indices, `unknowns
      ensures Valid() && Indexed() && pqBuses == pqOrig && pvBuses == pvOrig && converted == map[] &&
              switchCount == map[]
    {
      DistinctParts(pqOrig, pvOrig);
      pqBuses, pvBuses, converted, switchCount := pqOrig, pvOrig, map[], map[];
      RebuildIndices();
    }

    /** A bus that must switch to PQ: not frozen, in voltage control, beyond a limit. */
    predicate MustPin(q: Bus -> real, b: Bus)
      reads this
    {
      && b in pvBuses && !Frozen(switchCount, maxSwitches, b)
      && (AboveMax(LimitsOf(generators(b)), q(b)) || BelowMin(LimitsOf(generators(b)), q(b)))
    }

    /** A bus that must return to PV. */
    predicate MustRelease(b: Bus)
      reads this
    {
      && b in converted && !Frozen(switchCount, maxSwitches, b)
      && Relaxed(LimitsOf(generators(b)), converted[b], VoltageAt(solV, b))
    }

    /** The two decisions, spelled out: a bus switches if its switches so far are below the maximum, and
        either its generators exceed a finite limit while it controls its voltage, or its voltage is on
        the side of the set point where the limit that holds it does not bind. */
    lemma DecisionsAre(q: Bus -> real, b: Bus)
      ensures var limits, frozen := LimitsOf(generators(b)), b in switchCount && switchCount[b] >= maxSwitches;
              && (MustPin(q, b) <==>
                    && b in pvBuses && !frozen && limits.Limits?
                    && ((limits.qMax.Finite? && q(b) > limits.qMax.value) ||
                        (limits.qMin.Finite? && q(b) < limits.qMin.value)))
              && (MustRelease(b) <==>
                    && b in converted && !frozen && limits.Limits?
                    && (if converted[b] then (if b in solV then solV[b] else 0.0) > limits.vSet
                        else (if b in solV then solV[b] else 0.0) < limits.vSet))
    {
      hide LimitsOf;
    }

    /** The pins that this step has to apply. */
    ghost predicate PinsFor(q: Bus -> real, pins: seq<Pin>)
      reads this
    {
      && DistinctPins(pins)
      && (forall i :: 0 <= i < |pins| ==>
          pins[i] == PinFor(LimitsOf(generators(pins[i].bus)), pins[i].bus, q(pins[i].bus)))
      && forall b :: b in BusesOf(pins) <==> MustPin(q, b)
    }

    /** The buses that this step has to release. */
    ghost predicate ReleasesFor(toPV: seq<Bus>)
      reads this
    {
      Distinct(toPV) && forall b :: b in Elements(toPV) <==> MustRelease(b)
    }

    /** Nothing to switch: every PV bus that is not frozen is within its limits, and every pinned one
        is still held by its limit. */
    ghost predicate Settled(q: Bus -> real)
      reads this
    {
      forall b :: !MustPin(q, b) && !MustRelease(b)
    }

    lemma NothingToDo(q: Bus -> real, pins: seq<Pin>, toPV: seq<Bus>)
      requires PinsFor(q, pins) && ReleasesFor(toPV) && BusesOf(pins) + Elements(toPV) == {}
      ensures Settled(q)
    {
    }

    /** Pins a PV bus at one of its limits. */
    method PinBus(p: Pin)
      requires Valid() && p.bus in pvBuses && !Frozen(switchCount, maxSwitches, p.bus)
      requires p.limit == PinnedAt(LimitsOf(generators(p.bus)), p.atMax)
      modifies `pqBuses, `pvBuses, `converted, `switchCount, `qesp
      ensures Valid()
      ensures converted == old(converted)[p.bus := p.atMax]
      ensures switchCount == old(switchCount)[p.bus := CountOf(old(switchCount), p.bus) + 1]
      ensures pqBuses == old(pqBuses) + [p.bus] && pvBuses == Without(old(pvBuses), p.bus)
      ensures qesp == old(qesp)[p.bus := p.limit - loadQ(p.bus)]
      ensures var limits := LimitsOf(generators(p.bus));
              limits.Limits? && (if p.atMax then limits.qMax else limits.qMin).Finite? ==>
                qesp[p.bus] + loadQ(p.bus) == (if p.atMax then limits.qMax else limits.qMin).value
    {
      PinnedAtIs(LimitsOf(generators(p.bus)), p.atMax);
      hide SplitOk, CountsOk, LimitsOf, PinnedAt;
      SplitFacts(pqOrig, pvOrig, pqBuses, pvBuses, converted.Keys);
      SplitPin(pqOrig, pvOrig, pqBuses, pvBuses, converted.Keys, p.bus);
      CountSwitch(pvOrig, converted.Keys, switchCount, maxSwitches, p.bus);
      pvBuses := Without(pvBuses, p.bus);
      pqBuses := pqBuses + [p.bus];
      qesp := qesp[p.bus := p.limit - loadQ(p.bus)];
      converted := converted[p.bus := p.atMax];
      switchCount := switchCount[p.bus := CountOf(switchCount, p.bus) + 1];
      assert converted.Keys == old(converted.Keys) + {p.bus};
    }

    /** Returns a pinned bus to voltage control. */
    method ReleaseBus(b: Bus)
      requires Valid() && b in converted && !Frozen(switchCount, maxSwitches, b)
      modifies `pqBuses, `pvBuses, `converted, `switchCount, `solV
      ensures Valid()
      ensures converted == old(converted) - {b}
      ensures switchCount == old(switchCount)[b := CountOf(old(switchCount), b) + 1]
      ensures pqBuses == Without(old(pqBuses), b) && pvBuses == old(pvBuses) + [b]
      ensures solV == old(solV)[b := VoltageSet(generators(b))]
    {
      hide SplitOk, CountsOk, LimitsOf, PinnedAt;
      SplitFacts(pqOrig, pvOrig, pqBuses, pvBuses, converted.Keys);
      SplitRelease(pqOrig, pvOrig, pqBuses, pvBuses, converted.Keys, b);
      CountSwitch(pvOrig, converted.Keys, switchCount, maxSwitches, b);
      pqBuses := Without(pqBuses, b);
      pvBuses := pvBuses + [b];
      solV := solV[b := VoltageSet(generators(b))];
      converted := converted - {b};
      switchCount := switchCount[b := CountOf(switchCount, b) + 1];
      assert converted.Keys == old(converted.Keys) - {b};
    }

    /** The generator buses that hit a limit. */
    method FindPins(q: Bus -> real) returns (pins: seq<Pin>)
      requires Valid()
      ensures PinsFor(q, pins) && BusesOf(pins) !! converted.Keys
      ensures forall i :: 0 <= i < |pins| ==>
                Violates(LimitsOf(generators(pins[i].bus)), pins[i].atMax, pins[i].limit, q(pins[i].bus))
    {
      hide CountsOk, PinsOk, LimitsOf, PinnedAt;
      pins := [];
      for k := 0 to |pvBuses|
        invariant DistinctPins(pins) && forall i :: 0 <= i < |pins| ==>
                    pins[i] == PinFor(LimitsOf(generators(pins[i].bus)), pins[i].bus, q(pins[i].bus))
        invariant forall b :: b in BusesOf(pins) <==> b in pvBuses[..k] && MustPin(q, b)
      {
        var b := pvBuses[k];
        assert pvBuses[..k + 1] == pvBuses[..k] + [b] && b !in pvBuses[..k];
        var limits := BusLimits(generators(b));
        if !Frozen(switchCount, maxSwitches, b) && (AboveMax(limits, q(b)) || BelowMin(limits, q(b))) {
          AddPin(pins, PinFor(limits, b, q(b)));
          pins := pins + [PinFor(limits, b, q(b))];
        }
      }
      assert pvBuses[..|pvBuses|] == pvBuses;
      forall i | 0 <= i < |pins|
        ensures Violates(LimitsOf(generators(pins[i].bus)), pins[i].atMax, pins[i].limit, q(pins[i].bus))
      {
        assert pins[i].bus in BusesOf(pins) && MustPin(q, pins[i].bus);
        PinForLimit(LimitsOf(generators(pins[i].bus)), pins[i].bus, q(pins[i].bus));
      }
    }

    /** The pinned buses whose constraint no longer binds, in whatever order the map lists them. */
    method FindReleases() returns (toPV: seq<Bus>)
      ensures ReleasesFor(toPV) && Distinct(toPV)
      ensures forall b :: b in Elements(toPV) ==> b in converted && !Frozen(switchCount, maxSwitches, b)
    {
      hide LimitsOf;
      toPV := [];
      var rest := converted.Keys;
      while rest != {}
        invariant rest <= converted.Keys
        invariant Distinct(toPV) && forall b :: b in toPV <==> MustRelease(b) && b !in rest
      {
        var b :| b in rest;
        rest := rest - {b};
        var limits := BusLimits(generators(b));
        if !Frozen(switchCount, maxSwitches, b) && Relaxed(limits, converted[b], VoltageAt(solV, b)) {
          toPV := toPV + [b];
        }
      }
    }

    lemma PinsReady(q: Bus -> real, pins: seq<Pin>)
      requires Valid() && PinsFor(q, pins)
      ensures forall i :: 0 <= i < |pins| ==>
                pins[i].bus in pvOrig && pins[i].bus !in converted && !Frozen(switchCount, maxSwitches, pins[i].bus)
    {
      hide LimitsOf, CountsOk, PinsOk, AboveMax, BelowMin, SplitOk;
      SplitFacts(pqOrig, pvOrig, pqBuses, pvBuses, converted.Keys);
      forall i | 0 <= i < |pins|
        ensures pins[i].bus in pvOrig && pins[i].bus !in converted && !Frozen(switchCount, maxSwitches, pins[i].bus)
      {
        assert pins[i].bus in BusesOf(pins);
        assert MustPin(q, pins[i].bus);
      }
    }

    method ApplyPin(ghost before: map<Bus, bool>, ghost count: map<Bus, nat>, pins: seq<Pin>, k: nat)
      requires Valid() && k < |pins| && DistinctPins(pins)
      requires ConvertedAfter(before, converted, pins[..k], {}) && switchCount == Bumped(count, BusesOf(pins[..k]))
      requires pins[k].bus in pvOrig && pins[k].bus !in before && !Frozen(count, maxSwitches, pins[k].bus)
      requires pins[k].limit == PinnedAt(LimitsOf(generators(pins[k].bus)), pins[k].atMax)
      modifies `pqBuses, `pvBuses, `converted, `switchCount, `qesp
      ensures Valid()
      ensures ConvertedAfter(before, converted, pins[..k + 1], {}) &&
              switchCount == Bumped(count, BusesOf(pins[..k + 1]))
    {
      hide LimitsOf, PinnedAt, Bumped, Frozen, BusesOf, DistinctPins, Valid;
      PinOne(before, converted, pins, k);
      BumpOne(count, BusesOf(pins[..k]), pins[k].bus);
      BumpFacts(count, BusesOf(pins[..k]), maxSwitches);
      PvFacts(pins[k].bus);
      PinBus(pins[k]);
    }

    method ApplyPins(q: Bus -> real, pins: seq<Pin>)
      requires Valid() && PinsFor(q, pins)
      modifies `pqBuses, `pvBuses, `converted, `switchCount, `qesp
      ensures Valid()
      ensures ConvertedAfter(old(converted), converted, pins, {}) &&
              switchCount == Bumped(old(switchCount), BusesOf(pins))
      ensures pins == [] ==> unchanged(this)
    {
      hide LimitsOf, PinnedAt, CountsOk, PinsOk, Bumped, AboveMax, BelowMin, SplitOk;
      BumpNone(switchCount);
      assert pins[..0] == [] && BusesOf([]) == {};
      PinsReady(q, pins);
      assert ConvertedAfter(converted, converted, pins[..0], {});
      assert DistinctPins(pins);
      hide Frozen, BusesOf, ConvertedAfter, DistinctPins, Valid, MustPin;
      for k := 0 to |pins|
        invariant Valid()
        invariant k == 0 ==> unchanged(this)
        invariant ConvertedAfter(old(converted), converted, pins[..k], {}) &&
                  switchCount == Bumped(old(switchCount), BusesOf(pins[..k]))
      {
        ApplyPin(old(converted), old(switchCount), pins, k);
      }
      assert pins[..|pins|] == pins;
    }

    lemma PvFacts(b: Bus)
      requires Valid()
      ensures b in pvBuses <==> b in pvOrig && b !in converted
    {
    }

    /** The released buses have the set point of their last generator, the others the voltage they had. */
    ghost predicate Restored(before: map<Bus, real>, after: map<Bus, real>, toPV: seq<Bus>) {
      && (forall b :: b in toPV ==>
            b in after && after[b] == if generators(b) == [] then 0.0 else generators(b)[|generators(b)| - 1].vSet)
      && forall b :: b !in toPV ==> (b in after <==> b in before) && (b in after ==> after[b] == before[b])
    }

    lemma RestoreNone(v: map<Bus, real>)
      ensures Restored(v, v, [])
    {
    }

    lemma RestoreOne(before: map<Bus, real>, after: map<Bus, real>, toPV: seq<Bus>, k: nat)
      requires k < |toPV| && Restored(before, after, toPV[..k])
      ensures Restored(before, after[toPV[k] := VoltageSet(generators(toPV[k]))], toPV[..k + 1])
    {
      assert toPV[..k + 1] == toPV[..k] + [toPV[k]];
    }

    method ApplyReleases(toPV: seq<Bus>)
      requires Valid() && Distinct(toPV)
      requires forall b :: b in Elements(toPV) ==> b in converted && !Frozen(switchCount, maxSwitches, b)
      modifies `pqBuses, `pvBuses, `converted, `switchCount, `solV
      ensures Valid()
      ensures converted == old(converted) - Elements(toPV) && switchCount == Bumped(old(switchCount), Elements(toPV))
      ensures toPV == [] ==> unchanged(this)
      ensures Restored(old(solV), solV, toPV)
    {
      RestoreNone(solV);
      hide LimitsOf, CountsOk, PinsOk, SplitOk, Bumped, Restored, VoltageSet, Valid, Frozen;
      BumpNone(switchCount);
      assert toPV[..0] == [] && Elements([]) == {};
      for k := 0 to |toPV|
        invariant Valid()
        invariant k == 0 ==> unchanged(this)
        invariant converted == old(converted) - Elements(toPV[..k]) &&
                  switchCount == Bumped(old(switchCount), Elements(toPV[..k]))
        invariant Restored(old(solV), solV, toPV[..k])
      {
        assert toPV[..k + 1] == toPV[..k] + [toPV[k]] && toPV[k] !in toPV[..k] && toPV[k] in toPV;
        assert Elements(toPV[..k + 1]) == Elements(toPV[..k]) + {toPV[k]};
        BumpOne(old(switchCount), Elements(toPV[..k]), toPV[k]);
        BumpFacts(old(switchCount), Elements(toPV[..k]), maxSwitches);
        RestoreOne(old(solV), solV, toPV, k);
        ReleaseBus(toPV[k]);
      }
      assert toPV[..|toPV|] == toPV;
    }

    /** enforceReactiveLimits: exactly the buses that must switch do, each once. */
    method EnforceReactiveLimits(q: Bus -> real) returns (switched: bool, ghost pins: seq<Pin>, ghost toPV: seq<Bus>)
      requires Valid()
      modifies `pqBuses, `pvBuses, `converted, `switchCount, `qesp, `solV
      ensures Valid() && old(PinsFor(q, pins)) && old(ReleasesFor(toPV))
      ensures switched <==> BusesOf(pins) + Elements(toPV) != {}
      ensures !switched ==> Settled(q) && unchanged(this)
      ensures forall b :: CountOf(switchCount, b) == CountOf(old(switchCount), b) +
                if b in BusesOf(pins) || b in Elements(toPV) then 1 else 0
      ensures converted.Keys == old(converted.Keys) - Elements(toPV) + BusesOf(pins)
      ensures ConvertedAfter(old(converted), converted, pins, Elements(toPV))
      ensures forall i :: 0 <= i < |pins| ==>
                PinnedBeyond(q, pins[i].bus)
      ensures Restored(old(solV), solV, toPV)
    {
      var toPin := FindPins(q);
      var toRelease := FindReleases();
      hide Valid, PinsFor, ReleasesFor, LimitsOf, Bumped, Frozen, DistinctPins, BusesOf, Elements, Violates,
           PinnedBeyond, Restored;
      hide Settled;
      if BusesOf(toPin) + Elements(toRelease) == {} { NothingToDo(q, toPin, toRelease); }
      BumpFacts(switchCount, BusesOf(toPin), maxSwitches);
      ghost var before, counts := converted, switchCount;
      ApplyPins(q, toPin);
      ghost var middle := converted;
      ApplyReleases(toRelease);
      BumpTwice(counts, BusesOf(toPin), Elements(toRelease));
      EnforceEnds(before, middle, toPin, Elements(toRelease));
      switched := |toPin| > 0 || |toRelease| > 0;
      Emptiness(toPin, toRelease);
      pins, toPV := toPin, toRelease;
      forall i | 0 <= i < |pins| ensures PinnedBeyond(q, pins[i].bus) { HeldAtLimit(q, pins[i]); }
    }

    /** The bus is pinned, and injects what makes its generators produce exactly the limit that their
        reactive power q exceeded. */
    ghost predicate PinnedBeyond(q: Bus -> real, b: Bus)
      reads this
    {
      && b in converted && b in qesp
      && Violates(LimitsOf(generators(b)), converted[b], qesp[b] + loadQ(b), q(b))
    }

    lemma HeldAtLimit(q: Bus -> real, p: Pin)
      requires Valid() && p.bus in converted && converted[p.bus] == p.atMax
      requires Violates(LimitsOf(generators(p.bus)), p.atMax, p.limit, q(p.bus))
      ensures PinnedBeyond(q, p.bus)
    {
      hide LimitsOf;
    }

    lemma RoundGrows(count: map<Bus, nat>, pins: seq<Pin>, toPV: seq<Bus>)
      requires Valid() && BusesOf(pins) + Elements(toPV) != {}
      requires forall b :: CountOf(switchCount, b) == CountOf(count, b) +
                 if b in BusesOf(pins) || b in Elements(toPV) then 1 else 0
      ensures SumCounts(pvOrig, count) < SumCounts(pvOrig, switchCount)
    {
      var b :| b in BusesOf(pins) + Elements(toPV);
      assert CountOf(count, b) < CountOf(switchCount, b) && b in switchCount;
      SumGrows(pvOrig, count, switchCount);
    }

    /** At most so many rounds can switch a bus. */
    ghost function RoundLimit(): nat {
      |pvOrig| * MaxCount(maxSwitches)
    }

    lemma RoundsBounded()
      requires Valid()
      ensures SumCounts(pvOrig, switchCount) <= RoundLimit()
    {
      SumBounded(pvOrig, switchCount, MaxCount(maxSwitches));
    }

    /** With a positive maximum, such as the 2 that the solver is built with, no bus switches more
        often than the maximum says, in any state. */
    lemma CountsWithin()
      requires Valid() && maxSwitches >= 1
      ensures forall b :: CountOf(switchCount, b) <= maxSwitches
      ensures SumCounts(pvOrig, switchCount) <= |pvOrig| * maxSwitches
    {
      SumBounded(pvOrig, switchCount, maxSwitches);
    }

    /** One pass of the outer loop up to the Newton run: switches, and rebuilds the index vectors if
        a bus has switched. */
    method Round(q: Bus -> real) returns (switched: bool)
      requires Valid() && Indexed()
      modifies `pqBuses, `pvBuses, `converted, `switchCount, `qesp, `solV, `indices, `unknowns
      ensures Valid() && (switched ==> Indexed()) && (!switched ==> Settled(q) && unchanged(this))
      ensures switched ==> SumCounts(pvOrig, switchCount) > SumCounts(pvOrig, old(switchCount))
    {
      hide SplitOk, CountsOk, PinsOk, Settled, PinsFor, ReleasesFor, ConvertedAfter, Distinct, BusesOf, Elements;
      ghost var count := switchCount;
      var s, pins, toPV := EnforceReactiveLimits(q);
      switched := s;
      if switched {
        RoundGrows(count, pins, toPV);
        RebuildIndices();
      }
    }

    /** Takes over the voltages of a Newton run. */
    method SetVoltages(v: Bus -> real)
      requires Valid() && Indexed()
      modifies `solV
      ensures Valid() && Indexed() && solV == Voltages(v, pqOrig + pvOrig)
    {
      solV := Voltages(v, pqOrig + pvOrig);
    }

    /** solvePowerflow. outcomes gives the result of each Newton run, whatever it is. With a large
        enough round limit the result is false only because a Newton run failed. */
    method SolvePowerflow(enforce: bool, outcomes: nat -> Outcome) returns (converged: bool, ghost runs: nat)
      requires Valid() && Indexed()
      modifies `pqBuses, `pvBuses, `converted, `switchCount, `qesp, `solV, `indices, `unknowns
      ensures Valid() && Indexed() && (converged ==> outcomes(runs).converged)
      ensures enforce && converged ==> Settled(outcomes(runs).q)
      ensures solV == Voltages(outcomes(runs).v, pqOrig + pvOrig)
      ensures forall b :: b in pqOrig + pvOrig ==> b in solV && solV[b] == outcomes(runs).v(b)
      ensures !enforce ==>
                runs == 0 && converged == outcomes(0).converged && converted == old(converted) &&
                pvBuses == old(pvBuses)
      ensures SumCounts(pvOrig, old(switchCount)) + runs <= RoundLimit()
      ensures maxOuter > RoundLimit() ==> converged == outcomes(runs).converged
    {
      hide *;
      runs := 0;
      converged := outcomes(0).converged;
      SetVoltages(outcomes(0).v);
      RoundsBounded();
      if !enforce {
        VoltagesAre(outcomes(0).v, pqOrig + pvOrig);
        return;
      }
      var settled, outer: nat := false, 0;
      while converged && outer < maxOuter && !settled
        invariant Valid() && Indexed()
        invariant outer == runs && converged == outcomes(runs).converged
        invariant settled ==> converged && Settled(outcomes(runs).q)
        invariant solV == Voltages(outcomes(runs).v, pqOrig + pvOrig)
        invariant SumCounts(pvOrig, old(switchCount)) + runs <= SumCounts(pvOrig, switchCount)
        invariant converged && !settled ==> outer <= maxOuter
        decreases maxOuter - outer, !settled
      {
        var switched := Round(outcomes(outer).q);
        if !switched {
          settled := true;
        } else {
          outer, runs := outer + 1, runs + 1;
          converged := outcomes(outer).converged;
          SetVoltages(outcomes(outer).v);
        }
      }
      RoundsBounded();
      VoltagesAre(outcomes(runs).v, pqOrig + pvOrig);
      if converged && !settled {
        converged := false;
      }
    }
  }

  /** Why CountsWithin needs a positive maximum. The solver has no setter for the maximum, so this
      cannot occur in it. */
  method ZeroMaximum(maxOuter: nat) returns (s: PowerFlowSolver)
    ensures fresh(s) && s.Valid() && s.maxSwitches == 0 && s.pvOrig == [0] && CountOf(s.switchCount, 0) == 1
  {
    var gen := Generator(Finite(0.0), Unlimited, 1.0);
    s := new PowerFlowSolver(b => [gen], b => 0.0, 0, maxOuter, [], [0]);
    assert LimitsOf([gen]) == Limits(Finite(0.0), Unlimited, 1.0) by { OneGenerator(gen); }
    assert s.MustPin(b => 1.0, 0) by { s.PvFacts(0); }
    var switched, pins, toPV := s.EnforceReactiveLimits(b => 1.0);
  }

  lemma OneGenerator(gen: Generator)
    requires gen.qMax.Finite? && gen.qMin.Unlimited?
    ensures LimitsOf([gen]) == Limits(gen.qMax, Unlimited, gen.vSet)
  {
    assert [gen][..0] == [] && SumMax([gen]) == AddBounds(SumMax([]), gen.qMax) && SumMin([gen]) == Unlimited;
    assert [gen][0].qMax.Finite?;
  }

  function Voltages(v: Bus -> real, buses: seq<Bus>): map<Bus, real> {
    map b | b in buses :: v(b)
  }

  lemma VoltagesAre(v: Bus -> real, buses: seq<Bus>)
    ensures forall b :: b in buses ==> b in Voltages(v, buses) && Voltages(v, buses)[b] == v(b)
  {
  }

  lemma Emptiness(pins: seq<Pin>, toPV: seq<Bus>)
    ensures |pins| > 0 || |toPV| > 0 <==> BusesOf(pins) + Elements(toPV) != {}
  {
    if |pins| > 0 { assert pins[0].bus in BusesOf(pins); }
    if |toPV| > 0 { assert toPV[0] in Elements(toPV); }
  }

  lemma EnforceEnds(before: map<Bus, bool>, middle: map<Bus, bool>, pins: seq<Pin>, released: set<Bus>)
    requires ConvertedAfter(before, middle, pins, {}) && released <= before.Keys && BusesOf(pins) !! before.Keys
    ensures ConvertedAfter(before, middle - released, pins, released)
    ensures (middle - released).Keys == before.Keys - released + BusesOf(pins)
  {
    assert forall i :: 0 <= i < |pins| ==> pins[i].bus in BusesOf(pins);
  }

  lemma BumpNone(count: map<Bus, nat>)
    ensures Bumped(count, {}) == count
  {
  }

  lemma BumpFacts(count: map<Bus, nat>, s: set<Bus>, maxSwitches: nat)
    ensures forall b :: b !in s ==> (Frozen(Bumped(count, s), maxSwitches, b) <==> Frozen(count, maxSwitches, b))
  {
  }

  lemma BumpTwice(count: map<Bus, nat>, s: set<Bus>, t: set<Bus>)
    requires s !! t
    ensures forall b :: CountOf(Bumped(Bumped(count, s), t), b) == CountOf(count, b) + if b in s || b in t then 1 else 0
  {
  }

  lemma AddPin(pins: seq<Pin>, p: Pin)
    requires DistinctPins(pins) && p.bus !in BusesOf(pins)
    ensures DistinctPins(pins + [p]) && BusesOf(pins + [p]) == BusesOf(pins) + {p.bus}
  {
    var all := pins + [p];
    assert forall i :: 0 <= i < |pins| ==> pins[i].bus in BusesOf(pins);
    forall b ensures b in BusesOf(all) <==> b in BusesOf(pins) || b == p.bus {
      if b in BusesOf(pins) {
        var i :| 0 <= i < |pins| && pins[i].bus == b;
        assert all[i].bus == b;
      }
      assert all[|pins|] == p;
    }
  }

  lemma DistinctParts(xs: seq<Bus>, ys: seq<Bus>)
    requires Distinct(xs + ys)
    ensures Distinct(xs) && Distinct(ys)
  {
    var all := xs + ys;
    assert forall i :: 0 <= i < |xs| ==> all[i] == xs[i];
    assert forall i :: 0 <= i < |ys| ==> all[|xs| + i] == ys[i];
  }

  lemma DistinctApart(xs: seq<Bus>, ys: seq<Bus>)
    requires Distinct(xs + ys)
    ensures forall b :: b in xs ==> b !in ys
  {
    var all := xs + ys;
    forall b | b in xs ensures b !in ys {
      var i :| 0 <= i < |xs| && xs[i] == b;
      assert all[i] == b;
      assert forall j :: 0 <= j < |ys| ==> all[|xs| + j] == ys[j];
    }
  }
}
