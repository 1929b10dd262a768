/** Victim choice: which plane leaves next, and the greedy eviction plan. */
module CachePolicy {
  import opened Basics
  import opened CacheTypes

  /** What can be totalled over the slots. */
  datatype Measure =
    | BaseCharge | ResidualCharge | TotalCharge | Entries | Planes
    | FreeableResidual             // bytes that demoting this slot would free
    | LayerBase(layer: nat) | LayerEntries(layer: nat)
    | LayerResidual(layer: nat) | LayerResidualEntries(layer: nat)
    | Copies(handle: Handle)       // how many planes carry this handle

  function Weight(m: Measure, e: Entry): nat {
    if e.Vacant? then 0
    else
      var extra := if e.residual.Some? then e.residual.value.charge else 0;
      match m
      case BaseCharge => e.base.charge
      case ResidualCharge => extra
      case TotalCharge => e.base.charge + extra
      case Entries => 1
      case Planes => if e.residual.Some? then 2 else 1
      case FreeableResidual => if e.pins == 0 then extra else 0
      case LayerBase(layer) => if e.key.layer == layer then e.base.charge else 0
      case LayerEntries(layer) => if e.key.layer == layer then 1 else 0
      case LayerResidual(layer) => if e.key.layer == layer then extra else 0
      case LayerResidualEntries(layer) => if e.key.layer == layer && e.residual.Some? then 1 else 0
      case Copies(h) => (if e.base.payload == h then 1 else 0)
                        + (if e.residual.Some? && e.residual.value.payload == h then 1 else 0)
  }

  /** The total over the first `n` slots, and over all of them. */
  function SumTo(m: Measure, slots: seq<Entry>, n: nat): nat
    requires n <= |slots|
  {
    if n == 0 then 0 else SumTo(m, slots, n - 1) + Weight(m, slots[n - 1])
  }

  function Sum(m: Measure, slots: seq<Entry>): nat { SumTo(m, slots, |slots|) }

  lemma {:induction false} SumUpdateTo(m: Measure, slots: seq<Entry>, i: nat, e: Entry, n: nat)
    requires i < |slots| && n <= |slots|
    ensures SumTo(m, slots[i := e], n) + (if i < n then Weight(m, slots[i]) else 0)
            == SumTo(m, slots, n) + (if i < n then Weight(m, e) else 0)
  {
    if n > 0 { SumUpdateTo(m, slots, i, e, n - 1); }
  }

  lemma {:induction false} SumUpdate(m: Measure, slots: seq<Entry>, i: nat, e: Entry)
    requires i < |slots|
    ensures Sum(m, slots[i := e]) + Weight(m, slots[i]) == Sum(m, slots) + Weight(m, e)
  {
    SumUpdateTo(m, slots, i, e, |slots|);
  }

  lemma {:induction false} SumMemberTo(m: Measure, slots: seq<Entry>, i: nat, n: nat)
    requires i < n <= |slots|
    ensures Weight(m, slots[i]) <= SumTo(m, slots, n)
  {
    if i < n - 1 { SumMemberTo(m, slots, i, n - 1); }
  }

  lemma {:induction false} SumMember(m: Measure, slots: seq<Entry>, i: nat)
    requires i < |slots|
    ensures Weight(m, slots[i]) <= Sum(m, slots)
  {
    SumMemberTo(m, slots, i, |slots|);
  }

  /** Slots that weigh the same up to `n` have the same total up to there. */
  lemma {:induction false} SumSameTo(m: Measure, a: seq<Entry>, b: seq<Entry>, n: nat)
    requires n <= |a| && n <= |b| && forall i :: 0 <= i < n ==> Weight(m, a[i]) == Weight(m, b[i])
    ensures SumTo(m, a, n) == SumTo(m, b, n)
  {
    if n > 0 { SumSameTo(m, a, b, n - 1); }
  }

  lemma {:induction false} SumSame(m: Measure, a: seq<Entry>, b: seq<Entry>)
    requires |a| == |b|
    requires forall i :: 0 <= i < |a| ==> Weight(m, a[i]) == Weight(m, b[i])
    ensures Sum(m, a) == Sum(m, b)
  {
    SumSameTo(m, a, b, |a|);
  }

  lemma {:induction false} SumFront(m: Measure, slots: seq<Entry>, i: nat)
    requires i <= |slots|
    ensures Sum(m, slots[..i]) == SumTo(m, slots, i)
  {
    SumSameTo(m, slots[..i], slots, i);
  }

  lemma {:induction false} SumPrefix(m: Measure, slots: seq<Entry>, i: nat)
    requires i < |slots|
    ensures Sum(m, slots[..i + 1]) == Sum(m, slots[..i]) + Weight(m, slots[i])
  {
    SumFront(m, slots, i);
    SumFront(m, slots, i + 1);
  }

  lemma {:induction false} SumPositiveTo(m: Measure, slots: seq<Entry>, n: nat) returns (i: nat)
    requires n <= |slots| && SumTo(m, slots, n) > 0
    ensures i < n && Weight(m, slots[i]) > 0
  {
    if Weight(m, slots[n - 1]) > 0 {
      i := n - 1;
    } else {
      i := SumPositiveTo(m, slots, n - 1);
    }
  }

  /** A positive total has a positive contributor. */
  lemma {:induction false} SumPositive(m: Measure, slots: seq<Entry>) returns (i: nat)
    requires Sum(m, slots) > 0
    ensures i < |slots| && Weight(m, slots[i]) > 0
  {
    i := SumPositiveTo(m, slots, |slots|);
  }

  lemma {:induction false} SumBoundedTo(m: Measure, k: Measure, slots: seq<Entry>, n: nat)
    requires n <= |slots| && forall i :: 0 <= i < n ==> Weight(m, slots[i]) <= Weight(k, slots[i])
    ensures SumTo(m, slots, n) <= SumTo(k, slots, n)
  {
    if n > 0 { SumBoundedTo(m, k, slots, n - 1); }
  }

  lemma {:induction false} SumBounded(m: Measure, k: Measure, slots: seq<Entry>)
    requires forall i :: 0 <= i < |slots| ==> Weight(m, slots[i]) <= Weight(k, slots[i])
    ensures Sum(m, slots) <= Sum(k, slots)
  {
    SumBoundedTo(m, k, slots, |slots|);
  }

  lemma {:induction false} SumSplitTo(slots: seq<Entry>, n: nat)
    requires n <= |slots|
    ensures SumTo(BaseCharge, slots, n) + SumTo(ResidualCharge, slots, n) == SumTo(TotalCharge, slots, n)
  {
    if n > 0 { SumSplitTo(slots, n - 1); }
  }

  lemma {:induction false} SumSplit(slots: seq<Entry>)
    ensures Sum(BaseCharge, slots) + Sum(ResidualCharge, slots) == Sum(TotalCharge, slots)
  {
    SumSplitTo(slots, |slots|);
  }

  lemma {:induction false} CountAtMostTo(slots: seq<Entry>, n: nat)
    requires n <= |slots|
    ensures SumTo(Entries, slots, n) <= n
  {
    if n > 0 { CountAtMostTo(slots, n - 1); }
  }

  lemma {:induction false} CountAtMost(slots: seq<Entry>)
    ensures Sum(Entries, slots) <= |slots|
  {
    CountAtMostTo(slots, |slots|);
  }

  predicate ResidualEligible(e: Entry) {
    e.Resident? && e.residual.Some? && e.pins == 0
  }

  /** base_floor_allows, with the layer totals read off the slots themselves. */
  predicate BaseEligible(floors: seq<Floor>, slots: seq<Entry>, i: nat)
    requires i < |slots|
  {
    var e := slots[i];
    && e.Resident? && !e.planned && e.pins == 0
    && e.key.layer < |floors|
    && Sum(LayerEntries(e.key.layer), slots) >= 1 + floors[e.key.layer].minEntries
    && Sum(LayerBase(e.key.layer), slots) >= e.base.charge + floors[e.key.layer].minBytes
  }

  /** candidate_precedes. */
  predicate Precedes(policy: Policy, a: Entry, i: nat, b: Entry, j: nat)
    requires a.Resident? && b.Resident?
  {
    if policy == TwoQueue then
      if a.hot != b.hot then !a.hot
      else if !a.hot then a.admissionOrder < b.admissionOrder || (a.admissionOrder == b.admissionOrder && i < j)
      else a.lastAccess < b.lastAccess || (a.lastAccess == b.lastAccess && i < j)
    else a.lastAccess < b.lastAccess || (a.lastAccess == b.lastAccess && i < j)
  }

  ghost function ResidualCandidates(slots: seq<Entry>): (c: set<nat>)
    ensures forall i: nat :: i in c <==> i < |slots| && ResidualEligible(slots[i])
  {
    set i: nat | i < |slots| && ResidualEligible(slots[i])
  }

  ghost function BaseCandidates(floors: seq<Floor>, slots: seq<Entry>, protect: Option<nat>): (c: set<nat>)
    ensures forall i: nat :: i in c <==> i < |slots| && BaseEligible(floors, slots, i) && Some(i) != protect
  {
    set i: nat | i < |slots| && BaseEligible(floors, slots, i) && Some(i) != protect
  }

  ghost predicate AllResident(slots: seq<Entry>, c: set<nat>) {
    forall i :: i in c ==> i < |slots| && slots[i].Resident?
  }

  /** v is the one candidate that precedes every other. */
  ghost predicate IsLeast(policy: Policy, slots: seq<Entry>, c: set<nat>, v: nat)
    requires AllResident(slots, c)
  {
    v in c && forall j :: j in c && j != v ==> Precedes(policy, slots[v], v, slots[j], j)
  }

  lemma {:induction false} LeastExists(policy: Policy, slots: seq<Entry>, c: set<nat>) returns (v: nat)
    requires AllResident(slots, c) && c != {}
    ensures IsLeast(policy, slots, c, v)
    decreases c
  {
    var x :| x in c;
    if c == {x} {
      v := x;
    } else {
      var rest := c - {x};
      assert c == rest + {x};
      var w := LeastExists(policy, slots, rest);
      v := if Precedes(policy, slots[x], x, slots[w], w) then x else w;
      assert forall j :: j in c && j != x ==> j in rest;
    }
  }

  lemma LeastUnique(policy: Policy, slots: seq<Entry>, c: set<nat>, v: nat, w: nat)
    requires AllResident(slots, c)
    requires IsLeast(policy, slots, c, v) && IsLeast(policy, slots, c, w)
    ensures v == w
  {
  }

  /** The policy's next victim among c, if there is any candidate. */
  ghost function Least(policy: Policy, slots: seq<Entry>, c: set<nat>): (r: Option<nat>)
    requires AllResident(slots, c)
    ensures r.None? <==> c == {}
    ensures r.Some? ==> IsLeast(policy, slots, c, r.value)
  {
    if c == {} then None
    else
      assert exists v :: IsLeast(policy, slots, c, v) by {
        var v := LeastExists(policy, slots, c);
      }
      var v :| IsLeast(policy, slots, c, v);
      Some(v)
  }

  ghost function ResidualVictim(cfg: Config, slots: seq<Entry>): (r: Option<nat>)
    ensures r.Some? ==> r.value < |slots| && ResidualEligible(slots[r.value])
  {
    Least(cfg.policy, slots, ResidualCandidates(slots))
  }

  ghost function BaseVictim(cfg: Config, slots: seq<Entry>, protect: Option<nat>): (r: Option<nat>)
    ensures r.Some? ==> r.value < |slots| && BaseEligible(cfg.floors, slots, r.value) && r != protect
  {
    Least(cfg.policy, slots, BaseCandidates(cfg.floors, slots, protect))
  }

  // ---- What may leave ---------------------------------------------------------------

  predicate MayDemote(slots: seq<Entry>, i: nat)
    requires i < |slots|
  {
    slots[i].Resident? && slots[i].residual.Some? && slots[i].pins == 0
  }

  /** Without slot `i` its layer would still have what both floors ask for. */
  predicate FloorsHold(cfg: Config, slots: seq<Entry>, i: nat)
    requires i < |slots| && slots[i].Resident?
  {
    var l := slots[i].key.layer;
    && l < |cfg.floors|
    && Sum(LayerEntries(l), slots[i := Vacant]) >= cfg.floors[l].minEntries
    && Sum(LayerBase(l), slots[i := Vacant]) >= cfg.floors[l].minBytes
  }

  predicate MayLeave(cfg: Config, slots: seq<Entry>, protect: Option<nat>, i: nat)
    requires i < |slots|
  {
    && slots[i].Resident? && slots[i].pins == 0 && !slots[i].planned && Some(i) != protect
    && FloorsHold(cfg, slots, i)
  }

  ghost predicate FirstToDemote(cfg: Config, slots: seq<Entry>, i: nat)
    requires i < |slots|
  {
    && MayDemote(slots, i)
    && forall j: nat :: j < |slots| && j != i && MayDemote(slots, j) ==> Precedes(cfg.policy, slots[i], i, slots[j], j)
  }

  ghost predicate FirstToLeave(cfg: Config, slots: seq<Entry>, protect: Option<nat>, i: nat)
    requires i < |slots|
  {
    && MayLeave(cfg, slots, protect, i)
    && forall j: nat :: j < |slots| && j != i && MayLeave(cfg, slots, protect, j)
         ==> Precedes(cfg.policy, slots[i], i, slots[j], j)
  }

  ghost predicate NoneToDemote(slots: seq<Entry>) {
    forall i: nat :: i < |slots| ==> !MayDemote(slots, i)
  }

  ghost predicate NoneToLeave(cfg: Config, slots: seq<Entry>, protect: Option<nat>) {
    forall i: nat :: i < |slots| ==> !MayLeave(cfg, slots, protect, i)
  }

  /** base_floor_allows reads the floors off what would remain. */
  lemma {:induction false} EligibleExactly(cfg: Config, slots: seq<Entry>, i: nat)
    requires i < |slots|
    ensures BaseEligible(cfg.floors, slots, i) <==> MayLeave(cfg, slots, None, i)
  {
    if slots[i].Resident? {
      SumUpdate(LayerEntries(slots[i].key.layer), slots, i, Vacant);
      SumUpdate(LayerBase(slots[i].key.layer), slots, i, Vacant);
    }
  }

  /** The policy offers a base exactly when one may leave, and then the first that may. */
  lemma {:induction false} VictimExactly(cfg: Config, slots: seq<Entry>, protect: Option<nat>)
    ensures var v := BaseVictim(cfg, slots, protect);
            && (v.Some? <==> exists i: nat :: i < |slots| && MayLeave(cfg, slots, protect, i))
            && (v.Some? ==> FirstToLeave(cfg, slots, protect, v.value))
  {
    forall i: nat | i < |slots|
      ensures (BaseEligible(cfg.floors, slots, i) && Some(i) != protect) <==> MayLeave(cfg, slots, protect, i)
    {
      EligibleExactly(cfg, slots, i);
    }
    var c, v := BaseCandidates(cfg.floors, slots, protect), BaseVictim(cfg, slots, protect);
    assert forall i: nat :: i in c <==> i < |slots| && MayLeave(cfg, slots, protect, i);
    if v.Some? { assert v.value in c; }
  }

  lemma {:induction false} ResidualExactly(cfg: Config, slots: seq<Entry>)
    ensures var v := ResidualVictim(cfg, slots);
            && (v.Some? <==> exists i: nat :: i < |slots| && MayDemote(slots, i))
            && (v.Some? ==> FirstToDemote(cfg, slots, v.value))
  {
    var c, v := ResidualCandidates(slots), ResidualVictim(cfg, slots);
    assert forall i: nat :: i in c <==> i < |slots| && MayDemote(slots, i);
    if v.Some? { assert v.value in c; }
  }

  function BaseOnly(e: Entry): Entry {
    if e.Vacant? then e else e.(residual := None)
  }

  /** Slots that planning cannot tell apart: the same base planes. */
  ghost predicate SameBases(a: seq<Entry>, b: seq<Entry>) {
    |a| == |b| && forall i :: 0 <= i < |a| ==> BaseOnly(a[i]) == BaseOnly(b[i])
  }

  /** How the next residual and the next base to leave are chosen. */
  datatype Chooser = Chooser(residual: seq<Entry> -> Option<nat>, base: seq<Entry> -> Option<nat>)

  ghost function PolicyChooser(cfg: Config, protect: Option<nat>): Chooser {
    Chooser(slots => ResidualVictim(cfg, slots), slots => BaseVictim(cfg, slots, protect))
  }

  predicate Picks(slots: seq<Entry>, victim: Option<nat>) {
    victim.Some? && victim.value < |slots| && slots[victim.value].Resident?
  }

  function Prepend(v: nat, rest: Option<seq<nat>>): Option<seq<nat>> {
    if rest.None? then None else Some([v] + rest.value)
  }

  /** The victims can_make_room plans: keep choosing the next base until `gap`
      more bytes have been covered and, if `slot` is set, at least one base has
      gone. None when the candidates run out first. */
  function GreedyPlan(choose: Chooser, slots: seq<Entry>, gap: int, slot: bool): (plan: Option<seq<nat>>)
    decreases Sum(Entries, slots)
  {
    if gap <= 0 && !slot then Some([])
    else
      var victim := choose.base(slots);
      if !Picks(slots, victim) then None
      else
        SumUpdate(Entries, slots, victim.value, Vacant);
        Prepend(victim.value,
                GreedyPlan(choose, slots[victim.value := Vacant], gap - slots[victim.value].base.charge, false))
  }
}
