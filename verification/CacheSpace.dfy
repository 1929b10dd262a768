/** When there is no space: admission fails exactly when even giving up every unpinned
    residual and, in policy order, every base that may leave would not make room. And
    what memory pressure does, exactly. */
module CacheSpace {
  import opened Basics
  import opened CacheTypes
  import opened CachePolicy
  import opened CacheModel
  import opened CachePlan
  import opened CacheInvariant
  import opened CacheRuns
  import opened CacheTheorems
  import opened CacheTrace

  /** The bases that leave, in policy order, when all that may leave do. */
  ghost predicate Clears(cfg: Config, slots: seq<Entry>, protect: Option<nat>, victims: seq<nat>)
    decreases |victims|
  {
    if victims == [] then NoneToLeave(cfg, slots, protect)
    else
      && victims[0] < |slots| && FirstToLeave(cfg, slots, protect, victims[0])
      && Clears(cfg, slots[victims[0] := Vacant], protect, victims[1..])
  }

  function Charges(slots: seq<Entry>, victims: seq<nat>): nat
    decreases |victims|
  {
    if victims == [] || victims[0] >= |slots| || slots[victims[0]].Vacant? then 0
    else slots[victims[0]].base.charge + Charges(slots[victims[0] := Vacant], victims[1..])
  }

  lemma {:induction false} ClearsExists(cfg: Config, slots: seq<Entry>, protect: Option<nat>)
    returns (victims: seq<nat>)
    ensures Clears(cfg, slots, protect, victims)
    decreases Sum(Entries, slots)
  {
    VictimExactly(cfg, slots, protect);
    var v := BaseVictim(cfg, slots, protect);
    victims := [];
    if v.Some? {
      SumUpdate(Entries, slots, v.value, Vacant);
      var rest := ClearsExists(cfg, slots[v.value := Vacant], protect);
      victims := [v.value] + rest;
      assert victims[1..] == rest;
    }
  }

  lemma OneFirst(policy: Policy, a: Entry, i: nat, b: Entry, j: nat)
    requires a.Resident? && b.Resident?
    ensures Precedes(policy, a, i, b, j) && Precedes(policy, b, j, a, i) ==> i == j
  {
  }

  lemma SomeLeaves(cfg: Config, slots: seq<Entry>, protect: Option<nat>, i: nat)
    requires i < |slots| && MayLeave(cfg, slots, protect, i)
    ensures !NoneToLeave(cfg, slots, protect)
  {
  }

  lemma {:induction false} FirstIsVictim(cfg: Config, slots: seq<Entry>, protect: Option<nat>, i: nat)
    requires i < |slots| && FirstToLeave(cfg, slots, protect, i)
    ensures BaseVictim(cfg, slots, protect) == Some(i)
  {
    VictimExactly(cfg, slots, protect);
    var v := BaseVictim(cfg, slots, protect).value;
    OneFirst(cfg.policy, slots[i], i, slots[v], v);
  }

  /** There is one such list. */
  lemma {:induction false} ClearsUnique(cfg: Config, slots: seq<Entry>, protect: Option<nat>, a: seq<nat>, b: seq<nat>)
    requires Clears(cfg, slots, protect, a) && Clears(cfg, slots, protect, b)
    ensures a == b
    decreases |a|
  {
    if a != [] { SomeLeaves(cfg, slots, protect, a[0]); }
    if b != [] { SomeLeaves(cfg, slots, protect, b[0]); }
    if a != [] {
      FirstIsVictim(cfg, slots, protect, a[0]);
      FirstIsVictim(cfg, slots, protect, b[0]);
      ClearsUnique(cfg, slots[a[0] := Vacant], protect, a[1..], b[1..]);
      assert a == [a[0]] + a[1..] && b == [b[0]] + b[1..];
    }
  }

  lemma GreedyStops(choose: Chooser, slots: seq<Entry>, gap: int, slot: bool)
    ensures gap <= 0 && !slot ==> GreedyPlan(choose, slots, gap, slot).Some?
    ensures (gap > 0 || slot) && choose.base(slots).None? ==> GreedyPlan(choose, slots, gap, slot).None?
  {
  }

  lemma {:induction false} GreedyExactly(cfg: Config, slots: seq<Entry>, protect: Option<nat>, gap: int, slot: bool,
                                         victims: seq<nat>)
    requires Clears(cfg, slots, protect, victims)
    ensures GreedyPlan(PolicyChooser(cfg, protect), slots, gap, slot).Some?
            <==> gap <= Charges(slots, victims) && (slot ==> victims != [])
    decreases |victims|
  {
    var choose := PolicyChooser(cfg, protect);
    GreedyStops(choose, slots, gap, slot);
    if victims == [] {
      VictimExactly(cfg, slots, protect);
    } else {
      FirstIsVictim(cfg, slots, protect, victims[0]);
      if gap > 0 || slot { GreedyNext(cfg, slots, protect, gap, slot, victims); }
    }
  }

  lemma {:induction false} GreedyNext(cfg: Config, slots: seq<Entry>, protect: Option<nat>, gap: int, slot: bool,
                                      victims: seq<nat>)
    requires Clears(cfg, slots, protect, victims) && victims != [] && (gap > 0 || slot)
    requires BaseVictim(cfg, slots, protect) == Some(victims[0])
    ensures GreedyPlan(PolicyChooser(cfg, protect), slots, gap, slot).Some? <==> gap <= Charges(slots, victims)
    decreases |victims|, 0
  {
    var v, choose := victims[0], PolicyChooser(cfg, protect);
    assert choose.base(slots) == Some(v);
    GreedyStep(choose, slots, gap, slot, v);
    GreedyExactly(cfg, slots[v := Vacant], protect, gap - slots[v].base.charge, false, victims[1..]);
  }

  /** A newcomer can be given room: it fits the budget once every unpinned residual and
      every base on the list is gone, and if it needs a slot and there is none, some base
      is on the list. */
  ghost predicate CanFit(cfg: Config, s: State, charge: nat, needSlot: bool, victims: seq<nat>) {
    && charge <= cfg.budget
    && Payload(s) + charge <= cfg.budget + Sum(FreeableResidual, s.slots) + Charges(s.slots, victims)
    && (needSlot && Count(s) >= cfg.maxEntries ==> victims != [])
  }

  lemma {:induction false} PlanExactly(cfg: Config, s: State, charge: nat, needSlot: bool, protect: Option<nat>,
                                       victims: seq<nat>)
    requires Clears(cfg, s.slots, protect, victims)
    ensures Plan(PolicyChooser(cfg, protect), cfg, s, charge, needSlot).Some?
            <==> CanFit(cfg, s, charge, needSlot, victims)
  {
    GreedyExactly(cfg, s.slots, protect, Deficit(cfg, s, charge) - Sum(FreeableResidual, s.slots), needSlot, victims);
  }

  /** An admission with nothing else against it is refused for lack of space exactly when
      the newcomer cannot be given room, and succeeds otherwise. */
  lemma {:induction false} InsertNoSpace(cfg: Config, s: State, op: Op) returns (victims: seq<nat>)
    requires Good(cfg, s) && s.alive && op.InsertBase?
    requires op.payload != 0 && op.key.layer < |cfg.floors| && PayloadCharge(cfg, op.logical).0 == Ok
    requires Find(s.slots, op.key).None? && !InUse(s.slots, op.payload)
    ensures Clears(cfg, s.slots, None, victims)
    ensures Step(cfg, s, op).1.status
            == if CanFit(cfg, s, PayloadCharge(cfg, op.logical).1, true, victims) then Ok else ErrNoSpace
  {
    victims := ClearsExists(cfg, s.slots, None);
    PlanExactly(cfg, s, PayloadCharge(cfg, op.logical).1, true, None, victims);
    if Plan(PolicyChooser(cfg, None), cfg, s, PayloadCharge(cfg, op.logical).1, true).Some? {
      RoomMade(cfg, s, PayloadCharge(cfg, op.logical).1, true, None);
    }
  }

  /** The same for a promotion, which needs no slot and spares its own base. */
  lemma {:induction false} PromoteNoSpace(cfg: Config, s: State, op: Op) returns (victims: seq<nat>)
    requires Good(cfg, s) && s.alive && op.Promote?
    requires op.payload != 0 && op.key.layer < |cfg.floors| && PayloadCharge(cfg, op.logical).0 == Ok
    requires Find(s.slots, op.key).Some? && s.slots[Find(s.slots, op.key).value].residual.None?
    requires !InUse(s.slots, op.payload)
    ensures Clears(cfg, s.slots, Find(s.slots, op.key), victims)
    ensures Step(cfg, s, op).1.status
            == if CanFit(cfg, s, PayloadCharge(cfg, op.logical).1, false, victims) then Ok else ErrNoSpace
  {
    victims := ClearsExists(cfg, s.slots, Find(s.slots, op.key));
    PlanExactly(cfg, s, PayloadCharge(cfg, op.logical).1, false, Find(s.slots, op.key), victims);
  }

  /** A full cache in which some unpinned base stands above its floors and is worth the
      newcomer's charge takes the newcomer. */
  lemma {:induction false} InsertEvicts(cfg: Config, s: State, op: Op, i: nat)
    requires Good(cfg, s) && s.alive && op.InsertBase?
    requires op.payload != 0 && op.key.layer < |cfg.floors| && PayloadCharge(cfg, op.logical).0 == Ok
    requires Find(s.slots, op.key).None? && !InUse(s.slots, op.payload)
    requires Payload(s) + PayloadCharge(cfg, op.logical).1 <= cfg.budget
    requires i < |s.slots| && MayLeave(cfg, s.slots, None, i)
    ensures Step(cfg, s, op).1.status == Ok
  {
    var victims := InsertNoSpace(cfg, s, op);
    SomeLeaves(cfg, s.slots, None, i);
  }

  // ---- Memory pressure ----------------------------------------------------------------

  /** A target above the budget is refused; NORMAL does nothing; WARN and CRITICAL release
      plane after plane in policy order while the payload is above the target, and stop
      when it is not or nothing more may go: then PARTIAL is answered. */
  lemma {:induction false} PressureExactly(cfg: Config, s: State, level: Pressure, target: nat)
    requires Good(cfg, s)
    ensures var (t, reply) := DoPressure(cfg, s, level, target); var rule := Press(target, level == Critical);
            if target > cfg.budget then t == s && reply == Fail(ErrSize)
            else if level == Normal then t == s && reply == Done(None)
            else
              && Traced(cfg, rule, s, t) && Over(cfg, rule, t.slots)
              && (reply.status == Ok <==> Payload(t) <= target)
              && (reply.status == Partial <==> Payload(t) > target)
              && reply.reclaimed == Payload(s) - Payload(t)
  {
    if target <= cfg.budget && level != Normal {
      PressTraced(cfg, s, target, level == Critical);
      ReclaimsPressure(cfg, s, level, target);
      LogGrows(s.log, Pressed(cfg, s, level, target).log);
    }
  }

  /** PARTIAL leaves no unpinned residual and, at CRITICAL, no unpinned base that its
      layer's floors could spare. */
  lemma {:induction false} PartialExactly(cfg: Config, s: State, level: Pressure, target: nat, t: State, i: nat)
    requires Good(cfg, s) && i < |t.slots| && t.slots[i].Resident?
    requires DoPressure(cfg, s, level, target).0 == t && DoPressure(cfg, s, level, target).1.status == Partial
    ensures || t.slots[i].pins > 0
            || (t.slots[i].residual.None? && (level == Critical ==> !FloorsHold(cfg, t.slots, i)))
  {
    PressureExactly(cfg, s, level, target);
    PressureSafe(cfg, s, level, target);
    OverLeaves(cfg, t, target, level == Critical, i);
  }

  lemma {:induction false} OverLeaves(cfg: Config, t: State, target: nat, critical: bool, i: nat)
    requires Inv(cfg, t) && Over(cfg, Press(target, critical), t.slots) && Payload(t) > target
    requires i < |t.slots| && t.slots[i].Resident?
    ensures || t.slots[i].pins > 0
            || (t.slots[i].residual.None? && (critical ==> !FloorsHold(cfg, t.slots, i)))
  {
    assert !MayDemote(t.slots, i);
    assert critical ==> !MayLeave(cfg, t.slots, None, i);
    assert EntryOk(cfg, t.clock, t.slots[i]);
  }
}
