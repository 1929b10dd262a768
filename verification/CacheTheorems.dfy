/** The main results about the expert cache as a state machine. */
module CacheTheorems {
  import opened Basics
  import opened CacheTypes
  import opened CachePolicy
  import opened CacheModel
  import opened CachePlan
  import opened CacheInvariant
  import opened CacheRuns

  ghost predicate Good(cfg: Config, s: State) {
    Inv(cfg, s) && Conserved(s) && Recency(s)
  }

  lemma {:induction false} GoodReclaims(cfg: Config, s: State, t: State)
    requires Good(cfg, s) && Reclaims(s, t)
    ensures Good(cfg, t)
  {
    InvReclaims(cfg, s, t);
    ConservedReclaims(s, t);
    RecencyReclaims(s, t);
  }

  /** A step either stops with an error and changes nothing, or it releases
      planes of unpinned entries only and stays Good. */
  ghost predicate Safe(cfg: Config, s: State, r: (State, Reply)) {
    && Good(cfg, r.0)
    && s.log <= r.0.log
    && (forall k :: |s.log| <= k < |r.0.log| ==> FromUnpinned(s.slots, r.0.log[k]))
    && r.1.status != ErrCorrupt
    && (r.1.status != Ok && r.1.status != Partial ==> r.0 == s)
  }

  lemma RepinRecency(s: State, i: nat, pins: nat)
    requires Recency(s) && i < |s.slots| && s.slots[i].Resident?
    ensures Recency(s.(slots := s.slots[i := s.slots[i].(pins := pins)]))
  {
  }

  lemma {:induction false} RepinGood(cfg: Config, s: State, i: nat, pins: nat)
    requires Good(cfg, s) && i < |s.slots| && s.slots[i].Resident? && pins <= U32_MAX
    ensures Good(cfg, s.(slots := s.slots[i := s.slots[i].(pins := pins)]))
  {
    var t := s.(slots := s.slots[i := s.slots[i].(pins := pins)]);
    RepinRecency(s, i, pins);
    assert EntryOk(cfg, s.clock, s.slots[i]);
    InvRestamp(cfg, s, t);
    SamePlaneSums(s.slots, t.slots);
    forall h
      ensures multiset(t.admitted)[h] == Sum(Copies(h), t.slots) + LogCopies(t.log, h)
    {
      assert multiset(s.admitted)[h] == Sum(Copies(h), s.slots) + LogCopies(s.log, h);
    }
  }

  lemma {:induction false} PinSafe(cfg: Config, s: State, key: Key)
    requires Good(cfg, s)
    ensures Safe(cfg, s, DoPin(cfg, s, key))
  {
    var found := Find(s.slots, key);
    if found.Some? && s.slots[found.value].pins != U32_MAX {
      assert EntryOk(cfg, s.clock, s.slots[found.value]);
      RepinGood(cfg, s, found.value, s.slots[found.value].pins + 1);
    }
  }

  lemma {:induction false} UnpinSafe(cfg: Config, s: State, key: Key)
    requires Good(cfg, s)
    ensures Safe(cfg, s, DoUnpin(cfg, s, key))
  {
    var found := Find(s.slots, key);
    if found.Some? && s.slots[found.value].pins != 0 {
      assert EntryOk(cfg, s.clock, s.slots[found.value]);
      RepinGood(cfg, s, found.value, s.slots[found.value].pins - 1);
    }
  }

  lemma {:induction false} TouchInv(cfg: Config, s: State, i: nat, requirement: Requirement)
    requires Inv(cfg, s) && i < |s.slots| && s.slots[i].Resident?
    ensures var t := Tick(s);
            var u := t.(slots := t.slots[i := Touch(cfg, t.slots[i], t.clock, requirement)],
                        touched := s.touched + [s.slots[i].key]);
            Inv(cfg, u) && forall h :: Sum(Copies(h), u.slots) == Sum(Copies(h), s.slots)
  {
    var t := Tick(s);
    TickFresh(cfg, s);
    var u := t.(slots := t.slots[i := Touch(cfg, t.slots[i], t.clock, requirement)],
      touched := s.touched + [s.slots[i].key]);
    assert EntryOk(cfg, t.clock, t.slots[i]) && SamePlanes(s.slots[i], t.slots[i]);
    assert SamePlanes(t.slots[i], u.slots[i]);
    InvRestamp(cfg, t, u);
    SamePlaneSums(s.slots, t.slots);
    SamePlaneSums(t.slots, u.slots);
  }

  lemma {:induction false} GetSafe(cfg: Config, s: State, key: Key, requirement: Requirement)
    requires Good(cfg, s)
    ensures Safe(cfg, s, DoGet(cfg, s, key, requirement))
  {
    var found := Find(s.slots, key);
    if key.layer < |cfg.floors| && found.Some? {
      var u := DoGet(cfg, s, key, requirement).0;
      TouchInv(cfg, s, found.value, requirement);
      TouchRecency(cfg, s, found.value, requirement);
      forall h
        ensures multiset(u.admitted)[h] == Sum(Copies(h), u.slots) + LogCopies(u.log, h)
      {
        assert multiset(s.admitted)[h] == Sum(Copies(h), s.slots) + LogCopies(s.log, h);
      }
    }
  }

  /** What is known once an admission has made room: planes only left, the
      newcomer fits, and if it needs a slot there is one. */
  lemma {:induction false} RoomMade(cfg: Config, s: State, charge: nat, needSlot: bool, protect: Option<nat>)
    requires Good(cfg, s)
    requires Plan(PolicyChooser(cfg, protect), cfg, s, charge, needSlot).Some?
    ensures var t := MakeRoom(PolicyChooser(cfg, protect), cfg, s, charge, needSlot);
            && Reclaims(s, t) && Good(cfg, t)
            && Payload(t) + charge <= cfg.budget
            && (needSlot ==> FreeSlot(t.slots).Some?)
  {
    var choose := PolicyChooser(cfg, protect);
    PolicySensible(cfg, protect);
    var t := MakeRoom(choose, cfg, s, charge, needSlot);
    var demoted := PlanAgrees(choose, cfg, s, charge, needSlot);
    ReclaimsRoom(choose, cfg, s, charge, needSlot);
    GoodReclaims(cfg, s, t);
    VacancyExists(t.slots);
  }

  lemma {:induction false} AdmitGood(cfg: Config, s: State, i: nat, key: Key, p: Plane)
    requires Good(cfg, s)
    requires i < |s.slots| && s.slots[i].Vacant?
    requires key.layer < |cfg.floors| && forall j :: 0 <= j < |s.slots| ==> !HasKey(s.slots[j], key)
    requires PlaneOk(cfg, p) && !InUse(s.slots, p.payload) && Payload(s) + p.charge <= cfg.budget
    ensures Good(cfg, Admit(s, i, key, p)) && Admit(s, i, key, p).log == s.log
  {
    InvAdmit(cfg, s, i, key, p);
    AdmitRecency(cfg, s, i, key, p);
    ConservedAdmission(s, Admit(s, i, key, p), p.payload);
  }

  lemma {:induction false} InsertSafe(cfg: Config, s: State, key: Key, payload: Handle, logical: nat, read: nat,
                                      prefetch: bool)
    requires Good(cfg, s)
    ensures Safe(cfg, s, DoInsert(cfg, s, key, payload, logical, read, prefetch))
  {
    var (status, charge) := PayloadCharge(cfg, logical);
    var choose := PolicyChooser(cfg, None);
    if payload != 0 && key.layer < |cfg.floors| && status == Ok && Find(s.slots, key).None?
       && !InUse(s.slots, payload) && Plan(choose, cfg, s, charge, true).Some? {
      RoomMade(cfg, s, charge, true, None);
      var t := MakeRoom(choose, cfg, s, charge, true);
      ReclaimKeepsAbsence(s, t, key, payload);
      AdmitGood(cfg, t, FreeSlot(t.slots).value, key, Plane(payload, logical, charge, read, prefetch));
    }
  }

  lemma {:induction false} AttachGood(cfg: Config, s: State, i: nat, p: Plane)
    requires Good(cfg, s)
    requires i < |s.slots| && s.slots[i].Resident? && s.slots[i].residual.None?
    requires PlaneOk(cfg, p) && !InUse(s.slots, p.payload) && Payload(s) + p.charge <= cfg.budget
    ensures Good(cfg, Attach(s, i, p)) && Attach(s, i, p).log == s.log
  {
    InvAttach(cfg, s, i, p);
    AttachRecency(s, i, p);
    ConservedAdmission(s, Attach(s, i, p), p.payload);
  }

  lemma AttachRecency(s: State, i: nat, p: Plane)
    requires Recency(s) && i < |s.slots| && s.slots[i].Resident?
    ensures Recency(Attach(s, i, p))
  {
  }

  /** A promotion spares its own entry: same base, same stamps, still no residual. */
  lemma {:induction false} ProtectedUnchanged(cfg: Config, s: State, charge: nat, i: nat)
    requires Good(cfg, s) && i < |s.slots| && s.slots[i].Resident? && s.slots[i].residual.None?
    requires Plan(PolicyChooser(cfg, Some(i)), cfg, s, charge, false).Some?
    ensures MakeRoom(PolicyChooser(cfg, Some(i)), cfg, s, charge, false).slots[i] == s.slots[i]
  {
    var choose := PolicyChooser(cfg, Some(i));
    PolicySensible(cfg, Some(i));
    ProtectedStays(choose, cfg, s, charge, false, i);
    ReclaimsRoom(choose, cfg, s, charge, false);
    assert Shrinks(s.slots[i], MakeRoom(choose, cfg, s, charge, false).slots[i]);
  }

  lemma {:induction false} PromoteSafe(cfg: Config, s: State, key: Key, payload: Handle, logical: nat, read: nat,
                                       prefetch: bool)
    requires Good(cfg, s)
    ensures Safe(cfg, s, DoPromote(cfg, s, key, payload, logical, read, prefetch))
  {
    var (status, charge) := PayloadCharge(cfg, logical);
    var found := Find(s.slots, key);
    var choose := PolicyChooser(cfg, found);
    if payload != 0 && key.layer < |cfg.floors| && found.Some? && s.slots[found.value].residual.None?
       && status == Ok && !InUse(s.slots, payload) && Plan(choose, cfg, s, charge, false).Some? {
      RoomMade(cfg, s, charge, false, found);
      ProtectedUnchanged(cfg, s, charge, found.value);
      var t := MakeRoom(choose, cfg, s, charge, false);
      ReclaimKeepsAbsence(s, t, key, payload);
      AttachGood(cfg, t, found.value, Plane(payload, logical, charge, read, prefetch));
    }
  }

  lemma {:induction false} RemoveSafe(cfg: Config, s: State, key: Key)
    requires Good(cfg, s)
    ensures Safe(cfg, s, DoRemove(cfg, s, key))
  {
    var found := Find(s.slots, key);
    if found.Some? && s.slots[found.value].pins == 0 {
      ReclaimsBase(s, found.value, Explicit);
      GoodReclaims(cfg, s, DropBase(s, found.value, Explicit));
    }
  }

  lemma {:induction false} PressureSafe(cfg: Config, s: State, level: Pressure, target: nat)
    requires Good(cfg, s)
    ensures Safe(cfg, s, DoPressure(cfg, s, level, target))
  {
    ReclaimsPressure(cfg, s, level, target);
    GoodReclaims(cfg, s, Pressed(cfg, s, level, target));
  }

  lemma {:induction false} DestroySafe(cfg: Config, s: State)
    requires Good(cfg, s)
    ensures Safe(cfg, s, DoDestroy(s))
  {
    if forall i :: 0 <= i < |s.slots| && s.slots[i].Resident? ==> s.slots[i].pins == 0 {
      ReclaimsAll(s, 0);
      GoodReclaims(cfg, s, ReleaseFrom(s, 0));
    }
  }

  lemma {:induction false} StepSafe(cfg: Config, s: State, op: Op)
    requires Good(cfg, s)
    ensures Safe(cfg, s, Step(cfg, s, op))
  {
    match op {
      case Get(key, requirement) => GetSafe(cfg, s, key, requirement);
      case Pin(key) => PinSafe(cfg, s, key);
      case Unpin(key) => UnpinSafe(cfg, s, key);
      case InsertBase(key, p, l, r, f) => InsertSafe(cfg, s, key, p, l, r, f);
      case Promote(key, p, l, r, f) => PromoteSafe(cfg, s, key, p, l, r, f);
      case Remove(key) => RemoveSafe(cfg, s, key);
      case ApplyPressure(level, target) => PressureSafe(cfg, s, level, target);
      case Destroy => DestroySafe(cfg, s);
    }
  }

  lemma {:induction false} StepGood(cfg: Config, s: State, op: Op)
    requires Good(cfg, s)
    ensures Good(cfg, Step(cfg, s, op).0)
  {
    StepSafe(cfg, s, op);
  }

  lemma {:induction false} InitialGood(cfg: Config)
    requires ConfigOk(cfg)
    ensures Good(cfg, Initial(cfg))
  {
    var s := Initial(cfg);
    forall m: Measure
      ensures Sum(m, s.slots) == 0
    {
      if Sum(m, s.slots) > 0 {
        var i := SumPositive(m, s.slots);
      }
    }
  }

  /** Every reachable state is Good. */
  lemma {:induction false} RunGood(cfg: Config, ops: seq<Op>)
    requires ConfigOk(cfg)
    ensures Good(cfg, Run(cfg, Initial(cfg), ops))
  {
    if ops == [] {
      InitialGood(cfg);
    } else {
      RunGood(cfg, ops[..|ops| - 1]);
      StepSafe(cfg, Run(cfg, Initial(cfg), ops[..|ops| - 1]), ops[|ops| - 1]);
    }
  }

  /** Ownership over any run: a handle has been released no more often than it
      was admitted, is held at most once, and a destroyed cache has given back
      every admission. */
  lemma {:induction false} OwnershipConserved(cfg: Config, ops: seq<Op>, h: Handle)
    requires ConfigOk(cfg)
    ensures var s := Run(cfg, Initial(cfg), ops);
            && multiset(s.admitted)[h] == Sum(Copies(h), s.slots) + LogCopies(s.log, h)
            && Sum(Copies(h), s.slots) <= 1
            && (s.alive && DoDestroy(s).1.status == Ok ==>
                  LogCopies(DoDestroy(s).0.log, h) == multiset(s.admitted)[h])
  {
    RunGood(cfg, ops);
    var s := Run(cfg, Initial(cfg), ops);
    var t := ReleaseFrom(s, 0);
    if s.alive && DoDestroy(s).1.status == Ok {
      ReclaimsAll(s, 0);
      ConservedReclaims(s, t);
      if Sum(Copies(h), t.slots) > 0 {
        var i := SumPositive(Copies(h), t.slots);
      }
    }
  }

  // ---- Floors -------------------------------------------------------------

  /** Each layer either lost no base or still meets both of its floors. */
  ghost predicate Floored(cfg: Config, a: seq<Entry>, b: seq<Entry>) {
    forall l :: 0 <= l < |cfg.floors| ==>
      || (Sum(LayerEntries(l), a) == Sum(LayerEntries(l), b) && Sum(LayerBase(l), a) == Sum(LayerBase(l), b))
      || (Sum(LayerEntries(l), b) >= cfg.floors[l].minEntries && Sum(LayerBase(l), b) >= cfg.floors[l].minBytes)
  }

  ghost predicate RespectsFloors(cfg: Config, choose: Chooser) {
    forall slots: seq<Entry> :: choose.base(slots).Some? ==>
      choose.base(slots).value < |slots| && BaseEligible(cfg.floors, slots, choose.base(slots).value)
  }

  lemma {:induction false} FlooredResidual(cfg: Config, s: State, i: nat, reason: Reason)
    requires i < |s.slots| && s.slots[i].Resident? && s.slots[i].residual.Some?
    ensures Floored(cfg, s.slots, DropResidual(s, i, reason).slots)
  {
    forall l | 0 <= l < |cfg.floors|
      ensures Sum(LayerEntries(l), s.slots) == Sum(LayerEntries(l), DropResidual(s, i, reason).slots)
      ensures Sum(LayerBase(l), s.slots) == Sum(LayerBase(l), DropResidual(s, i, reason).slots)
    {
      SumUpdate(LayerEntries(l), s.slots, i, s.slots[i].(residual := None));
      SumUpdate(LayerBase(l), s.slots, i, s.slots[i].(residual := None));
    }
  }

  lemma {:induction false} FlooredBase(cfg: Config, s: State, i: nat, reason: Reason)
    requires i < |s.slots| && BaseEligible(cfg.floors, s.slots, i)
    ensures Floored(cfg, s.slots, DropBase(s, i, reason).slots)
  {
    assert DropBase(s, i, reason).slots == s.slots[i := Vacant];
    forall l | 0 <= l < |cfg.floors|
      ensures Sum(LayerEntries(l), s.slots[i := Vacant]) + Weight(LayerEntries(l), s.slots[i])
        == Sum(LayerEntries(l), s.slots)
      ensures Sum(LayerBase(l), s.slots[i := Vacant]) + Weight(LayerBase(l), s.slots[i]) == Sum(LayerBase(l), s.slots)
    {
      SumUpdate(LayerEntries(l), s.slots, i, Vacant);
      SumUpdate(LayerBase(l), s.slots, i, Vacant);
    }
  }

  /** Making room never takes a layer below a floor. */
  lemma {:induction false} RoomRespectsFloors(choose: Chooser, cfg: Config, s: State, incoming: nat, needSlot: bool)
    requires Sensible(choose) && RespectsFloors(cfg, choose)
    ensures Floored(cfg, s.slots, MakeRoom(choose, cfg, s, incoming, needSlot).slots)
    decreases Sum(Planes, s.slots)
  {
    if !Enough(cfg, s, incoming, needSlot) {
      var r := choose.residual(s.slots);
      if r.Some? {
        RoomDemotes(choose, cfg, s, incoming, needSlot, r.value);
        FlooredResidual(cfg, s, r.value, Demotion);
        DropLowersPlanes(s, r.value, Demotion);
        RoomRespectsFloors(choose, cfg, DropResidual(s, r.value, Demotion), incoming, needSlot);
      } else {
        var b := choose.base(s.slots);
        if b.Some? {
          RoomEvicts(choose, cfg, s, incoming, needSlot, b.value);
          FlooredBase(cfg, s, b.value, Eviction);
          DropLowersPlanes(s, b.value, Eviction);
          RoomRespectsFloors(choose, cfg, DropBase(s, b.value, Eviction), incoming, needSlot);
        }
      }
    }
  }

  lemma {:induction false} AdmissionRespectsFloors(cfg: Config, s: State, incoming: nat, needSlot: bool,
                                                   protect: Option<nat>)
    ensures Floored(cfg, s.slots, MakeRoom(PolicyChooser(cfg, protect), cfg, s, incoming, needSlot).slots)
  {
    PolicySensible(cfg, protect);
    RoomRespectsFloors(PolicyChooser(cfg, protect), cfg, s, incoming, needSlot);
  }

  // ---- Memory pressure ----------------------------------------------------

  ghost predicate OnlyResiduals(s: State, t: State) {
    && SameBases(s.slots, t.slots)
    && s.log <= t.log
    && forall k :: |s.log| <= k < |t.log| ==> t.log[k].kind == ResidualPlane
  }

  lemma {:induction false} DrainResidualsStops(cfg: Config, s: State, target: nat, reason: Reason)
    ensures var t := DrainResiduals(cfg, s, target, reason);
            OnlyResiduals(s, t) && (Payload(t) > target ==> NoFreeable(t.slots))
    decreases Sum(Planes, s.slots)
  {
    var r := ResidualVictim(cfg, s.slots);
    if Payload(s) > target && r.Some? {
      DropLowersPlanes(s, r.value, reason);
      DrainResidualsStops(cfg, DropResidual(s, r.value, reason), target, reason);
    }
  }

  lemma {:induction false} DrainBasesStops(cfg: Config, s: State, target: nat, reason: Reason)
    ensures var t := DrainBases(cfg, s, target, reason);
            && Floored(cfg, s.slots, t.slots)
            && (NoFreeable(s.slots) ==> NoFreeable(t.slots))
            && (Payload(s) <= target ==> t == s)
            && (Payload(t) > target ==> BaseCandidates(cfg.floors, t.slots, None) == {})
    decreases Sum(Planes, s.slots)
  {
    var b := BaseVictim(cfg, s.slots, None);
    if Payload(s) > target && b.Some? {
      var next := DropBase(s, b.value, reason);
      DropLowersPlanes(s, b.value, reason);
      FlooredBase(cfg, s, b.value, reason);
      assert next.slots == s.slots[b.value := Vacant];
      DrainBasesStops(cfg, next, target, reason);
      FlooredTrans(cfg, s.slots, next.slots, DrainBases(cfg, next, target, reason).slots);
    }
  }

  lemma FlooredTrans(cfg: Config, a: seq<Entry>, b: seq<Entry>, c: seq<Entry>)
    requires Floored(cfg, a, b) && Floored(cfg, b, c)
    ensures Floored(cfg, a, c)
  {
  }

  /** WARN never releases a base; CRITICAL keeps floors and touches a base only
      when no unpinned residual is left; PARTIAL means the level has nothing
      left to give; and the bytes reported are those of the release events. */
  lemma {:induction false} PressureObeysPolicy(cfg: Config, s: State, level: Pressure, target: nat)
    requires Good(cfg, s)
    ensures var (t, reply) := DoPressure(cfg, s, level, target);
            && (level != Critical ==> OnlyResiduals(s, t))
            && (level == Critical ==> Floored(cfg, s.slots, t.slots) && (OnlyResiduals(s, t) || NoFreeable(t.slots)))
            && reply.reclaimed + LogBytes(s.log) == LogBytes(t.log)
            && (reply.status == Ok && level != Normal ==> Payload(t) <= target)
            && (reply.status == Partial ==>
                  && Payload(t) > target && NoFreeable(t.slots)
                  && (level == Critical ==> BaseCandidates(cfg.floors, t.slots, None) == {}))
  {
    if target <= cfg.budget {
      ReclaimsPressure(cfg, s, level, target);
      var t := Pressed(cfg, s, level, target);
      LogGrows(s.log, t.log);
      match level {
        case Normal =>
        case Warn => DrainResidualsStops(cfg, s, target, PressureWarn);
        case Critical => CriticalDrains(cfg, s, target);
      }
    }
  }

  lemma {:induction false} SameBasesFloored(cfg: Config, a: seq<Entry>, b: seq<Entry>)
    requires SameBases(a, b)
    ensures Floored(cfg, a, b)
  {
    forall l | 0 <= l < |cfg.floors|
      ensures Sum(LayerEntries(l), a) == Sum(LayerEntries(l), b) && Sum(LayerBase(l), a) == Sum(LayerBase(l), b)
    {
      forall i | 0 <= i < |a|
        ensures Weight(LayerEntries(l), a[i]) == Weight(LayerEntries(l), b[i])
        ensures Weight(LayerBase(l), a[i]) == Weight(LayerBase(l), b[i])
      {
        assert BaseOnly(a[i]) == BaseOnly(b[i]);
      }
      SumSame(LayerEntries(l), a, b);
      SumSame(LayerBase(l), a, b);
    }
  }

  lemma {:induction false} CriticalDrains(cfg: Config, s: State, target: nat)
    ensures var t := Pressed(cfg, s, Critical, target);
            && Floored(cfg, s.slots, t.slots)
            && (OnlyResiduals(s, t) || NoFreeable(t.slots))
            && (Payload(t) > target ==> NoFreeable(t.slots) && BaseCandidates(cfg.floors, t.slots, None) == {})
  {
    var m := DrainResiduals(cfg, s, target, PressureCritical);
    DrainResidualsStops(cfg, s, target, PressureCritical);
    DrainBasesStops(cfg, m, target, PressureCritical);
    SameBasesFloored(cfg, s.slots, m.slots);
  }
}
