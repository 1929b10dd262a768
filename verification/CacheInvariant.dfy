/** What every operation of the expert cache keeps, and what reclaiming may do. */
module CacheInvariant {
  import opened Basics
  import opened CacheTypes
  import opened CachePolicy
  import opened CacheModel
  import opened CachePlan

  // ---- The invariant ------------------------------------------------------

  predicate PlaneOk(cfg: Config, p: Plane)
    requires 0 < cfg.alignment
  {
    p.payload != 0 && PayloadCharge(cfg, p.logical) == (Ok, p.charge)
  }

  predicate EntryOk(cfg: Config, clock: nat, e: Entry)
    requires 0 < cfg.alignment
  {
    e.Resident? ==>
      && e.key.layer < |cfg.floors|
      && PlaneOk(cfg, e.base)
      && (e.residual.Some? ==> PlaneOk(cfg, e.residual.value))
      && 0 < e.admissionOrder <= e.lastAccess <= clock
      && e.pins <= U32_MAX
      && !e.planned
  }

  ghost predicate DistinctKeys(slots: seq<Entry>) {
    forall i, j :: 0 <= i < j < |slots| && slots[i].Resident? && slots[j].Resident? ==> slots[i].key != slots[j].key
  }

  /** No handle is held by two planes. */
  ghost predicate DistinctHandles(slots: seq<Entry>) {
    forall h :: Sum(Copies(h), slots) <= 1
  }

  ghost predicate Inv(cfg: Config, s: State) {
    && ConfigOk(cfg)
    && |s.slots| == cfg.maxEntries
    && (forall i :: 0 <= i < |s.slots| ==> EntryOk(cfg, s.clock, s.slots[i]))
    && DistinctKeys(s.slots)
    && DistinctHandles(s.slots)
    && Payload(s) <= s.peak <= cfg.budget
    && s.clock <= U64_MAX
  }

  // ---- Reclaiming: only unpinned planes leave, each with one event ---------

  function LogBytes(log: seq<Event>): nat {
    if log == [] then 0 else LogBytes(log[..|log| - 1]) + log[|log| - 1].plane.charge
  }

  function LogCopies(log: seq<Event>, h: Handle): nat {
    if log == [] then 0
    else LogCopies(log[..|log| - 1], h) + (if log[|log| - 1].plane.payload == h then 1 else 0)
  }

  predicate Shrinks(a: Entry, b: Entry) {
    b == a || (a.Resident? && a.pins == 0 && (b.Vacant? || b == a.(residual := None)))
  }

  predicate PlaneOf(e: Entry, event: Event) {
    && e.Resident? && e.key == event.key
    && (if event.kind == BasePlane then e.base == event.plane else e.residual == Some(event.plane))
  }

  /** The event gives back a plane of an unpinned entry of `slots`. */
  ghost predicate FromUnpinned(slots: seq<Entry>, event: Event) {
    exists i :: 0 <= i < |slots| && PlaneOf(slots[i], event) && slots[i].pins == 0
  }

  /** Handles held plus handles released stay the same, one by one and in bytes. */
  ghost predicate Balanced(s: State, t: State) {
    && Payload(s) + LogBytes(s.log) == Payload(t) + LogBytes(t.log)
    && forall h :: Sum(Copies(h), s.slots) + LogCopies(s.log, h) == Sum(Copies(h), t.slots) + LogCopies(t.log, h)
  }

  ghost predicate Reclaims(s: State, t: State) {
    && t == s.(slots := t.slots, log := t.log)
    && |t.slots| == |s.slots|
    && (forall i :: 0 <= i < |s.slots| ==> Shrinks(s.slots[i], t.slots[i]))
    && s.log <= t.log
    && (forall k :: |s.log| <= k < |t.log| ==> FromUnpinned(s.slots, t.log[k]))
    && Balanced(s, t)
  }

  lemma {:induction false} LogAppend(log: seq<Event>, e: Event)
    ensures LogBytes(log + [e]) == LogBytes(log) + e.plane.charge
    ensures forall h :: LogCopies(log + [e], h) == LogCopies(log, h) + (if e.plane.payload == h then 1 else 0)
  {
    assert (log + [e])[..|log|] == log;
  }

  lemma {:induction false} ReclaimsTrans(s: State, t: State, u: State)
    requires Reclaims(s, t) && Reclaims(t, u)
    ensures Reclaims(s, u)
  {
    forall k | |s.log| <= k < |u.log|
      ensures FromUnpinned(s.slots, u.log[k])
    {
      if k < |t.log| {
        assert u.log[k] == t.log[k];
      } else {
        var i :| 0 <= i < |t.slots| && PlaneOf(t.slots[i], u.log[k]) && t.slots[i].pins == 0;
        assert Shrinks(s.slots[i], t.slots[i]);
        assert PlaneOf(s.slots[i], u.log[k]);
      }
    }
    forall i | 0 <= i < |s.slots|
      ensures Shrinks(s.slots[i], u.slots[i])
    {
      assert Shrinks(s.slots[i], t.slots[i]) && Shrinks(t.slots[i], u.slots[i]);
    }
  }

  lemma {:induction false} ReclaimsResidual(s: State, i: nat, reason: Reason)
    requires i < |s.slots| && ResidualEligible(s.slots[i])
    ensures Reclaims(s, DropResidual(s, i, reason))
  {
    var e, t := s.slots[i], DropResidual(s, i, reason);
    LogAppend(s.log, t.log[|s.log|]);
    SumUpdate(TotalCharge, s.slots, i, e.(residual := None));
    forall h
      ensures Sum(Copies(h), s.slots) + LogCopies(s.log, h) == Sum(Copies(h), t.slots) + LogCopies(t.log, h)
    {
      SumUpdate(Copies(h), s.slots, i, e.(residual := None));
    }
    assert PlaneOf(s.slots[i], t.log[|s.log|]);
  }

  lemma {:induction false} ReclaimsBareBase(s: State, i: nat, reason: Reason)
    requires i < |s.slots| && s.slots[i].Resident? && s.slots[i].pins == 0 && s.slots[i].residual.None?
    ensures Reclaims(s, DropBase(s, i, reason))
  {
    var e, t := s.slots[i], DropBase(s, i, reason);
    LogAppend(s.log, t.log[|s.log|]);
    SumUpdate(TotalCharge, s.slots, i, Vacant);
    forall h
      ensures Sum(Copies(h), s.slots) + LogCopies(s.log, h) == Sum(Copies(h), t.slots) + LogCopies(t.log, h)
    {
      SumUpdate(Copies(h), s.slots, i, Vacant);
    }
    assert PlaneOf(s.slots[i], t.log[|s.log|]);
  }

  lemma {:induction false} ReclaimsBase(s: State, i: nat, reason: Reason)
    requires i < |s.slots| && s.slots[i].Resident? && s.slots[i].pins == 0
    ensures Reclaims(s, DropBase(s, i, reason))
  {
    if s.slots[i].residual.Some? {
      var t := DropResidual(s, i, reason);
      ReclaimsResidual(s, i, reason);
      ReclaimsBareBase(t, i, reason);
      assert DropBase(t, i, reason) == DropBase(s, i, reason);
      ReclaimsTrans(s, t, DropBase(t, i, reason));
    } else {
      ReclaimsBareBase(s, i, reason);
    }
  }

  lemma ReclaimsNothing(s: State)
    ensures Reclaims(s, s)
  {
  }

  lemma {:induction false} ReclaimsRoom(choose: Chooser, cfg: Config, s: State, incoming: nat, needSlot: bool)
    requires Sensible(choose)
    ensures Reclaims(s, MakeRoom(choose, cfg, s, incoming, needSlot))
    decreases Sum(Planes, s.slots)
  {
    if Enough(cfg, s, incoming, needSlot) {
      ReclaimsNothing(s);
    } else {
      var r := choose.residual(s.slots);
      if r.Some? {
        var t := DropResidual(s, r.value, Demotion);
        RoomDemotes(choose, cfg, s, incoming, needSlot, r.value);
        ReclaimsResidual(s, r.value, Demotion);
        DropLowersPlanes(s, r.value, Demotion);
        ReclaimsRoom(choose, cfg, t, incoming, needSlot);
        ReclaimsTrans(s, t, MakeRoom(choose, cfg, t, incoming, needSlot));
      } else {
        var b := choose.base(s.slots);
        if b.Some? {
          var t := DropBase(s, b.value, Eviction);
          RoomEvicts(choose, cfg, s, incoming, needSlot, b.value);
          ReclaimsBase(s, b.value, Eviction);
          DropLowersPlanes(s, b.value, Eviction);
          ReclaimsRoom(choose, cfg, t, incoming, needSlot);
          ReclaimsTrans(s, t, MakeRoom(choose, cfg, t, incoming, needSlot));
        } else {
          ReclaimsNothing(s);
        }
      }
    }
  }

  lemma {:induction false} ReclaimsDrainResiduals(cfg: Config, s: State, target: nat, reason: Reason)
    ensures Reclaims(s, DrainResiduals(cfg, s, target, reason))
    decreases Sum(Planes, s.slots)
  {
    var r := ResidualVictim(cfg, s.slots);
    if Payload(s) <= target || r.None? {
      ReclaimsNothing(s);
    } else {
      var t := DropResidual(s, r.value, reason);
      ReclaimsResidual(s, r.value, reason);
      DropLowersPlanes(s, r.value, reason);
      ReclaimsDrainResiduals(cfg, t, target, reason);
      ReclaimsTrans(s, t, DrainResiduals(cfg, t, target, reason));
    }
  }

  lemma {:induction false} ReclaimsDrainBases(cfg: Config, s: State, target: nat, reason: Reason)
    ensures Reclaims(s, DrainBases(cfg, s, target, reason))
    decreases Sum(Planes, s.slots)
  {
    var b := BaseVictim(cfg, s.slots, None);
    if Payload(s) <= target || b.None? {
      ReclaimsNothing(s);
    } else {
      var t := DropBase(s, b.value, reason);
      ReclaimsBase(s, b.value, reason);
      DropLowersPlanes(s, b.value, reason);
      ReclaimsDrainBases(cfg, t, target, reason);
      ReclaimsTrans(s, t, DrainBases(cfg, t, target, reason));
    }
  }

  lemma {:induction false} ReclaimsPressure(cfg: Config, s: State, level: Pressure, target: nat)
    ensures Reclaims(s, Pressed(cfg, s, level, target))
  {
    match level {
      case Normal => ReclaimsNothing(s);
      case Warn => ReclaimsDrainResiduals(cfg, s, target, PressureWarn);
      case Critical =>
        var t := DrainResiduals(cfg, s, target, PressureCritical);
        ReclaimsDrainResiduals(cfg, s, target, PressureCritical);
        ReclaimsDrainBases(cfg, t, target, PressureCritical);
        ReclaimsTrans(s, t, DrainBases(cfg, t, target, PressureCritical));
    }
  }

  lemma {:induction false} ReclaimsAll(s: State, i: nat)
    requires forall j :: 0 <= j < |s.slots| && s.slots[j].Resident? ==> s.slots[j].pins == 0
    requires i <= |s.slots| && forall j :: 0 <= j < i ==> s.slots[j].Vacant?
    ensures Reclaims(s, ReleaseFrom(s, i))
    ensures forall j :: 0 <= j < |s.slots| ==> ReleaseFrom(s, i).slots[j].Vacant?
    decreases |s.slots| - i
  {
    if i == |s.slots| {
      ReclaimsNothing(s);
    } else {
      var t := if s.slots[i].Resident? then DropBase(s, i, DestroyAll) else s;
      if s.slots[i].Resident? {
        ReclaimsBase(s, i, DestroyAll);
      } else {
        ReclaimsNothing(s);
      }
      ReclaimsAll(t, i + 1);
      ReclaimsTrans(s, t, ReleaseFrom(t, i + 1));
    }
  }
}
