/** can_make_room proves what make_room then relies on: the planning pass, which
    never touches a plane, and the mutating pass choose the same victims.
    The argument holds for every way of choosing that looks at base planes only
    when it picks a base; LRU and 2Q are two of those. */
module CachePlan {
  import opened Basics
  import opened CacheTypes
  import opened CachePolicy
  import opened CacheModel

  // ---- What a plan and an execution look like -----------------------------

  function Vacate(slots: seq<Entry>, victims: seq<nat>): (r: seq<Entry>)
    ensures |r| == |slots|
    decreases |victims|
  {
    if victims == [] then slots
    else if victims[0] < |slots| then Vacate(slots[victims[0] := Vacant], victims[1..])
    else Vacate(slots, victims[1..])
  }

  /** The release events of evicting `victims`, in order, none holding a residual. */
  function Evictions(slots: seq<Entry>, victims: seq<nat>): seq<Event> {
    if victims == [] then []
    else if victims[0] < |slots| && slots[victims[0]].Resident? then
      [Event(slots[victims[0]].key, BasePlane, Eviction, slots[victims[0]].base)] + Evictions(slots, victims[1..])
    else Evictions(slots, victims[1..])
  }

  ghost predicate NoFreeable(slots: seq<Entry>) {
    forall i :: 0 <= i < |slots| ==> !ResidualEligible(slots[i])
  }

  /** What the two passes need of the choice: a residual is offered while one
      may be demoted, only unpinned entries are offered, and the base on offer
      depends on base planes alone. */
  ghost predicate Sensible(choose: Chooser) {
    && (forall slots: seq<Entry> :: choose.residual(slots).None? ==> NoFreeable(slots))
    && (forall slots: seq<Entry> :: choose.residual(slots).Some? ==>
          choose.residual(slots).value < |slots| && ResidualEligible(slots[choose.residual(slots).value]))
    && (forall slots: seq<Entry> :: choose.base(slots).Some? ==>
          Picks(slots, choose.base(slots)) && slots[choose.base(slots).value].pins == 0)
    && (forall a: seq<Entry>, b: seq<Entry> {:trigger SameBases(a, b)} ::
          SameBases(a, b) ==> choose.base(a) == choose.base(b))
  }

  // ---- Sums under one release ---------------------------------------------

  lemma {:induction false} DropResidualSums(s: State, i: nat, reason: Reason)
    requires i < |s.slots| && ResidualEligible(s.slots[i])
    ensures var t := DropResidual(s, i, reason); var c := s.slots[i].residual.value.charge;
            && Payload(t) + c == Payload(s)
            && Sum(FreeableResidual, t.slots) + c == Sum(FreeableResidual, s.slots)
            && Count(t) == Count(s)
  {
    var e := s.slots[i].(residual := None);
    SumUpdate(TotalCharge, s.slots, i, e);
    SumUpdate(FreeableResidual, s.slots, i, e);
    SumUpdate(Entries, s.slots, i, e);
  }

  lemma {:induction false} DropBaseSums(s: State, i: nat, reason: Reason)
    requires i < |s.slots| && s.slots[i].Resident? && s.slots[i].residual.None?
    ensures var t := DropBase(s, i, reason);
            && Payload(t) + s.slots[i].base.charge == Payload(s)
            && Count(t) + 1 == Count(s)
  {
    SumUpdate(TotalCharge, s.slots, i, Vacant);
    SumUpdate(Entries, s.slots, i, Vacant);
  }

  // ---- Shape of a plan ----------------------------------------------------

  /** A plan names distinct resident unpinned bases. */
  lemma {:induction false} PlanMembers(choose: Chooser, slots: seq<Entry>, gap: int, slot: bool, plan: seq<nat>)
    requires Sensible(choose)
    requires GreedyPlan(choose, slots, gap, slot) == Some(plan)
    ensures forall k :: 0 <= k < |plan| ==> plan[k] < |slots| && slots[plan[k]].Resident? && slots[plan[k]].pins == 0
    ensures forall j, k :: 0 <= j < k < |plan| ==> plan[j] != plan[k]
    decreases |plan|
  {
    if gap > 0 || slot {
      var v := choose.base(slots).value;
      var rest := plan[1..];
      assert plan == [v] + rest;
      PlanMembers(choose, slots[v := Vacant], gap - slots[v].base.charge, false, rest);
    }
  }

  lemma {:induction false} SameBasesPlan(choose: Chooser, a: seq<Entry>, b: seq<Entry>, gap: int, slot: bool)
    requires Sensible(choose) && SameBases(a, b)
    ensures GreedyPlan(choose, a, gap, slot) == GreedyPlan(choose, b, gap, slot)
    decreases Sum(Entries, a)
  {
    var victim := choose.base(a);
    assert choose.base(b) == victim;
    if (gap > 0 || slot) && victim.Some? {
      var v := victim.value;
      assert Picks(a, victim) && BaseOnly(a[v]) == BaseOnly(b[v]);
      SameWithout(a, b, v);
      SumUpdate(Entries, a, v, Vacant);
      SameBasesPlan(choose, a[v := Vacant], b[v := Vacant], gap - a[v].base.charge, false);
      GreedyStep(choose, a, gap, slot, v);
      GreedyStep(choose, b, gap, slot, v);
    }
  }

  lemma SameWithout(a: seq<Entry>, b: seq<Entry>, v: nat)
    requires SameBases(a, b) && v < |a|
    ensures SameBases(a[v := Vacant], b[v := Vacant])
  {
  }

  /** Once the bytes are covered, by how much is irrelevant. */
  lemma CoveredPlan(choose: Chooser, slots: seq<Entry>, gap: int, gap': int, slot: bool)
    requires gap == gap' || (gap <= 0 && gap' <= 0)
    ensures GreedyPlan(choose, slots, gap, slot) == GreedyPlan(choose, slots, gap', slot)
  {
  }

  /** Events of later victims do not depend on an earlier, different victim. */
  lemma {:induction false} EvictionsAfter(slots: seq<Entry>, v: nat, victims: seq<nat>)
    requires v < |slots|
    requires forall k :: 0 <= k < |victims| ==> victims[k] != v
    ensures Evictions(slots[v := Vacant], victims) == Evictions(slots, victims)
  {
    if victims != [] {
      EvictionsAfter(slots, v, victims[1..]);
    }
  }

  lemma {:induction false} EvictionsCons(slots: seq<Entry>, plan: seq<nat>, log: seq<Event>)
    requires plan != [] && plan[0] < |slots| && slots[plan[0]].Resident?
    requires forall j, k :: 0 <= j < k < |plan| ==> plan[j] != plan[k]
    ensures var e := slots[plan[0]];
            log + [Event(e.key, BasePlane, Eviction, e.base)] + Evictions(slots[plan[0] := Vacant], plan[1..])
            == log + Evictions(slots, plan)
  {
    EvictionsAfter(slots, plan[0], plan[1..]);
  }

  // ---- Phase two: no demotable residual is left ---------------------------

  /** How the planner's bookkeeping (gap, slot) tracks the live state. */
  ghost predicate Tracks(cfg: Config, s: State, incoming: nat, needSlot: bool, gap: int, slot: bool) {
    && |s.slots| == cfg.maxEntries
    && NoFreeable(s.slots)
    && (gap == Payload(s) + incoming - cfg.budget || (gap <= 0 && Payload(s) + incoming <= cfg.budget))
    && (slot ==> needSlot && (gap <= 0 ==> Count(s) >= cfg.maxEntries))
    && (needSlot && !slot ==> Count(s) < cfg.maxEntries)
  }

  lemma {:induction false} StillTracks(cfg: Config, s: State, incoming: nat, needSlot: bool, gap: int, slot: bool,
                                       v: nat)
    requires Tracks(cfg, s, incoming, needSlot, gap, slot)
    requires gap > 0 || slot
    requires v < |s.slots| && s.slots[v].Resident? && s.slots[v].pins == 0
    ensures s.slots[v].residual.None? && !Enough(cfg, s, incoming, needSlot)
    ensures Tracks(cfg, DropBase(s, v, Eviction), incoming, needSlot, gap - s.slots[v].base.charge, false)
  {
    assert !ResidualEligible(s.slots[v]);
    DropBaseSums(s, v, Eviction);
    CountAtMost(s.slots);
  }

  lemma GreedyStep(choose: Chooser, slots: seq<Entry>, gap: int, slot: bool, v: nat)
    requires gap > 0 || slot
    requires choose.base(slots) == Some(v) && v < |slots| && slots[v].Resident?
    ensures GreedyPlan(choose, slots, gap, slot)
            == Prepend(v, GreedyPlan(choose, slots[v := Vacant], gap - slots[v].base.charge, false))
  {
  }

  lemma RoomEvicts(choose: Chooser, cfg: Config, s: State, incoming: nat, needSlot: bool, v: nat)
    requires !Enough(cfg, s, incoming, needSlot)
    requires choose.residual(s.slots).None?
    requires choose.base(s.slots) == Some(v) && v < |s.slots| && s.slots[v].Resident?
    ensures MakeRoom(choose, cfg, s, incoming, needSlot)
            == MakeRoom(choose, cfg, DropBase(s, v, Eviction), incoming, needSlot)
  {
  }

  lemma {:induction false} EvictStep(choose: Chooser, cfg: Config, s: State, incoming: nat, needSlot: bool, gap: int,
                                     slot: bool, v: nat)
    requires Sensible(choose)
    requires Tracks(cfg, s, incoming, needSlot, gap, slot)
    requires gap > 0 || slot
    requires choose.base(s.slots) == Some(v)
    ensures v < |s.slots| && s.slots[v].Resident? && s.slots[v].residual.None?
    ensures var t := DropBase(s, v, Eviction);
            && MakeRoom(choose, cfg, s, incoming, needSlot) == MakeRoom(choose, cfg, t, incoming, needSlot)
            && Tracks(cfg, t, incoming, needSlot, gap - s.slots[v].base.charge, false)
            && GreedyPlan(choose, s.slots, gap, slot)
               == Prepend(v, GreedyPlan(choose, t.slots, gap - s.slots[v].base.charge, false))
            && t.slots == s.slots[v := Vacant]
            && t.log == s.log + [Event(s.slots[v].key, BasePlane, Eviction, s.slots[v].base)]
  {
    assert choose.residual(s.slots).None?;
    StillTracks(cfg, s, incoming, needSlot, gap, slot, v);
    GreedyStep(choose, s.slots, gap, slot, v);
    RoomEvicts(choose, cfg, s, incoming, needSlot, v);
  }

  lemma {:induction false} PrependTail(v: nat, rest: Option<seq<nat>>, plan: seq<nat>)
    requires Prepend(v, rest) == Some(plan)
    ensures plan != [] && plan[0] == v && rest == Some(plan[1..])
  {
    assert plan[1..] == rest.value;
  }

  lemma {:induction false} EvictionPhase(choose: Chooser, cfg: Config, s: State, incoming: nat, needSlot: bool,
                                         gap: int, slot: bool, plan: seq<nat>)
    requires Sensible(choose)
    requires Tracks(cfg, s, incoming, needSlot, gap, slot)
    requires GreedyPlan(choose, s.slots, gap, slot) == Some(plan)
    ensures Enough(cfg, MakeRoom(choose, cfg, s, incoming, needSlot), incoming, needSlot)
    ensures MakeRoom(choose, cfg, s, incoming, needSlot).slots == Vacate(s.slots, plan)
    decreases |plan|
  {
    if gap > 0 || slot {
      var v := choose.base(s.slots).value;
      EvictStep(choose, cfg, s, incoming, needSlot, gap, slot, v);
      var t, gap' := DropBase(s, v, Eviction), gap - s.slots[v].base.charge;
      PrependTail(v, GreedyPlan(choose, t.slots, gap', false), plan);
      EvictionPhase(choose, cfg, t, incoming, needSlot, gap', false, plan[1..]);
    }
  }

  lemma {:induction false} EvictionLog(choose: Chooser, cfg: Config, s: State, incoming: nat, needSlot: bool, gap: int,
                                       slot: bool, plan: seq<nat>)
    requires Sensible(choose)
    requires Tracks(cfg, s, incoming, needSlot, gap, slot)
    requires GreedyPlan(choose, s.slots, gap, slot) == Some(plan)
    ensures MakeRoom(choose, cfg, s, incoming, needSlot).log == s.log + Evictions(s.slots, plan)
    decreases |plan|
  {
    if gap > 0 || slot {
      var v := choose.base(s.slots).value;
      EvictStep(choose, cfg, s, incoming, needSlot, gap, slot, v);
      var t, gap' := DropBase(s, v, Eviction), gap - s.slots[v].base.charge;
      PrependTail(v, GreedyPlan(choose, t.slots, gap', false), plan);
      EvictionLog(choose, cfg, t, incoming, needSlot, gap', false, plan[1..]);
      PlanMembers(choose, s.slots, gap, slot, plan);
      EvictionsCons(s.slots, plan, s.log);
    }
  }

  lemma {:induction false} StuckPhase(choose: Chooser, cfg: Config, s: State, incoming: nat, needSlot: bool, gap: int,
                                      slot: bool)
    requires Sensible(choose)
    requires Tracks(cfg, s, incoming, needSlot, gap, slot)
    requires GreedyPlan(choose, s.slots, gap, slot) == None
    ensures !Enough(cfg, MakeRoom(choose, cfg, s, incoming, needSlot), incoming, needSlot)
    decreases Sum(Entries, s.slots)
  {
    var victim := choose.base(s.slots);
    if victim.Some? {
      StuckStep(choose, cfg, s, incoming, needSlot, gap, slot, victim.value);
      StuckPhase(choose, cfg, DropBase(s, victim.value, Eviction), incoming, needSlot,
                 gap - s.slots[victim.value].base.charge, false);
    } else {
      assert choose.residual(s.slots).None?;
      RoomStuck(choose, cfg, s, incoming, needSlot);
    }
  }

  lemma {:induction false} StuckStep(choose: Chooser, cfg: Config, s: State, incoming: nat, needSlot: bool, gap: int,
                                     slot: bool, v: nat)
    requires Sensible(choose) && Tracks(cfg, s, incoming, needSlot, gap, slot)
    requires GreedyPlan(choose, s.slots, gap, slot) == None && choose.base(s.slots) == Some(v)
    ensures v < |s.slots| && s.slots[v].Resident?
    ensures var t, rest := DropBase(s, v, Eviction), gap - s.slots[v].base.charge;
            && Tracks(cfg, t, incoming, needSlot, rest, false) && GreedyPlan(choose, t.slots, rest, false) == None
            && MakeRoom(choose, cfg, s, incoming, needSlot) == MakeRoom(choose, cfg, t, incoming, needSlot)
            && Sum(Entries, t.slots) < Sum(Entries, s.slots)
  {
    EvictStep(choose, cfg, s, incoming, needSlot, gap, slot, v);
    SumUpdate(Entries, s.slots, v, Vacant);
    GreedyNone(choose, s.slots, gap, slot, v);
  }

  lemma {:induction false} GreedyNone(choose: Chooser, slots: seq<Entry>, gap: int, slot: bool, v: nat)
    requires (gap > 0 || slot) && GreedyPlan(choose, slots, gap, slot) == None
    requires choose.base(slots) == Some(v) && v < |slots| && slots[v].Resident?
    ensures GreedyPlan(choose, slots[v := Vacant], gap - slots[v].base.charge, false) == None
  {
    GreedyStep(choose, slots, gap, slot, v);
  }

  lemma RoomStuck(choose: Chooser, cfg: Config, s: State, incoming: nat, needSlot: bool)
    requires choose.residual(s.slots).None? && choose.base(s.slots).None?
    ensures MakeRoom(choose, cfg, s, incoming, needSlot) == s
  {
  }

  // ---- Phase one: residuals leave first -----------------------------------

  lemma {:induction false} NoneFreeable(slots: seq<Entry>)
    requires NoFreeable(slots)
    ensures Sum(FreeableResidual, slots) == 0
  {
    if Sum(FreeableResidual, slots) > 0 {
      var i := SumPositive(FreeableResidual, slots);
    }
  }

  lemma RoomDemotes(choose: Chooser, cfg: Config, s: State, incoming: nat, needSlot: bool, r: nat)
    requires !Enough(cfg, s, incoming, needSlot)
    requires choose.residual(s.slots) == Some(r) && r < |s.slots| && ResidualEligible(s.slots[r])
    ensures MakeRoom(choose, cfg, s, incoming, needSlot)
            == MakeRoom(choose, cfg, DropResidual(s, r, Demotion), incoming, needSlot)
  {
  }

  /** Demoting a residual the planner already counted does not change the plan. */
  lemma {:induction false} PlanUnmoved(choose: Chooser, cfg: Config, s: State, incoming: nat, needSlot: bool, r: nat)
    requires Sensible(choose)
    requires r < |s.slots| && ResidualEligible(s.slots[r])
    ensures Plan(choose, cfg, s, incoming, needSlot)
            == Plan(choose, cfg, DropResidual(s, r, Demotion), incoming, needSlot)
  {
    var t := DropResidual(s, r, Demotion);
    var gap := Deficit(cfg, s, incoming) - Sum(FreeableResidual, s.slots);
    var gap' := Deficit(cfg, t, incoming) - Sum(FreeableResidual, t.slots);
    GapUnmoved(cfg, s, incoming, needSlot, r);
    SameBasesPlan(choose, s.slots, t.slots, gap, needSlot);
    CoveredPlan(choose, t.slots, gap, gap', needSlot);
  }

  lemma {:induction false} GapUnmoved(cfg: Config, s: State, incoming: nat, needSlot: bool, r: nat)
    requires r < |s.slots| && ResidualEligible(s.slots[r])
    ensures var t := DropResidual(s, r, Demotion);
            var gap := Deficit(cfg, s, incoming) - Sum(FreeableResidual, s.slots);
            var gap' := Deficit(cfg, t, incoming) - Sum(FreeableResidual, t.slots);
            && (gap == gap' || (gap <= 0 && gap' <= 0))
            && MustEvict(cfg, s, incoming, needSlot) == MustEvict(cfg, t, incoming, needSlot)
  {
    DropResidualSums(s, r, Demotion);
  }

  lemma {:induction false} VacateSame(a: seq<Entry>, b: seq<Entry>, plan: seq<nat>)
    requires SameBases(a, b)
    ensures SameBases(Vacate(a, plan), Vacate(b, plan))
    decreases |plan|
  {
    if plan != [] {
      if plan[0] < |a| {
        VacateSame(a[plan[0] := Vacant], b[plan[0] := Vacant], plan[1..]);
      } else {
        VacateSame(a, b, plan[1..]);
      }
    }
  }

  lemma {:induction false} EvictionsSame(a: seq<Entry>, b: seq<Entry>, plan: seq<nat>)
    requires SameBases(a, b)
    ensures Evictions(a, plan) == Evictions(b, plan)
  {
    if plan != [] {
      EvictionsSame(a, b, plan[1..]);
      assert plan[0] < |a| ==> BaseOnly(a[plan[0]]) == BaseOnly(b[plan[0]]);
    }
  }

  ghost predicate Demotions(events: seq<Event>) {
    forall k :: 0 <= k < |events| ==> events[k].kind == ResidualPlane && events[k].reason == Demotion
  }

  /** What make_room has done when it stops, for a given plan. */
  ghost predicate Executes(s: State, t: State, plan: seq<nat>, demoted: seq<Event>) {
    && Demotions(demoted)
    && t.log == s.log + demoted + Evictions(s.slots, plan)
    && SameBases(t.slots, Vacate(s.slots, plan))
    && (plan != [] ==> NoFreeable(t.slots))
  }

  lemma {:induction false} VacateNoFreeable(slots: seq<Entry>, plan: seq<nat>)
    requires NoFreeable(slots)
    ensures NoFreeable(Vacate(slots, plan))
    decreases |plan|
  {
    if plan != [] {
      if plan[0] < |slots| {
        VacateNoFreeable(slots[plan[0] := Vacant], plan[1..]);
      } else {
        VacateNoFreeable(slots, plan[1..]);
      }
    }
  }

  lemma {:induction false} BarePlan(choose: Chooser, cfg: Config, s: State, incoming: nat, needSlot: bool)
    requires |s.slots| == cfg.maxEntries
    requires NoFreeable(s.slots) && !Enough(cfg, s, incoming, needSlot) && incoming <= cfg.budget
    ensures Tracks(cfg, s, incoming, needSlot, Deficit(cfg, s, incoming), needSlot)
    ensures Plan(choose, cfg, s, incoming, needSlot)
            == GreedyPlan(choose, s.slots, Deficit(cfg, s, incoming), needSlot)
  {
    NoneFreeable(s.slots);
  }

  /** With no residual left to demote, planning and executing coincide. */
  lemma {:induction false} AgreeWhenBare(choose: Chooser, cfg: Config, s: State, incoming: nat, needSlot: bool)
    requires Sensible(choose) && |s.slots| == cfg.maxEntries
    requires NoFreeable(s.slots) && !Enough(cfg, s, incoming, needSlot) && incoming <= cfg.budget
    ensures var plan := Plan(choose, cfg, s, incoming, needSlot);
            var t := MakeRoom(choose, cfg, s, incoming, needSlot);
            && plan.Some? == Enough(cfg, t, incoming, needSlot)
            && (plan.Some? ==> Executes(s, t, plan.value, []))
  {
    BarePlan(choose, cfg, s, incoming, needSlot);
    var gap := Deficit(cfg, s, incoming);
    var plan := Plan(choose, cfg, s, incoming, needSlot);
    if plan.Some? {
      EvictionPhase(choose, cfg, s, incoming, needSlot, gap, needSlot, plan.value);
      EvictionLog(choose, cfg, s, incoming, needSlot, gap, needSlot, plan.value);
      BareExecutes(s, MakeRoom(choose, cfg, s, incoming, needSlot), plan.value);
    } else {
      StuckPhase(choose, cfg, s, incoming, needSlot, gap, needSlot);
    }
  }

  lemma {:induction false} BareExecutes(s: State, t: State, plan: seq<nat>)
    requires NoFreeable(s.slots)
    requires t.slots == Vacate(s.slots, plan) && t.log == s.log + Evictions(s.slots, plan)
    ensures Executes(s, t, plan, [])
  {
    VacateNoFreeable(s.slots, plan);
    assert s.log + [] == s.log;
  }

  lemma NeverFits(choose: Chooser, cfg: Config, s: State, incoming: nat, needSlot: bool)
    requires incoming > cfg.budget
    ensures Plan(choose, cfg, s, incoming, needSlot).None?
    ensures !Enough(cfg, MakeRoom(choose, cfg, s, incoming, needSlot), incoming, needSlot)
  {
  }

  lemma {:induction false} DemoteFirst(s: State, r: nat, t: State, plan: seq<nat>, demoted: seq<Event>)
    requires r < |s.slots| && ResidualEligible(s.slots[r])
    requires Executes(DropResidual(s, r, Demotion), t, plan, demoted)
    ensures Executes(s, t, plan, [Event(s.slots[r].key, ResidualPlane, Demotion, s.slots[r].residual.value)] + demoted)
  {
    var s' := DropResidual(s, r, Demotion);
    var e := Event(s.slots[r].key, ResidualPlane, Demotion, s.slots[r].residual.value);
    assert SameBases(s'.slots, s.slots);
    VacateSame(s'.slots, s.slots, plan);
    EvictionsSame(s'.slots, s.slots, plan);
    assert s.log + [e] + demoted == s.log + ([e] + demoted);
  }

  /** The plan succeeds exactly when executing reaches its goal, and then the
      execution demotes residuals only, and evicts exactly the planned bases in
      the planned order; if any base goes, every unpinned residual has gone. */
  lemma {:induction false} PlanAgrees(choose: Chooser, cfg: Config, s: State, incoming: nat, needSlot: bool)
    returns (demoted: seq<Event>)
    requires Sensible(choose) && |s.slots| == cfg.maxEntries
    ensures var plan := Plan(choose, cfg, s, incoming, needSlot);
            var t := MakeRoom(choose, cfg, s, incoming, needSlot);
            && plan.Some? == Enough(cfg, t, incoming, needSlot)
            && (plan.Some? ==> Executes(s, t, plan.value, demoted))
    decreases Sum(Planes, s.slots)
  {
    demoted := [];
    if incoming > cfg.budget {
      NeverFits(choose, cfg, s, incoming, needSlot);
    } else if Enough(cfg, s, incoming, needSlot) {
      assert Executes(s, s, [], []);
    } else {
      var r := choose.residual(s.slots);
      if r.None? {
        AgreeWhenBare(choose, cfg, s, incoming, needSlot);
      } else {
        var s' := DropResidual(s, r.value, Demotion);
        DropLowersPlanes(s, r.value, Demotion);
        RoomDemotes(choose, cfg, s, incoming, needSlot, r.value);
        PlanUnmoved(choose, cfg, s, incoming, needSlot, r.value);
        var later := PlanAgrees(choose, cfg, s', incoming, needSlot);
        var plan := Plan(choose, cfg, s, incoming, needSlot);
        if plan.Some? {
          DemoteFirst(s, r.value, MakeRoom(choose, cfg, s', incoming, needSlot), plan.value, later);
        }
        demoted := [Event(s.slots[r.value].key, ResidualPlane, Demotion, s.slots[r.value].residual.value)] + later;
      }
    }
  }

  // ---- The two policies ---------------------------------------------------

  lemma {:induction false} SameVictim(cfg: Config, protect: Option<nat>, a: seq<Entry>, b: seq<Entry>)
    requires SameBases(a, b)
    ensures BaseVictim(cfg, a, protect) == BaseVictim(cfg, b, protect)
  {
    var c, d := BaseCandidates(cfg.floors, a, protect), BaseCandidates(cfg.floors, b, protect);
    forall i: nat | i < |a|
      ensures BaseEligible(cfg.floors, a, i) == BaseEligible(cfg.floors, b, i)
    {
      assert BaseOnly(a[i]) == BaseOnly(b[i]);
      if a[i].Resident? {
        SumSame(LayerEntries(a[i].key.layer), a, b);
        SumSame(LayerBase(a[i].key.layer), a, b);
      }
    }
    assert c == d;
    var v, w := BaseVictim(cfg, a, protect), BaseVictim(cfg, b, protect);
    if v.Some? {
      assert IsLeast(cfg.policy, b, d, v.value);
      LeastUnique(cfg.policy, b, d, v.value, w.value);
    }
  }

  lemma {:induction false} PolicySensible(cfg: Config, protect: Option<nat>)
    ensures Sensible(PolicyChooser(cfg, protect))
    ensures protect.Some? ==> forall slots :: PolicyChooser(cfg, protect).base(slots) != protect
  {
    forall a: seq<Entry>, b: seq<Entry> | SameBases(a, b)
      ensures PolicyChooser(cfg, protect).base(a) == PolicyChooser(cfg, protect).base(b)
    {
      SameVictim(cfg, protect, a, b);
    }
  }
}
