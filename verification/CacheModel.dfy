/** The expert cache as a state machine over its slots: what each public
    operation does, with byte totals read off the slots, lookup by key, and
    victims named by the policy. Hash buckets, running counters and planning
    marks do not exist at this level. */
module CacheModel {
  import opened Basics
  import opened CacheTypes
  import opened CachePolicy

  /** log, admitted, touched and arrived are the history of the run, oldest
      first: planes released, handles accepted, keys stamped by the clock, and
      keys inserted. */
  datatype State = State(slots: seq<Entry>, clock: nat, peak: nat, alive: bool,
                         log: seq<Event>, admitted: seq<Handle>, touched: seq<Key>, arrived: seq<Key>)

  datatype Reply = Reply(status: Status, lookup: Lookup, view: Option<Entry>, reclaimed: nat)

  datatype Op =
    | Get(key: Key, requirement: Requirement)
    | Pin(key: Key)
    | Unpin(key: Key)
    | InsertBase(key: Key, payload: Handle, logical: nat, read: nat, prefetch: bool)
    | Promote(key: Key, payload: Handle, logical: nat, read: nat, prefetch: bool)
    | Remove(key: Key)
    | ApplyPressure(level: Pressure, target: nat)
    | Destroy

  function Fail(status: Status): Reply {
    Reply(status, NoLookup, None, 0)
  }

  function Done(view: Option<Entry>): Reply {
    Reply(Ok, NoLookup, view, 0)
  }

  function Initial(cfg: Config): State {
    State(seq(cfg.maxEntries, _ => Vacant), 0, 0, true, [], [], [], [])
  }

  // ---- Observations -------------------------------------------------------

  function Payload(s: State): nat {
    Sum(TotalCharge, s.slots)
  }

  function Count(s: State): nat {
    Sum(Entries, s.slots)
  }

  predicate HasKey(e: Entry, key: Key) {
    e.Resident? && e.key == key
  }

  predicate Holds(e: Entry, h: Handle) {
    e.Resident? && (e.base.payload == h || (e.residual.Some? && e.residual.value.payload == h))
  }

  ghost function Find(slots: seq<Entry>, key: Key): (r: Option<nat>)
    ensures r.Some? ==> r.value < |slots| && HasKey(slots[r.value], key)
    ensures r.None? ==> forall i :: 0 <= i < |slots| ==> !HasKey(slots[i], key)
  {
    if exists i: nat :: i < |slots| && HasKey(slots[i], key) then
      var i: nat :| i < |slots| && HasKey(slots[i], key);
      Some(i)
    else None
  }

  ghost predicate InUse(slots: seq<Entry>, h: Handle) {
    exists i :: 0 <= i < |slots| && Holds(slots[i], h)
  }

  /** Lowest vacant slot. */
  ghost function FreeSlot(slots: seq<Entry>): (r: Option<nat>)
    ensures r.Some? ==> r.value < |slots| && slots[r.value].Vacant?
                        && forall i :: 0 <= i < r.value ==> slots[i].Resident?
    ensures r.None? ==> forall i :: 0 <= i < |slots| ==> slots[i].Resident?
  {
    if slots == [] then None
    else
      var front := FreeSlot(slots[..|slots| - 1]);
      if front.Some? then front
      else if slots[|slots| - 1].Vacant? then Some(|slots| - 1)
      else None
  }

  // ---- Releasing planes ---------------------------------------------------

  function DropResidual(s: State, i: nat, reason: Reason): State
    requires i < |s.slots| && s.slots[i].Resident? && s.slots[i].residual.Some?
  {
    var e := s.slots[i];
    s.(slots := s.slots[i := e.(residual := None)],
       log := s.log + [Event(e.key, ResidualPlane, reason, e.residual.value)])
  }

  /** A residual always leaves before its base. */
  function DropBase(s: State, i: nat, reason: Reason): State
    requires i < |s.slots| && s.slots[i].Resident?
  {
    var e := s.slots[i];
    var t := if e.residual.Some? then DropResidual(s, i, reason) else s;
    t.(slots := t.slots[i := Vacant],
       log := t.log + [Event(e.key, BasePlane, reason, e.base)])
  }

  lemma {:induction false} DropLowersPlanes(s: State, i: nat, reason: Reason)
    requires i < |s.slots| && s.slots[i].Resident?
    ensures Sum(Planes, DropBase(s, i, reason).slots) < Sum(Planes, s.slots)
    ensures s.slots[i].residual.Some? ==>
              Sum(Planes, DropResidual(s, i, reason).slots) < Sum(Planes, s.slots)
  {
    var e := s.slots[i];
    if e.residual.Some? {
      var r := e.(residual := None);
      SumUpdate(Planes, s.slots, i, r);
      SumUpdate(Planes, s.slots[i := r], i, Vacant);
    } else {
      SumUpdate(Planes, s.slots, i, Vacant);
    }
  }

  // ---- Admission ----------------------------------------------------------

  /** Bytes still to be reclaimed before `incoming` fits (required_reclaim). */
  function Deficit(cfg: Config, s: State, incoming: nat): nat {
    if Payload(s) + incoming > cfg.budget then Payload(s) + incoming - cfg.budget else 0
  }

  predicate Enough(cfg: Config, s: State, incoming: nat, needSlot: bool) {
    Deficit(cfg, s, incoming) == 0 && !(needSlot && Count(s) >= cfg.maxEntries)
  }

  predicate MustEvict(cfg: Config, s: State, incoming: nat, needSlot: bool) {
    || (needSlot && Count(s) >= cfg.maxEntries)
    || Sum(FreeableResidual, s.slots) < Deficit(cfg, s, incoming)
  }

  /** The bases can_make_room plans to evict: none if residuals suffice. */
  function Plan(choose: Chooser, cfg: Config, s: State, incoming: nat, needSlot: bool): Option<seq<nat>> {
    if incoming > cfg.budget then None
    else if !MustEvict(cfg, s, incoming, needSlot) then Some([])
    else GreedyPlan(choose, s.slots, Deficit(cfg, s, incoming) - Sum(FreeableResidual, s.slots), needSlot)
  }

  /** make_room: residuals first, then bases, one victim at a time. */
  function MakeRoom(choose: Chooser, cfg: Config, s: State, incoming: nat, needSlot: bool): (t: State)
    ensures |t.slots| == |s.slots|
    decreases Sum(Planes, s.slots)
  {
    if Enough(cfg, s, incoming, needSlot) then s
    else
      var r := choose.residual(s.slots);
      if Picks(s.slots, r) && s.slots[r.value].residual.Some? then
        DropLowersPlanes(s, r.value, Demotion);
        MakeRoom(choose, cfg, DropResidual(s, r.value, Demotion), incoming, needSlot)
      else
        var b := choose.base(s.slots);
        if Picks(s.slots, b) then
          DropLowersPlanes(s, b.value, Eviction);
          MakeRoom(choose, cfg, DropBase(s, b.value, Eviction), incoming, needSlot)
        else s
  }

  /** A slot the chooser never picks as a base keeps its base. */
  lemma {:induction false} ProtectedStays(choose: Chooser, cfg: Config, s: State, incoming: nat, needSlot: bool, i: nat)
    requires i < |s.slots| && s.slots[i].Resident?
    requires forall slots :: choose.base(slots) != Some(i)
    ensures MakeRoom(choose, cfg, s, incoming, needSlot).slots[i].Resident?
    decreases Sum(Planes, s.slots)
  {
    if !Enough(cfg, s, incoming, needSlot) {
      var r := choose.residual(s.slots);
      if Picks(s.slots, r) && s.slots[r.value].residual.Some? {
        DropLowersPlanes(s, r.value, Demotion);
        ProtectedStays(choose, cfg, DropResidual(s, r.value, Demotion), incoming, needSlot, i);
      } else {
        var b := choose.base(s.slots);
        if Picks(s.slots, b) {
          DropLowersPlanes(s, b.value, Eviction);
          ProtectedStays(choose, cfg, DropBase(s, b.value, Eviction), incoming, needSlot, i);
        }
      }
    }
  }

  // ---- Clock --------------------------------------------------------------

  function Halve(stamp: nat): nat {
    stamp / 2 + 1
  }

  function Renormalise(e: Entry): Entry {
    if e.Vacant? then e
    else e.(lastAccess := Halve(e.lastAccess), admissionOrder := Halve(e.admissionOrder))
  }

  function RenormaliseAll(slots: seq<Entry>): (r: seq<Entry>)
    ensures |r| == |slots| && forall i :: 0 <= i < |slots| ==> r[i] == Renormalise(slots[i])
  {
    seq(|slots|, i requires 0 <= i < |slots| => Renormalise(slots[i]))
  }

  /** next_clock: the new stamp is the resulting clock. */
  function Tick(s: State): State {
    if s.clock == U64_MAX then s.(slots := RenormaliseAll(s.slots), clock := Halve(s.clock) + 1)
    else s.(clock := s.clock + 1)
  }

  // ---- Operations ---------------------------------------------------------

  function Touch(cfg: Config, e: Entry, stamp: nat, requirement: Requirement): Entry
    requires e.Resident?
  {
    e.(base := e.base.(unusedPrefetch := false),
       lastAccess := stamp,
       hot := e.hot || cfg.policy == TwoQueue,
       residual := if requirement == RequireFull && e.residual.Some?
                   then Some(e.residual.value.(unusedPrefetch := false)) else e.residual)
  }

  ghost function DoGet(cfg: Config, s: State, key: Key, requirement: Requirement): (State, Reply) {
    if key.layer >= |cfg.floors| then (s, Fail(ErrArgument))
    else
      var found := Find(s.slots, key);
      if found.None? then (s, Reply(Ok, BaseMiss, None, 0))
      else
        var i := found.value;
        var t := Tick(s);
        var e := Touch(cfg, t.slots[i], t.clock, requirement);
        (t.(slots := t.slots[i := e], touched := s.touched + [key]),
         Reply(Ok, if requirement == RequireFull && e.residual.None? then ResidualMiss else Hit, Some(e), 0))
  }

  ghost function DoPin(cfg: Config, s: State, key: Key): (State, Reply) {
    if key.layer >= |cfg.floors| then (s, Fail(ErrArgument))
    else
      var found := Find(s.slots, key);
      if found.None? then (s, Fail(ErrNotFound))
      else
        var e := s.slots[found.value];
        if e.pins == U32_MAX then (s, Fail(ErrOverflow))
        else
          var e' := e.(pins := e.pins + 1);
          (s.(slots := s.slots[found.value := e']), Done(Some(e')))
  }

  ghost function DoUnpin(cfg: Config, s: State, key: Key): (State, Reply) {
    if key.layer >= |cfg.floors| then (s, Fail(ErrArgument))
    else
      var found := Find(s.slots, key);
      if found.None? then (s, Fail(ErrNotFound))
      else
        var e := s.slots[found.value];
        if e.pins == 0 then (s, Fail(ErrPolicy))
        else
          var e' := e.(pins := e.pins - 1);
          (s.(slots := s.slots[found.value := e']), Done(Some(e')))
  }

  function NewEntry(key: Key, p: Plane, stamp: nat): Entry {
    Resident(key, p, None, stamp, stamp, false, 0, false)
  }

  /** Slot i takes a new base plane, stamped by a fresh tick. */
  function Admit(s: State, i: nat, key: Key, p: Plane): (t: State)
    requires i < |s.slots|
    ensures |t.slots| == |s.slots|
  {
    var t := Tick(s);
    var u := t.(slots := t.slots[i := NewEntry(key, p, t.clock)]);
    u.(peak := Max(s.peak, Payload(u)), admitted := s.admitted + [p.payload],
       touched := s.touched + [key], arrived := s.arrived + [key])
  }

  ghost function DoInsert(cfg: Config, s: State, key: Key, payload: Handle, logical: nat, read: nat, prefetch: bool)
    : (State, Reply)
    requires ConfigOk(cfg)
  {
    if payload == 0 || key.layer >= |cfg.floors| then (s, Fail(ErrArgument))
    else
      var (status, charge) := PayloadCharge(cfg, logical);
      var choose := PolicyChooser(cfg, None);
      if status != Ok then (s, Fail(status))
      else if Find(s.slots, key).Some? || InUse(s.slots, payload) then (s, Fail(ErrExists))
      else if Plan(choose, cfg, s, charge, true).None? then (s, Fail(ErrNoSpace))
      else
        var t := MakeRoom(choose, cfg, s, charge, true);
        var slot := FreeSlot(t.slots);
        if slot.None? then (t, Fail(ErrCorrupt))
        else
          var u := Admit(t, slot.value, key, Plane(payload, logical, charge, read, prefetch));
          (u, Done(Some(u.slots[slot.value])))
  }

  /** Slot i, which has none, takes a residual plane; its recency is untouched. */
  function Attach(s: State, i: nat, p: Plane): State
    requires i < |s.slots| && s.slots[i].Resident?
  {
    var u := s.(slots := s.slots[i := s.slots[i].(residual := Some(p))]);
    u.(peak := Max(s.peak, Payload(u)), admitted := s.admitted + [p.payload])
  }

  ghost function DoPromote(cfg: Config, s: State, key: Key, payload: Handle, logical: nat, read: nat, prefetch: bool)
    : (State, Reply)
    requires ConfigOk(cfg)
  {
    if payload == 0 || key.layer >= |cfg.floors| then (s, Fail(ErrArgument))
    else
      var found := Find(s.slots, key);
      if found.None? then (s, Fail(ErrNotFound))
      else if s.slots[found.value].residual.Some? || InUse(s.slots, payload) then (s, Fail(ErrExists))
      else
        var (status, charge) := PayloadCharge(cfg, logical);
        var choose := PolicyChooser(cfg, found);
        if status != Ok then (s, Fail(status))
        else if Plan(choose, cfg, s, charge, false).None? then (s, Fail(ErrNoSpace))
        else
          var t := MakeRoom(choose, cfg, s, charge, false);
          ProtectedStays(choose, cfg, s, charge, false, found.value);
          var u := Attach(t, found.value, Plane(payload, logical, charge, read, prefetch));
          (u, Done(Some(u.slots[found.value])))
  }

  ghost function DoRemove(cfg: Config, s: State, key: Key): (State, Reply) {
    if key.layer >= |cfg.floors| then (s, Fail(ErrArgument))
    else
      var found := Find(s.slots, key);
      if found.None? then (s, Fail(ErrNotFound))
      else if s.slots[found.value].pins != 0 then (s, Fail(ErrPolicy))
      else (DropBase(s, found.value, Explicit), Done(None))
  }

  ghost function DrainResiduals(cfg: Config, s: State, target: nat, reason: Reason): State
    decreases Sum(Planes, s.slots)
  {
    var r := ResidualVictim(cfg, s.slots);
    if Payload(s) <= target || r.None? then s
    else
      DropLowersPlanes(s, r.value, reason);
      DrainResiduals(cfg, DropResidual(s, r.value, reason), target, reason)
  }

  ghost function DrainBases(cfg: Config, s: State, target: nat, reason: Reason): State
    decreases Sum(Planes, s.slots)
  {
    var b := BaseVictim(cfg, s.slots, None);
    if Payload(s) <= target || b.None? then s
    else
      DropLowersPlanes(s, b.value, reason);
      DrainBases(cfg, DropBase(s, b.value, reason), target, reason)
  }

  ghost function Pressed(cfg: Config, s: State, level: Pressure, target: nat): State {
    match level
    case Normal => s
    case Warn => DrainResiduals(cfg, s, target, PressureWarn)
    case Critical => DrainBases(cfg, DrainResiduals(cfg, s, target, PressureCritical), target, PressureCritical)
  }

  ghost function DoPressure(cfg: Config, s: State, level: Pressure, target: nat): (State, Reply) {
    if target > cfg.budget then (s, Fail(ErrSize))
    else
      var t := Pressed(cfg, s, level, target);
      var status := if level == Normal || Payload(t) <= target then Ok else Partial;
      (t, Reply(status, NoLookup, None, if Payload(t) <= Payload(s) then Payload(s) - Payload(t) else 0))
  }

  /** Release every resident slot from i upwards. */
  function ReleaseFrom(s: State, i: nat): State
    decreases |s.slots| - i
  {
    if i >= |s.slots| then s
    else ReleaseFrom(if s.slots[i].Resident? then DropBase(s, i, DestroyAll) else s, i + 1)
  }

  ghost function DoDestroy(s: State): (State, Reply) {
    if exists i :: 0 <= i < |s.slots| && s.slots[i].Resident? && s.slots[i].pins != 0 then (s, Fail(ErrPolicy))
    else (ReleaseFrom(s, 0).(alive := false), Done(None))
  }

  ghost function Step(cfg: Config, s: State, op: Op): (State, Reply)
    requires ConfigOk(cfg)
  {
    if !s.alive then (s, Fail(ErrArgument))
    else
      match op
      case Get(key, requirement) => DoGet(cfg, s, key, requirement)
      case Pin(key) => DoPin(cfg, s, key)
      case Unpin(key) => DoUnpin(cfg, s, key)
      case InsertBase(key, p, l, r, f) => DoInsert(cfg, s, key, p, l, r, f)
      case Promote(key, p, l, r, f) => DoPromote(cfg, s, key, p, l, r, f)
      case Remove(key) => DoRemove(cfg, s, key)
      case ApplyPressure(level, target) => DoPressure(cfg, s, level, target)
      case Destroy => DoDestroy(s)
  }

  /** The state after a whole run of operations, oldest first. */
  ghost function Run(cfg: Config, s: State, ops: seq<Op>): State
    requires ConfigOk(cfg)
  {
    if ops == [] then s
    else Step(cfg, Run(cfg, s, ops[..|ops| - 1]), ops[|ops| - 1]).0
  }
}
