/** What leaves the cache, in what order and when: every operation's release events
    are a trace of single planes, each of which its rule allows in the state it leaves.
    Floors are read off what would remain, without naming the planner. */
module CacheTrace {
  import opened Basics
  import opened CacheTypes
  import opened CachePolicy
  import opened CacheModel
  import opened CachePlan
  import opened CacheInvariant
  import opened CacheTheorems

  // ---- Rules and traces -----------------------------------------------------------------

  /** Why planes leave: room for a newcomer, memory pressure, removal, the end. */
  datatype Rule =
    | Room(protect: Option<nat>, incoming: nat, needSlot: bool)
    | Press(target: nat, critical: bool)
    | RemoveKey(key: Key)
    | Everything

  /** More has to go. */
  predicate Short(cfg: Config, rule: Rule, slots: seq<Entry>) {
    match rule
    case Room(_, incoming, needSlot) =>
      Sum(TotalCharge, slots) + incoming > cfg.budget || (needSlot && Sum(Entries, slots) >= cfg.maxEntries)
    case Press(target, _) => Sum(TotalCharge, slots) > target
    case _ => true
  }

  predicate TakesBases(rule: Rule) { rule.Press? ==> rule.critical }

  function Protected(rule: Rule): Option<nat> { if rule.Room? then rule.protect else None }

  function ReasonFor(rule: Rule, kind: PlaneKind): Reason {
    match rule
    case Room(_, _, _) => if kind == ResidualPlane then Demotion else Eviction
    case Press(_, critical) => if critical then PressureCritical else PressureWarn
    case RemoveKey(_) => Explicit
    case Everything => DestroyAll
  }

  /** Room and pressure: residuals first, each the first in policy order. */
  ghost predicate Turn(cfg: Config, rule: Rule, slots: seq<Entry>, i: nat, kind: PlaneKind)
    requires i < |slots|
  {
    match rule
    case RemoveKey(key) => HasKey(slots[i], key)
    case Everything => true
    case _ =>
      && Short(cfg, rule, slots)
      && if kind == ResidualPlane then FirstToDemote(cfg, slots, i)
         else NoneToDemote(slots) && TakesBases(rule) && FirstToLeave(cfg, slots, Protected(rule), i)
  }

  /** The event hands back a plane of the unpinned slot `i`; a base has no residual left. */
  predicate Hands(cfg: Config, rule: Rule, e: Entry, event: Event) {
    && e.Resident? && e.pins == 0 && event.key == e.key && event.reason == ReasonFor(rule, event.kind)
    && if event.kind == ResidualPlane then e.residual == Some(event.plane)
       else e.residual.None? && event.plane == e.base
  }

  function Less(e: Entry, kind: PlaneKind): Entry
    requires e.Resident?
  {
    if kind == ResidualPlane then e.(residual := None) else Vacant
  }

  ghost predicate First(cfg: Config, rule: Rule, slots: seq<Entry>, event: Event, i: nat) {
    i < |slots| && Hands(cfg, rule, slots[i], event) && Turn(cfg, rule, slots, i, event.kind)
  }

  /** `slots` becomes `last` by exactly these releases, each in its turn. */
  ghost predicate Trace(cfg: Config, rule: Rule, slots: seq<Entry>, events: seq<Event>, last: seq<Entry>)
    decreases |events|
  {
    if events == [] then slots == last
    else exists i: nat :: First(cfg, rule, slots, events[0], i)
                          && Trace(cfg, rule, slots[i := Less(slots[i], events[0].kind)], events[1..], last)
  }

  /** Nothing more has to go, or nothing more may. */
  ghost predicate Over(cfg: Config, rule: Rule, slots: seq<Entry>) {
    match rule
    case RemoveKey(key) => forall i :: 0 <= i < |slots| ==> !HasKey(slots[i], key)
    case Everything => forall i :: 0 <= i < |slots| ==> slots[i].Vacant?
    case _ =>
      !Short(cfg, rule, slots)
      || (NoneToDemote(slots) && (TakesBases(rule) ==> NoneToLeave(cfg, slots, Protected(rule))))
  }

  lemma {:induction false} TraceCons(cfg: Config, rule: Rule, slots: seq<Entry>, event: Event, i: nat,
                                     events: seq<Event>, last: seq<Entry>)
    requires First(cfg, rule, slots, event, i)
    requires Trace(cfg, rule, slots[i := Less(slots[i], event.kind)], events, last)
    ensures Trace(cfg, rule, slots, [event] + events, last)
  {
    assert ([event] + events)[1..] == events;
  }

  lemma {:induction false} TraceHead(cfg: Config, rule: Rule, slots: seq<Entry>, events: seq<Event>, last: seq<Entry>)
    returns (i: nat)
    requires events != [] && Trace(cfg, rule, slots, events, last)
    ensures First(cfg, rule, slots, events[0], i)
    ensures Trace(cfg, rule, slots[i := Less(slots[i], events[0].kind)], events[1..], last)
  {
    i :| First(cfg, rule, slots, events[0], i)
         && Trace(cfg, rule, slots[i := Less(slots[i], events[0].kind)], events[1..], last);
  }

  lemma Regroup(e: seq<Event>, f: seq<Event>)
    requires e != []
    ensures [e[0]] + (e[1..] + f) == e + f
  {
  }

  lemma {:induction false} TraceAppend(cfg: Config, rule: Rule, a: seq<Entry>, e: seq<Event>, b: seq<Entry>,
                                       f: seq<Event>, c: seq<Entry>)
    requires Trace(cfg, rule, a, e, b) && Trace(cfg, rule, b, f, c)
    ensures Trace(cfg, rule, a, e + f, c)
    decreases |e|
  {
    if e == [] {
      assert e + f == f;
    } else {
      var i := TraceHead(cfg, rule, a, e, b);
      TraceAppend(cfg, rule, a[i := Less(a[i], e[0].kind)], e[1..], b, f, c);
      TraceCons(cfg, rule, a, e[0], i, e[1..] + f, c);
      Regroup(e, f);
    }
  }

  /** The releases of a step from `s` to `t` are such a trace. */
  ghost predicate Traced(cfg: Config, rule: Rule, s: State, t: State) {
    s.log <= t.log && Trace(cfg, rule, s.slots, t.log[|s.log|..], t.slots)
  }

  lemma {:induction false} TracedOne(cfg: Config, rule: Rule, s: State, t: State, event: Event, i: nat)
    requires First(cfg, rule, s.slots, event, i)
    requires t.slots == s.slots[i := Less(s.slots[i], event.kind)] && t.log == s.log + [event]
    ensures Traced(cfg, rule, s, t)
  {
    TraceCons(cfg, rule, s.slots, event, i, [], t.slots);
    assert [event] + [] == [event] && t.log[|s.log|..] == [event];
  }

  lemma {:induction false} TracedTrans(cfg: Config, rule: Rule, s: State, t: State, u: State)
    requires Traced(cfg, rule, s, t) && Traced(cfg, rule, t, u)
    ensures Traced(cfg, rule, s, u)
  {
    TraceAppend(cfg, rule, s.slots, t.log[|s.log|..], t.slots, u.log[|t.log|..], u.slots);
    assert t.log[|s.log|..] + u.log[|t.log|..] == u.log[|s.log|..];
  }

  lemma TracedNone(cfg: Config, rule: Rule, s: State)
    ensures Traced(cfg, rule, s, s)
  {
  }

  // ---- Each loop is such a trace --------------------------------------------------------

  lemma {:induction false} ResidualTurn(cfg: Config, rule: Rule, s: State, i: nat)
    requires (rule.Room? || rule.Press?) && Short(cfg, rule, s.slots)
    requires i < |s.slots| && FirstToDemote(cfg, s.slots, i)
    ensures Traced(cfg, rule, s, DropResidual(s, i, ReasonFor(rule, ResidualPlane)))
  {
    var e := s.slots[i];
    var event := Event(e.key, ResidualPlane, ReasonFor(rule, ResidualPlane), e.residual.value);
    TracedOne(cfg, rule, s, DropResidual(s, i, ReasonFor(rule, ResidualPlane)), event, i);
  }

  lemma {:induction false} BaseTurn(cfg: Config, rule: Rule, s: State, i: nat)
    requires (rule.Room? || rule.Press?) && Short(cfg, rule, s.slots) && TakesBases(rule) && NoneToDemote(s.slots)
    requires i < |s.slots| && FirstToLeave(cfg, s.slots, Protected(rule), i)
    ensures Traced(cfg, rule, s, DropBase(s, i, ReasonFor(rule, BasePlane)))
    ensures NoneToDemote(DropBase(s, i, ReasonFor(rule, BasePlane)).slots)
  {
    var e := s.slots[i];
    assert !MayDemote(s.slots, i);
    var event := Event(e.key, BasePlane, ReasonFor(rule, BasePlane), e.base);
    var t := DropBase(s, i, ReasonFor(rule, BasePlane));
    TracedOne(cfg, rule, s, t, event, i);
    forall j: nat | j < |t.slots|
      ensures !MayDemote(t.slots, j)
    {
      assert !MayDemote(s.slots, j);
    }
  }

  /** make_room, for the two policies. */
  lemma {:induction false} RoomTraced(cfg: Config, s: State, incoming: nat, needSlot: bool, protect: Option<nat>)
    ensures var t, rule := MakeRoom(PolicyChooser(cfg, protect), cfg, s, incoming, needSlot),
                           Room(protect, incoming, needSlot);
            Traced(cfg, rule, s, t) && Over(cfg, rule, t.slots)
    decreases Sum(Planes, s.slots)
  {
    var rule, choose := Room(protect, incoming, needSlot), PolicyChooser(cfg, protect);
    ResidualExactly(cfg, s.slots);
    VictimExactly(cfg, s.slots, protect);
    var r, b := ResidualVictim(cfg, s.slots), BaseVictim(cfg, s.slots, protect);
    assert choose.residual(s.slots) == r && choose.base(s.slots) == b;
    if Enough(cfg, s, incoming, needSlot) {
      TracedNone(cfg, rule, s);
    } else if r.None? && b.None? {
      RoomStuck(choose, cfg, s, incoming, needSlot);
      TracedNone(cfg, rule, s);
    } else if r.Some? {
      var t := DropResidual(s, r.value, Demotion);
      ResidualTurn(cfg, rule, s, r.value);
      DropLowersPlanes(s, r.value, Demotion);
      RoomTraced(cfg, t, incoming, needSlot, protect);
      RoomDemotes(choose, cfg, s, incoming, needSlot, r.value);
      TracedTrans(cfg, rule, s, t, MakeRoom(choose, cfg, t, incoming, needSlot));
    } else {
      var t := DropBase(s, b.value, Eviction);
      BaseTurn(cfg, rule, s, b.value);
      DropLowersPlanes(s, b.value, Eviction);
      RoomTraced(cfg, t, incoming, needSlot, protect);
      RoomEvicts(choose, cfg, s, incoming, needSlot, b.value);
      TracedTrans(cfg, rule, s, t, MakeRoom(choose, cfg, t, incoming, needSlot));
    }
  }

  lemma {:induction false} DrainTraced(cfg: Config, s: State, rule: Rule)
    requires rule.Press?
    ensures var t := DrainResiduals(cfg, s, rule.target, ReasonFor(rule, ResidualPlane));
            Traced(cfg, rule, s, t) && (Payload(t) > rule.target ==> NoneToDemote(t.slots))
    decreases Sum(Planes, s.slots)
  {
    var r, reason := ResidualVictim(cfg, s.slots), ReasonFor(rule, ResidualPlane);
    ResidualExactly(cfg, s.slots);
    if Payload(s) <= rule.target || r.None? {
      TracedNone(cfg, rule, s);
    } else {
      var t := DropResidual(s, r.value, reason);
      ResidualTurn(cfg, rule, s, r.value);
      DropLowersPlanes(s, r.value, reason);
      DrainTraced(cfg, t, rule);
      TracedTrans(cfg, rule, s, t, DrainResiduals(cfg, t, rule.target, reason));
    }
  }

  lemma {:induction false} BasesTraced(cfg: Config, s: State, target: nat)
    requires Payload(s) > target ==> NoneToDemote(s.slots)
    ensures var t, rule := DrainBases(cfg, s, target, PressureCritical), Press(target, true);
            Traced(cfg, rule, s, t) && Over(cfg, rule, t.slots)
    decreases Sum(Planes, s.slots)
  {
    var b, rule := BaseVictim(cfg, s.slots, None), Press(target, true);
    VictimExactly(cfg, s.slots, None);
    if Payload(s) <= target || b.None? {
      TracedNone(cfg, rule, s);
    } else {
      var t := DropBase(s, b.value, PressureCritical);
      BaseTurn(cfg, rule, s, b.value);
      DropLowersPlanes(s, b.value, PressureCritical);
      BasesTraced(cfg, t, target);
      TracedTrans(cfg, rule, s, t, DrainBases(cfg, t, target, PressureCritical));
    }
  }

  lemma {:induction false} PressTraced(cfg: Config, s: State, target: nat, critical: bool)
    ensures var t, rule := Pressed(cfg, s, if critical then Critical else Warn, target), Press(target, critical);
            Traced(cfg, rule, s, t) && Over(cfg, rule, t.slots)
  {
    var rule := Press(target, critical);
    DrainTraced(cfg, s, rule);
    if critical {
      var m := DrainResiduals(cfg, s, target, PressureCritical);
      BasesTraced(cfg, m, target);
      TracedTrans(cfg, rule, s, m, DrainBases(cfg, m, target, PressureCritical));
    }
  }

  /** An unpinned slot emptied for good: its residual, then its base. */
  lemma {:induction false} DropTraced(cfg: Config, rule: Rule, s: State, i: nat)
    requires i < |s.slots| && s.slots[i].Resident? && s.slots[i].pins == 0
    requires rule == Everything || rule == RemoveKey(s.slots[i].key)
    ensures Traced(cfg, rule, s, DropBase(s, i, ReasonFor(rule, BasePlane)))
  {
    var e, reason := s.slots[i], ReasonFor(rule, BasePlane);
    var t := if e.residual.Some? then DropResidual(s, i, reason) else s;
    if e.residual.Some? {
      TracedOne(cfg, rule, s, t, Event(e.key, ResidualPlane, reason, e.residual.value), i);
    } else {
      TracedNone(cfg, rule, s);
    }
    var u := DropBase(s, i, reason);
    TracedOne(cfg, rule, t, u, Event(e.key, BasePlane, reason, e.base), i);
    TracedTrans(cfg, rule, s, t, u);
  }

  lemma {:induction false} DestroyTraced(cfg: Config, s: State, i: nat)
    requires forall j :: 0 <= j < |s.slots| && s.slots[j].Resident? ==> s.slots[j].pins == 0
    requires i <= |s.slots| && forall j :: 0 <= j < i ==> s.slots[j].Vacant?
    ensures Traced(cfg, Everything, s, ReleaseFrom(s, i)) && Over(cfg, Everything, ReleaseFrom(s, i).slots)
    decreases |s.slots| - i
  {
    if i == |s.slots| {
      TracedNone(cfg, Everything, s);
    } else {
      var t := if s.slots[i].Resident? then DropBase(s, i, DestroyAll) else s;
      if s.slots[i].Resident? { DropTraced(cfg, Everything, s, i); } else { TracedNone(cfg, Everything, s); }
      DestroyTraced(cfg, t, i + 1);
      TracedTrans(cfg, Everything, s, t, ReleaseFrom(t, i + 1));
    }
  }
}
