/** What a caller can know of the cache by keeping books: a map from keys to what was
    put under them, written up from operations, their status and the release events
    alone. After every run the books agree with the cache, and they say what each
    operation will answer. */
module CacheLedger {
  import opened Basics
  import opened CacheTypes
  import opened CachePolicy
  import opened CacheModel
  import opened CachePlan
  import opened CacheInvariant
  import opened CacheRuns
  import opened CacheTheorems
  import opened CacheTrace

  /** An entry as its owner knows it. `pins` counts pins less unpins since admission. */
  datatype Holding = Holding(base: Plane, residual: Option<Plane>, pins: int, hit: bool)

  type Held = map<Key, Holding>

  datatype Ledger = Ledger(held: Held, touched: seq<Key>, arrived: seq<Key>, admitted: seq<Handle>, peak: nat,
                           open: bool)

  // ---- Keeping the books ---------------------------------------------------------------

  function Struck(h: Held, e: Event): Held {
    if e.key !in h then h
    else if e.kind == BasePlane then h - {e.key}
    else h[e.key := h[e.key].(residual := None)]
  }

  function StruckAll(h: Held, events: seq<Event>): Held {
    if events == [] then h else StruckAll(Struck(h, events[0]), events[1..])
  }

  function Used(p: Plane): Plane { p.(unusedPrefetch := false) }

  function Demanded(h: Holding, requirement: Requirement): Holding {
    h.(base := Used(h.base), hit := true,
       residual := if requirement == RequireFull && h.residual.Some? then Some(Used(h.residual.value)) else h.residual)
  }

  function NewPlane(cfg: Config, payload: Handle, logical: nat, read: nat, prefetch: bool): Plane
    requires 0 < cfg.alignment
  {
    Plane(payload, logical, Rounded(logical, cfg.alignment), read, prefetch)
  }

  /** One operation that was answered OK, or PARTIAL, with these releases. */
  function Entered(cfg: Config, l: Ledger, op: Op, status: Status, events: seq<Event>): Ledger
    requires 0 < cfg.alignment
  {
    var h := StruckAll(l.held, events);
    if status != Ok then l.(held := h)
    else
      match op
      case Get(key, requirement) =>
        if key in h then l.(held := h[key := Demanded(h[key], requirement)], touched := l.touched + [key])
        else l.(held := h)
      case Pin(key) => if key in h then l.(held := h[key := h[key].(pins := h[key].pins + 1)]) else l.(held := h)
      case Unpin(key) => if key in h then l.(held := h[key := h[key].(pins := h[key].pins - 1)]) else l.(held := h)
      case InsertBase(key, payload, logical, read, prefetch) =>
        l.(held := h[key := Holding(NewPlane(cfg, payload, logical, read, prefetch), None, 0, false)],
           touched := l.touched + [key], arrived := l.arrived + [key], admitted := l.admitted + [payload])
      case Promote(key, payload, logical, read, prefetch) =>
        if key in h then
          l.(held := h[key := h[key].(residual := Some(NewPlane(cfg, payload, logical, read, prefetch)))],
             admitted := l.admitted + [payload])
        else l.(held := h)
      case Destroy => l.(held := h, open := false)
      case _ => l.(held := h)
  }

  function NewBooks(): Ledger { Ledger(map[], [], [], [], 0, true) }

  ghost function Kept(cfg: Config, ops: seq<Op>): Ledger
    requires ConfigOk(cfg)
  {
    if ops == [] then NewBooks()
    else
      var front, op := ops[..|ops| - 1], ops[|ops| - 1];
      var s := Run(cfg, Initial(cfg), front);
      var (t, reply) := Step(cfg, s, op);
      var l := Entered(cfg, Kept(cfg, front), op, reply.status, if s.log <= t.log then t.log[|s.log|..] else []);
      l.(peak := Max(l.peak, Payload(t)))
  }

  // ---- Agreement -------------------------------------------------------------------------

  predicate Shows(cfg: Config, e: Entry, h: Holding) {
    && e.Resident? && e.base == h.base && e.residual == h.residual && e.pins == h.pins
    && (e.hot <==> cfg.policy == TwoQueue && h.hit)
  }

  /** The same keys, and under each the same holding. */
  ghost predicate Agrees(cfg: Config, slots: seq<Entry>, h: Held) {
    && (forall i :: 0 <= i < |slots| && slots[i].Resident? ==>
          slots[i].key in h && Shows(cfg, slots[i], h[slots[i].key]))
    && (forall key :: key in h ==> exists i :: 0 <= i < |slots| && HasKey(slots[i], key))
  }

  lemma {:induction false} AgreesLess(cfg: Config, slots: seq<Entry>, h: Held, i: nat, event: Event)
    requires Agrees(cfg, slots, h) && DistinctKeys(slots)
    requires i < |slots| && slots[i].Resident? && event.key == slots[i].key
    ensures var after := slots[i := Less(slots[i], event.kind)];
            Agrees(cfg, after, Struck(h, event)) && DistinctKeys(after)
  {
    var after, g := slots[i := Less(slots[i], event.kind)], Struck(h, event);
    forall key | key in g
      ensures exists j :: 0 <= j < |after| && HasKey(after[j], key)
    {
      var j :| 0 <= j < |slots| && HasKey(slots[j], key);
      assert HasKey(after[j], key);
    }
  }

  /** What the events hand back is what the books hold under their keys, unpinned, and a
      residual leaves before its base. */
  predicate Honest(h: Held, events: seq<Event>) {
    events == [] ||
    (var e := events[0];
     && e.key in h && h[e.key].pins == 0
     && (if e.kind == BasePlane then h[e.key].residual.None? && e.plane == h[e.key].base
         else h[e.key].residual == Some(e.plane))
     && Honest(Struck(h, e), events[1..]))
  }

  /** A trace takes the books along. */
  lemma {:induction false} TraceAgrees(cfg: Config, rule: Rule, slots: seq<Entry>, events: seq<Event>,
                                       last: seq<Entry>, h: Held)
    requires Trace(cfg, rule, slots, events, last) && Agrees(cfg, slots, h) && DistinctKeys(slots)
    ensures Agrees(cfg, last, StruckAll(h, events)) && DistinctKeys(last) && Honest(h, events)
    decreases |events|
  {
    if events != [] {
      var i := TraceHead(cfg, rule, slots, events, last);
      AgreesLess(cfg, slots, h, i, events[0]);
      TraceAgrees(cfg, rule, slots[i := Less(slots[i], events[0].kind)], events[1..], last, Struck(h, events[0]));
    }
  }

  /** One slot and its line in the books change together. */
  lemma {:induction false} AgreesOne(cfg: Config, slots: seq<Entry>, h: Held, i: nat, e: Entry, line: Holding)
    requires Agrees(cfg, slots, h) && DistinctKeys(slots)
    requires i < |slots| && slots[i].Resident? && e.Resident? && e.key == slots[i].key && Shows(cfg, e, line)
    ensures Agrees(cfg, slots[i := e], h[e.key := line])
  {
    var after, g := slots[i := e], h[e.key := line];
    forall key | key in g
      ensures exists j :: 0 <= j < |after| && HasKey(after[j], key)
    {
      if key == e.key {
        assert HasKey(after[i], key);
      } else {
        var j :| 0 <= j < |slots| && HasKey(slots[j], key);
        assert HasKey(after[j], key);
      }
    }
  }

  lemma {:induction false} AgreesNew(cfg: Config, slots: seq<Entry>, h: Held, i: nat, e: Entry, line: Holding)
    requires Agrees(cfg, slots, h) && i < |slots| && slots[i].Vacant? && e.Resident? && Shows(cfg, e, line)
    requires forall j :: 0 <= j < |slots| ==> !HasKey(slots[j], e.key)
    ensures Agrees(cfg, slots[i := e], h[e.key := line])
  {
    var after, g := slots[i := e], h[e.key := line];
    forall j | 0 <= j < |after| && after[j].Resident?
      ensures after[j].key in g && Shows(cfg, after[j], g[after[j].key])
    {
      assert j != i ==> !HasKey(slots[j], e.key);
    }
    forall key | key in g
      ensures exists j :: 0 <= j < |after| && HasKey(after[j], key)
    {
      if key == e.key {
        assert HasKey(after[i], key);
      } else {
        var j :| 0 <= j < |slots| && HasKey(slots[j], key);
        assert HasKey(after[j], key);
      }
    }
  }

  /** A tick is not in the books. */
  lemma {:induction false} AgreesTick(cfg: Config, s: State, h: Held)
    requires Agrees(cfg, s.slots, h)
    ensures Agrees(cfg, Tick(s).slots, h)
  {
    var t := Tick(s);
    forall key | key in h
      ensures exists j :: 0 <= j < |t.slots| && HasKey(t.slots[j], key)
    {
      var j :| 0 <= j < |s.slots| && HasKey(s.slots[j], key);
      assert HasKey(t.slots[j], key);
    }
  }

  lemma {:induction false} FindHeld(cfg: Config, slots: seq<Entry>, h: Held, key: Key)
    requires Agrees(cfg, slots, h)
    ensures Find(slots, key).Some? <==> key in h
    ensures key in h ==> Shows(cfg, slots[Find(slots, key).value], h[key])
  {
  }

  // ---- One operation --------------------------------------------------------------------

  ghost predicate Booked(cfg: Config, l: Ledger, s: State) {
    && Agrees(cfg, s.slots, l.held) && l.touched == s.touched && l.arrived == s.arrived && l.admitted == s.admitted
    && l.peak == s.peak && l.open == s.alive
  }

  /** The books after a step from `s` to `t`. */
  function Noted(cfg: Config, l: Ledger, op: Op, status: Status, s: State, t: State): Ledger
    requires 0 < cfg.alignment
  {
    var more := Entered(cfg, l, op, status, if s.log <= t.log then t.log[|s.log|..] else []);
    more.(peak := Max(more.peak, Payload(t)))
  }

  /** What a step owes the books. */
  ghost predicate Settled(cfg: Config, l: Ledger, op: Op, status: Status, s: State, t: State)
    requires 0 < cfg.alignment
  {
    Booked(cfg, Noted(cfg, l, op, status, s, t), t) && s.log <= t.log && Honest(l.held, t.log[|s.log|..])
  }

  lemma {:induction false} Unchanged(cfg: Config, l: Ledger, op: Op, status: Status, s: State)
    requires 0 < cfg.alignment && Booked(cfg, l, s) && Payload(s) <= s.peak
    requires Entered(cfg, l, op, status, []) == l
    ensures Settled(cfg, l, op, status, s, s)
  {
    assert s.log[|s.log|..] == [];
  }

  /** A step on one entry that releases nothing and keeps the payload. */
  lemma {:induction false} OneLine(cfg: Config, l: Ledger, op: Op, s: State, t: State, more: Ledger)
    requires 0 < cfg.alignment && Booked(cfg, l, s) && Payload(s) <= s.peak
    requires t.log == s.log && Payload(t) == Payload(s) && t.peak == s.peak
    requires Entered(cfg, l, op, Ok, []) == more && more.peak == l.peak && Booked(cfg, more, t)
    ensures Settled(cfg, l, op, Ok, s, t)
  {
    assert t.log[|s.log|..] == [];
  }

  lemma {:induction false} GetSettles(cfg: Config, l: Ledger, s: State, key: Key, requirement: Requirement)
    requires Good(cfg, s) && Booked(cfg, l, s)
    ensures var (t, reply) := DoGet(cfg, s, key, requirement);
            Settled(cfg, l, Get(key, requirement), reply.status, s, t)
  {
    var op := Get(key, requirement);
    var (u, reply) := DoGet(cfg, s, key, requirement);
    FindHeld(cfg, s.slots, l.held, key);
    if key.layer < |cfg.floors| && key in l.held {
      var i, line := Find(s.slots, key).value, Demanded(l.held[key], requirement);
      GetLine(cfg, l, s, i, requirement);
      OneLine(cfg, l, op, s, u, l.(held := l.held[key := line], touched := l.touched + [key]));
    } else {
      Unchanged(cfg, l, op, reply.status, s);
    }
  }

  lemma {:induction false} GetLine(cfg: Config, l: Ledger, s: State, i: nat, requirement: Requirement)
    requires Good(cfg, s) && Booked(cfg, l, s) && i < |s.slots| && s.slots[i].Resident?
    requires s.slots[i].key in l.held
    ensures var t, key := Tick(s), s.slots[i].key;
            var u := t.(slots := t.slots[i := Touch(cfg, t.slots[i], t.clock, requirement)]);
            && Agrees(cfg, u.slots, l.held[key := Demanded(l.held[key], requirement)]) && Payload(u) == Payload(s)
  {
    TickFresh(cfg, s);
    AgreesTick(cfg, s, l.held);
    TouchAgrees(cfg, l.held, Tick(s), i, requirement);
    TouchPayload(cfg, s, i, requirement);
  }

  lemma {:induction false} TouchAgrees(cfg: Config, h: Held, t: State, i: nat, requirement: Requirement)
    requires Agrees(cfg, t.slots, h) && DistinctKeys(t.slots) && i < |t.slots| && t.slots[i].Resident?
    requires t.slots[i].key in h
    ensures var key := t.slots[i].key;
            Agrees(cfg, t.slots[i := Touch(cfg, t.slots[i], t.clock, requirement)],
                   h[key := Demanded(h[key], requirement)])
  {
    var key := t.slots[i].key;
    AgreesOne(cfg, t.slots, h, i, Touch(cfg, t.slots[i], t.clock, requirement), Demanded(h[key], requirement));
  }

  lemma {:induction false} TouchPayload(cfg: Config, s: State, i: nat, requirement: Requirement)
    requires i < |s.slots| && s.slots[i].Resident?
    ensures var t := Tick(s);
            Payload(t.(slots := t.slots[i := Touch(cfg, t.slots[i], t.clock, requirement)])) == Payload(s)
  {
    var t := Tick(s);
    SumSame(TotalCharge, s.slots, t.slots);
    SumUpdate(TotalCharge, t.slots, i, Touch(cfg, t.slots[i], t.clock, requirement));
  }

  function Repinned(s: State, i: nat, pins: nat): State
    requires i < |s.slots| && s.slots[i].Resident?
  {
    s.(slots := s.slots[i := s.slots[i].(pins := pins)])
  }

  /** A pin or an unpin that goes through. */
  lemma {:induction false} RepinSettles(cfg: Config, l: Ledger, op: Op, s: State, i: nat, pins: nat)
    requires 0 < cfg.alignment && Booked(cfg, l, s) && DistinctKeys(s.slots) && Payload(s) <= s.peak
    requires i < |s.slots| && s.slots[i].Resident?
    requires || (op == Pin(s.slots[i].key) && pins == s.slots[i].pins + 1)
             || (op == Unpin(s.slots[i].key) && pins == s.slots[i].pins - 1)
    ensures Settled(cfg, l, op, Ok, s, Repinned(s, i, pins))
  {
    var key := s.slots[i].key;
    RepinAgrees(cfg, s.slots, l.held, i, pins);
    SumUpdate(TotalCharge, s.slots, i, s.slots[i].(pins := pins));
    var more := l.(held := l.held[key := l.held[key].(pins := pins)]);
    assert Entered(cfg, l, op, Ok, []) == more;
    OneLine(cfg, l, op, s, Repinned(s, i, pins), more);
  }

  lemma {:induction false} RepinAgrees(cfg: Config, slots: seq<Entry>, h: Held, i: nat, pins: nat)
    requires Agrees(cfg, slots, h) && DistinctKeys(slots) && i < |slots| && slots[i].Resident?
    ensures var key := slots[i].key;
            && key in h && h[key].pins == slots[i].pins
            && Agrees(cfg, slots[i := slots[i].(pins := pins)], h[key := h[key].(pins := pins)])
  {
    var key := slots[i].key;
    assert Shows(cfg, slots[i], h[key]);
    AgreesOne(cfg, slots, h, i, slots[i].(pins := pins), h[key].(pins := pins));
  }

  lemma PinIs(cfg: Config, s: State, key: Key)
    ensures var (t, reply) := DoPin(cfg, s, key);
            if reply.status == Ok
            then var i := Find(s.slots, key); i.Some? && t == Repinned(s, i.value, s.slots[i.value].pins + 1)
            else t == s
    ensures var (t, reply) := DoUnpin(cfg, s, key);
            if reply.status == Ok
            then var i := Find(s.slots, key);
                 i.Some? && s.slots[i.value].pins > 0 && t == Repinned(s, i.value, s.slots[i.value].pins - 1)
            else t == s
  {
  }

  lemma {:induction false} PinSettles(cfg: Config, l: Ledger, s: State, key: Key)
    requires 0 < cfg.alignment && Booked(cfg, l, s) && DistinctKeys(s.slots) && Payload(s) <= s.peak
    ensures Settled(cfg, l, Pin(key), DoPin(cfg, s, key).1.status, s, DoPin(cfg, s, key).0)
  {
    PinIs(cfg, s, key);
    var status := DoPin(cfg, s, key).1.status;
    if status == Ok {
      var i := Find(s.slots, key).value;
      RepinSettles(cfg, l, Pin(key), s, i, s.slots[i].pins + 1);
    } else {
      Unchanged(cfg, l, Pin(key), status, s);
    }
  }

  lemma {:induction false} UnpinSettles(cfg: Config, l: Ledger, s: State, key: Key)
    requires 0 < cfg.alignment && Booked(cfg, l, s) && DistinctKeys(s.slots) && Payload(s) <= s.peak
    ensures Settled(cfg, l, Unpin(key), DoUnpin(cfg, s, key).1.status, s, DoUnpin(cfg, s, key).0)
  {
    PinIs(cfg, s, key);
    var status := DoUnpin(cfg, s, key).1.status;
    if status == Ok {
      var i := Find(s.slots, key).value;
      RepinSettles(cfg, l, Unpin(key), s, i, s.slots[i].pins - 1);
    } else {
      Unchanged(cfg, l, Unpin(key), status, s);
    }
  }

  lemma EnteredReleases(cfg: Config, l: Ledger, op: Op, status: Status, events: seq<Event>)
    requires 0 < cfg.alignment && (op.Remove? || op.ApplyPressure? || op.Destroy?)
    ensures Entered(cfg, l, op, status, events)
            == l.(held := StruckAll(l.held, events), open := l.open && !(op.Destroy? && status == Ok))
  {
  }

  /** Releases alone. */
  lemma {:induction false} TracedSettles(cfg: Config, l: Ledger, op: Op, status: Status, s: State, t: State, rule: Rule)
    requires 0 < cfg.alignment && Booked(cfg, l, s) && DistinctKeys(s.slots)
    requires op.Remove? || op.ApplyPressure? || op.Destroy?
    requires Traced(cfg, rule, s, t) && Payload(t) <= s.peak
    requires t == s.(slots := t.slots, log := t.log, alive := t.alive)
    requires t.alive == (s.alive && !(op.Destroy? && status == Ok))
    ensures Settled(cfg, l, op, status, s, t)
  {
    TraceAgrees(cfg, rule, s.slots, t.log[|s.log|..], t.slots, l.held);
    EnteredReleases(cfg, l, op, status, t.log[|s.log|..]);
  }

  lemma {:induction false} RemoveIs(cfg: Config, s: State, key: Key)
    ensures var (t, reply) := DoRemove(cfg, s, key);
            if reply.status == Ok
            then Traced(cfg, RemoveKey(key), s, t) && Payload(t) <= Payload(s)
                 && t == s.(slots := t.slots, log := t.log)
            else t == s
  {
    var found := Find(s.slots, key);
    var (t, reply) := DoRemove(cfg, s, key);
    if reply.status == Ok {
      DropTraced(cfg, RemoveKey(key), s, found.value);
      ReclaimsBase(s, found.value, Explicit);
      LogGrows(s.log, t.log);
    }
  }

  lemma {:induction false} RemoveSettles(cfg: Config, l: Ledger, s: State, key: Key)
    requires 0 < cfg.alignment && Booked(cfg, l, s) && DistinctKeys(s.slots) && Payload(s) <= s.peak
    ensures Settled(cfg, l, Remove(key), DoRemove(cfg, s, key).1.status, s, DoRemove(cfg, s, key).0)
  {
    RemoveIs(cfg, s, key);
    var status := DoRemove(cfg, s, key).1.status;
    if status == Ok {
      TracedSettles(cfg, l, Remove(key), Ok, s, DoRemove(cfg, s, key).0, RemoveKey(key));
    } else {
      Unchanged(cfg, l, Remove(key), status, s);
    }
  }

  lemma {:induction false} PressureSettles(cfg: Config, l: Ledger, s: State, level: Pressure, target: nat)
    requires Good(cfg, s) && Booked(cfg, l, s)
    ensures var (t, reply) := DoPressure(cfg, s, level, target);
            Settled(cfg, l, ApplyPressure(level, target), reply.status, s, t)
  {
    var op := ApplyPressure(level, target);
    var (t, reply) := DoPressure(cfg, s, level, target);
    if target <= cfg.budget && level != Normal {
      PressTraced(cfg, s, target, level == Critical);
      ReclaimsPressure(cfg, s, level, target);
      LogGrows(s.log, t.log);
      TracedSettles(cfg, l, op, reply.status, s, t, Press(target, level == Critical));
    } else {
      Unchanged(cfg, l, op, reply.status, s);
    }
  }

  lemma {:induction false} DestroySettles(cfg: Config, l: Ledger, s: State)
    requires Good(cfg, s) && Booked(cfg, l, s) && s.alive
    ensures var (t, reply) := DoDestroy(s); Settled(cfg, l, Destroy, reply.status, s, t)
  {
    var (t, reply) := DoDestroy(s);
    if reply.status == Ok {
      DestroyTraced(cfg, s, 0);
      ReclaimsAll(s, 0);
      LogGrows(s.log, t.log);
      TracedSettles(cfg, l, Destroy, Ok, s, t, Everything);
    } else {
      Unchanged(cfg, l, Destroy, reply.status, s);
    }
  }

  /** A newcomer takes a vacant slot once room has been made. */
  lemma {:induction false} AdmitSettles(cfg: Config, l: Ledger, op: Op, s: State, rule: Rule, t: State, i: nat)
    requires 0 < cfg.alignment && Booked(cfg, l, s) && DistinctKeys(s.slots) && op.InsertBase?
    requires Traced(cfg, rule, s, t) && t == s.(slots := t.slots, log := t.log)
    requires i < |t.slots| && t.slots[i].Vacant? && forall j :: 0 <= j < |t.slots| ==> !HasKey(t.slots[j], op.key)
    ensures var u := Admit(t, i, op.key, NewPlane(cfg, op.payload, op.logical, op.read, op.prefetch));
            Settled(cfg, l, op, Ok, s, u)
  {
    var p := NewPlane(cfg, op.payload, op.logical, op.read, op.prefetch);
    var h := StruckAll(l.held, t.log[|s.log|..]);
    TraceAgrees(cfg, rule, s.slots, t.log[|s.log|..], t.slots, l.held);
    AdmitAgrees(cfg, h, t, i, op.key, p);
  }

  lemma {:induction false} AdmitAgrees(cfg: Config, h: Held, t: State, i: nat, key: Key, p: Plane)
    requires Agrees(cfg, t.slots, h) && i < |t.slots| && t.slots[i].Vacant?
    requires forall j :: 0 <= j < |t.slots| ==> !HasKey(t.slots[j], key)
    ensures Agrees(cfg, Admit(t, i, key, p).slots, h[key := Holding(p, None, 0, false)])
  {
    AgreesTick(cfg, t, h);
    var u := Tick(t);
    forall j | 0 <= j < |u.slots|
      ensures !HasKey(u.slots[j], key)
    {
      assert !HasKey(t.slots[j], key);
    }
    AgreesNew(cfg, u.slots, h, i, NewEntry(key, p, u.clock), Holding(p, None, 0, false));
  }

  /** A successful insertion: room, then the lowest vacant slot. */
  ghost predicate Inserts(cfg: Config, s: State, op: Op, t: State, u: State)
    requires 0 < cfg.alignment && op.InsertBase?
  {
    var charge := PayloadCharge(cfg, op.logical).1;
    && Traced(cfg, Room(None, charge, true), s, t) && t == s.(slots := t.slots, log := t.log)
    && (forall j :: 0 <= j < |t.slots| ==> !HasKey(t.slots[j], op.key))
    && FreeSlot(t.slots).Some?
    && u == Admit(t, FreeSlot(t.slots).value, op.key, NewPlane(cfg, op.payload, op.logical, op.read, op.prefetch))
  }

  lemma {:induction false} RoomReady(cfg: Config, s: State, charge: nat, key: Key, payload: Handle)
    requires Good(cfg, s) && Plan(PolicyChooser(cfg, None), cfg, s, charge, true).Some? && Find(s.slots, key).None?
    ensures var t := MakeRoom(PolicyChooser(cfg, None), cfg, s, charge, true);
            && Traced(cfg, Room(None, charge, true), s, t) && t == s.(slots := t.slots, log := t.log)
            && (forall j :: 0 <= j < |t.slots| ==> !HasKey(t.slots[j], key))
            && FreeSlot(t.slots).Some?
  {
    RoomTraced(cfg, s, charge, true, None);
    RoomMade(cfg, s, charge, true, None);
    ReclaimKeepsAbsence(s, MakeRoom(PolicyChooser(cfg, None), cfg, s, charge, true), key, payload);
  }

  lemma {:induction false} InsertIs(cfg: Config, s: State, op: Op) returns (t: State)
    requires Good(cfg, s) && op.InsertBase?
    ensures var (u, reply) := DoInsert(cfg, s, op.key, op.payload, op.logical, op.read, op.prefetch);
            if reply.status == Ok
            then Inserts(cfg, s, op, t, u) && reply == Done(Some(u.slots[FreeSlot(t.slots).value]))
            else u == s && reply == Fail(reply.status)
  {
    t := s;
    var charge := PayloadCharge(cfg, op.logical).1;
    if op.payload != 0 && op.key.layer < |cfg.floors| && PayloadCharge(cfg, op.logical).0 == Ok
       && Find(s.slots, op.key).None? && !InUse(s.slots, op.payload)
       && Plan(PolicyChooser(cfg, None), cfg, s, charge, true).Some? {
      RoomReady(cfg, s, charge, op.key, op.payload);
      t := MakeRoom(PolicyChooser(cfg, None), cfg, s, charge, true);
    }
  }

  lemma {:induction false} InsertSettles(cfg: Config, l: Ledger, s: State, op: Op)
    requires Good(cfg, s) && Booked(cfg, l, s) && op.InsertBase?
    ensures var (t, reply) := DoInsert(cfg, s, op.key, op.payload, op.logical, op.read, op.prefetch);
            Settled(cfg, l, op, reply.status, s, t)
  {
    var t := InsertIs(cfg, s, op);
    var status := DoInsert(cfg, s, op.key, op.payload, op.logical, op.read, op.prefetch).1.status;
    if status == Ok {
      var charge := PayloadCharge(cfg, op.logical).1;
      AdmitSettles(cfg, l, op, s, Room(None, charge, true), t, FreeSlot(t.slots).value);
    } else {
      Unchanged(cfg, l, op, status, s);
    }
  }

  lemma {:induction false} AttachSettles(cfg: Config, l: Ledger, op: Op, s: State, rule: Rule, t: State, i: nat)
    requires 0 < cfg.alignment && Booked(cfg, l, s) && DistinctKeys(s.slots) && op.Promote?
    requires Traced(cfg, rule, s, t) && t == s.(slots := t.slots, log := t.log)
    requires i < |t.slots| && HasKey(t.slots[i], op.key)
    ensures var u := Attach(t, i, NewPlane(cfg, op.payload, op.logical, op.read, op.prefetch));
            Settled(cfg, l, op, Ok, s, u)
  {
    var p := NewPlane(cfg, op.payload, op.logical, op.read, op.prefetch);
    var h := StruckAll(l.held, t.log[|s.log|..]);
    TraceAgrees(cfg, rule, s.slots, t.log[|s.log|..], t.slots, l.held);
    assert Shows(cfg, t.slots[i], h[op.key]);
    AgreesOne(cfg, t.slots, h, i, t.slots[i].(residual := Some(p)), h[op.key].(residual := Some(p)));
  }

  /** A successful promotion: room around the entry, then its residual. */
  ghost predicate Promotes(cfg: Config, s: State, op: Op, t: State, u: State)
    requires 0 < cfg.alignment && op.Promote?
  {
    var charge, found := PayloadCharge(cfg, op.logical).1, Find(s.slots, op.key);
    && Traced(cfg, Room(found, charge, false), s, t) && t == s.(slots := t.slots, log := t.log)
    && found.Some? && found.value < |t.slots| && t.slots[found.value] == s.slots[found.value]
    && u == Attach(t, found.value, NewPlane(cfg, op.payload, op.logical, op.read, op.prefetch))
  }

  lemma {:induction false} PromoteReady(cfg: Config, s: State, charge: nat, i: nat)
    requires Good(cfg, s) && i < |s.slots| && s.slots[i].Resident? && s.slots[i].residual.None?
    requires Plan(PolicyChooser(cfg, Some(i)), cfg, s, charge, false).Some?
    ensures var t := MakeRoom(PolicyChooser(cfg, Some(i)), cfg, s, charge, false);
            && Traced(cfg, Room(Some(i), charge, false), s, t) && t == s.(slots := t.slots, log := t.log)
            && t.slots[i] == s.slots[i]
  {
    RoomTraced(cfg, s, charge, false, Some(i));
    RoomMade(cfg, s, charge, false, Some(i));
    ProtectedUnchanged(cfg, s, charge, i);
  }

  lemma {:induction false} PromoteIs(cfg: Config, s: State, op: Op) returns (t: State)
    requires Good(cfg, s) && op.Promote?
    ensures var (u, reply) := DoPromote(cfg, s, op.key, op.payload, op.logical, op.read, op.prefetch);
            if reply.status == Ok
            then Promotes(cfg, s, op, t, u) && reply == Done(Some(u.slots[Find(s.slots, op.key).value]))
            else u == s && reply == Fail(reply.status)
  {
    t := s;
    var charge, found := PayloadCharge(cfg, op.logical).1, Find(s.slots, op.key);
    if op.payload != 0 && op.key.layer < |cfg.floors| && PayloadCharge(cfg, op.logical).0 == Ok
       && found.Some? && s.slots[found.value].residual.None? && !InUse(s.slots, op.payload)
       && Plan(PolicyChooser(cfg, found), cfg, s, charge, false).Some? {
      PromoteReady(cfg, s, charge, found.value);
      t := MakeRoom(PolicyChooser(cfg, found), cfg, s, charge, false);
    }
  }

  lemma {:induction false} PromoteSettles(cfg: Config, l: Ledger, s: State, op: Op)
    requires Good(cfg, s) && Booked(cfg, l, s) && op.Promote?
    ensures var (t, reply) := DoPromote(cfg, s, op.key, op.payload, op.logical, op.read, op.prefetch);
            Settled(cfg, l, op, reply.status, s, t)
  {
    var t := PromoteIs(cfg, s, op);
    var status := DoPromote(cfg, s, op.key, op.payload, op.logical, op.read, op.prefetch).1.status;
    if status == Ok {
      var charge, found := PayloadCharge(cfg, op.logical).1, Find(s.slots, op.key);
      AttachSettles(cfg, l, op, s, Room(found, charge, false), t, found.value);
    } else {
      Unchanged(cfg, l, op, status, s);
    }
  }

  lemma {:induction false} StepSettles(cfg: Config, l: Ledger, s: State, op: Op)
    requires Good(cfg, s) && ConfigOk(cfg) && Booked(cfg, l, s)
    ensures Settled(cfg, l, op, Step(cfg, s, op).1.status, s, Step(cfg, s, op).0)
  {
    if !s.alive {
      Unchanged(cfg, l, op, ErrArgument, s);
    } else {
      match op {
        case Get(key, requirement) => GetSettles(cfg, l, s, key, requirement);
        case Pin(key) => PinSettles(cfg, l, s, key);
        case Unpin(key) => UnpinSettles(cfg, l, s, key);
        case InsertBase(_, _, _, _, _) => InsertSettles(cfg, l, s, op);
        case Promote(_, _, _, _, _) => PromoteSettles(cfg, l, s, op);
        case Remove(key) => RemoveSettles(cfg, l, s, key);
        case ApplyPressure(level, target) => PressureSettles(cfg, l, s, level, target);
        case Destroy => DestroySettles(cfg, l, s);
      }
    }
  }

  // ---- The books after any run ------------------------------------------------------------

  lemma {:induction false} NothingHeld(cfg: Config)
    requires ConfigOk(cfg)
    ensures Booked(cfg, NewBooks(), Initial(cfg))
  {
  }

  /** After every run the books agree with the cache: keys, planes with their charges and
      prefetch marks, pins, 2Q queues, the order of touches, arrivals and admissions, and
      the peak, which is the highest payload there has been. */
  lemma {:induction false} BooksAgree(cfg: Config, ops: seq<Op>)
    requires ConfigOk(cfg)
    ensures Booked(cfg, Kept(cfg, ops), Run(cfg, Initial(cfg), ops))
  {
    if ops == [] {
      NothingHeld(cfg);
    } else {
      var front, op := ops[..|ops| - 1], ops[|ops| - 1];
      BooksAgree(cfg, front);
      RunGood(cfg, front);
      StepSettles(cfg, Kept(cfg, front), Run(cfg, Initial(cfg), front), op);
    }
  }

  /** What one more operation releases after a run. */
  ghost function Releases(cfg: Config, ops: seq<Op>, op: Op): seq<Event>
    requires ConfigOk(cfg)
  {
    var s := Run(cfg, Initial(cfg), ops);
    var t := Step(cfg, s, op).0;
    if s.log <= t.log then t.log[|s.log|..] else []
  }

  /** Whatever an operation releases is what the books hold, and is not pinned by them. */
  lemma {:induction false} ReleasesAreHonest(cfg: Config, ops: seq<Op>, op: Op)
    requires ConfigOk(cfg)
    ensures Honest(Kept(cfg, ops).held, Releases(cfg, ops, op))
  {
    BooksAgree(cfg, ops);
    RunGood(cfg, ops);
    StepSettles(cfg, Kept(cfg, ops), Run(cfg, Initial(cfg), ops), op);
  }

  // ---- What the cache will answer ------------------------------------------------------------

  ghost predicate InBooks(h: Held, payload: Handle) {
    exists key :: key in h && (h[key].base.payload == payload
                               || (h[key].residual.Some? && h[key].residual.value.payload == payload))
  }

  /** The status the books predict; none where space decides between OK and ErrNoSpace, or
      the payload left between OK and PARTIAL. */
  ghost function Foreseen(cfg: Config, h: Held, op: Op): Option<Status>
    requires 0 < cfg.alignment
  {
    var layers := |cfg.floors|;
    match op
    case Get(key, _) => Some(if key.layer >= layers then ErrArgument else Ok)
    case Pin(key) =>
      Some(if key.layer >= layers then ErrArgument else if key !in h then ErrNotFound
           else if h[key].pins == U32_MAX then ErrOverflow else Ok)
    case Unpin(key) =>
      Some(if key.layer >= layers then ErrArgument else if key !in h then ErrNotFound
           else if h[key].pins == 0 then ErrPolicy else Ok)
    case Remove(key) =>
      Some(if key.layer >= layers then ErrArgument else if key !in h then ErrNotFound
           else if h[key].pins != 0 then ErrPolicy else Ok)
    case InsertBase(key, payload, logical, _, _) =>
      if payload == 0 || key.layer >= layers then Some(ErrArgument)
      else if logical == 0 then Some(ErrSize)
      else if Rounded(logical, cfg.alignment) > U64_MAX then Some(ErrOverflow)
      else if key in h || InBooks(h, payload) then Some(ErrExists)
      else None
    case Promote(key, payload, logical, _, _) =>
      if payload == 0 || key.layer >= layers then Some(ErrArgument)
      else if key !in h then Some(ErrNotFound)
      else if h[key].residual.Some? || InBooks(h, payload) then Some(ErrExists)
      else if logical == 0 then Some(ErrSize)
      else if Rounded(logical, cfg.alignment) > U64_MAX then Some(ErrOverflow)
      else None
    case ApplyPressure(_, target) => if target > cfg.budget then Some(ErrSize) else None
    case Destroy => Some(if exists key :: key in h && h[key].pins != 0 then ErrPolicy else Ok)
  }

  predicate Undecided(op: Op, status: Status) {
    match op
    case InsertBase(_, _, _, _, _) => status == Ok || status == ErrNoSpace
    case Promote(_, _, _, _, _) => status == Ok || status == ErrNoSpace
    case _ => status == Ok || status == Partial
  }

  /** What a lookup finds, by the books. */
  function Sought(h: Held, key: Key, requirement: Requirement): Lookup {
    if key !in h then BaseMiss
    else if requirement == RequireFull && h[key].residual.None? then ResidualMiss
    else Hit
  }

  lemma {:induction false} UseIsBooked(cfg: Config, slots: seq<Entry>, h: Held, payload: Handle)
    requires Agrees(cfg, slots, h)
    ensures InUse(slots, payload) <==> InBooks(h, payload)
  {
    if InUse(slots, payload) {
      var i :| 0 <= i < |slots| && Holds(slots[i], payload);
      assert Shows(cfg, slots[i], h[slots[i].key]);
    }
    if InBooks(h, payload) {
      var key :| key in h && (h[key].base.payload == payload
                              || (h[key].residual.Some? && h[key].residual.value.payload == payload));
      var i :| 0 <= i < |slots| && HasKey(slots[i], key);
      assert Shows(cfg, slots[i], h[key]) && Holds(slots[i], payload);
    }
  }

  lemma {:induction false} PinnedIsBooked(cfg: Config, slots: seq<Entry>, h: Held)
    requires Agrees(cfg, slots, h)
    ensures (exists i :: 0 <= i < |slots| && slots[i].Resident? && slots[i].pins != 0)
            <==> exists key :: key in h && h[key].pins != 0
  {
    if i :| 0 <= i < |slots| && slots[i].Resident? && slots[i].pins != 0 {
      assert Shows(cfg, slots[i], h[slots[i].key]);
    }
    if key :| key in h && h[key].pins != 0 {
      var i :| 0 <= i < |slots| && HasKey(slots[i], key);
      assert Shows(cfg, slots[i], h[key]);
    }
  }

  /** Every answer is the one the books foresee; a lookup finds what they hold; and what
      an operation shows of an entry is its line after it. */
  ghost predicate Answers(cfg: Config, l: Ledger, op: Op, reply: Reply, after: Held)
    requires 0 < cfg.alignment
  {
    && (if !l.open then reply.status == ErrArgument
        else if Foreseen(cfg, l.held, op).Some? then reply.status == Foreseen(cfg, l.held, op).value
        else Undecided(op, reply.status))
    && (reply.lookup == if op.Get? && reply.status == Ok then Sought(l.held, op.key, op.requirement) else NoLookup)
    && (reply.view.Some? <==> reply.status == Ok && (op.Pin? || op.Unpin? || op.InsertBase? || op.Promote?
                                                     || (op.Get? && op.key in l.held)))
    && (reply.view.Some? ==> op.key in after && Shows(cfg, reply.view.value, after[op.key])
                             && reply.view.value.key == op.key)
  }

  ghost predicate Meets(cfg: Config, h: Held, op: Op, status: Status)
    requires 0 < cfg.alignment
  {
    var seen := Foreseen(cfg, h, op);
    if seen.Some? then status == seen.value else Undecided(op, status)
  }

  lemma {:induction false} PinMeets(cfg: Config, s: State, h: Held, key: Key)
    requires ConfigOk(cfg) && Agrees(cfg, s.slots, h)
    ensures Meets(cfg, h, Pin(key), DoPin(cfg, s, key).1.status)
    ensures Meets(cfg, h, Unpin(key), DoUnpin(cfg, s, key).1.status)
    ensures Meets(cfg, h, Remove(key), DoRemove(cfg, s, key).1.status)
  {
    FindHeld(cfg, s.slots, h, key);
  }

  lemma {:induction false} InsertMeets(cfg: Config, s: State, h: Held, op: Op)
    requires ConfigOk(cfg) && Agrees(cfg, s.slots, h) && op.InsertBase?
    requires DoInsert(cfg, s, op.key, op.payload, op.logical, op.read, op.prefetch).1.status != ErrCorrupt
    ensures Meets(cfg, h, op, DoInsert(cfg, s, op.key, op.payload, op.logical, op.read, op.prefetch).1.status)
  {
    FindHeld(cfg, s.slots, h, op.key);
    UseIsBooked(cfg, s.slots, h, op.payload);
  }

  lemma {:induction false} PromoteMeets(cfg: Config, s: State, h: Held, op: Op)
    requires ConfigOk(cfg) && Agrees(cfg, s.slots, h) && op.Promote?
    ensures Meets(cfg, h, op, DoPromote(cfg, s, op.key, op.payload, op.logical, op.read, op.prefetch).1.status)
  {
    FindHeld(cfg, s.slots, h, op.key);
    UseIsBooked(cfg, s.slots, h, op.payload);
  }

  lemma {:induction false} StepMeets(cfg: Config, s: State, h: Held, op: Op)
    requires Good(cfg, s) && ConfigOk(cfg) && Agrees(cfg, s.slots, h) && s.alive
    ensures Meets(cfg, h, op, Step(cfg, s, op).1.status)
  {
    match op {
      case Get(_, _) =>
      case Pin(key) => PinMeets(cfg, s, h, key);
      case Unpin(key) => PinMeets(cfg, s, h, key);
      case Remove(key) => PinMeets(cfg, s, h, key);
      case InsertBase(key, payload, logical, read, prefetch) =>
        InsertSafe(cfg, s, key, payload, logical, read, prefetch);
        InsertMeets(cfg, s, h, op);
      case Promote(_, _, _, _, _) => PromoteMeets(cfg, s, h, op);
      case ApplyPressure(_, _) =>
      case Destroy => PinnedIsBooked(cfg, s.slots, h);
    }
  }

  lemma {:induction false} LookupMeets(cfg: Config, s: State, h: Held, key: Key, requirement: Requirement)
    requires ConfigOk(cfg) && Agrees(cfg, s.slots, h) && key.layer < |cfg.floors|
    ensures DoGet(cfg, s, key, requirement).1.lookup == Sought(h, key, requirement)
  {
    FindHeld(cfg, s.slots, h, key);
  }

  predicate OnView(t: State, i: nat, reply: Reply, key: Key) {
    i < |t.slots| && Some(t.slots[i]) == reply.view && HasKey(t.slots[i], key)
  }

  /** An entry on view is one of the slots after the step. */
  ghost predicate Viewed(op: Op, reply: Reply, t: State) {
    && (reply.view.Some? ==>
          && reply.status == Ok && (op.Get? || op.Pin? || op.Unpin? || op.InsertBase? || op.Promote?)
          && exists i: nat :: OnView(t, i, reply, op.key))
    && (reply.status == Ok && (op.Pin? || op.Unpin? || op.InsertBase? || op.Promote?) ==> reply.view.Some?)
    && (op.Get? && reply.status == Ok ==> (reply.view.Some? <==> reply.lookup != BaseMiss))
    && (!op.Get? ==> reply.lookup == NoLookup)
  }

  lemma {:induction false} SimpleViews(cfg: Config, s: State, key: Key, requirement: Requirement)
    ensures Viewed(Get(key, requirement), DoGet(cfg, s, key, requirement).1, DoGet(cfg, s, key, requirement).0)
    ensures Viewed(Pin(key), DoPin(cfg, s, key).1, DoPin(cfg, s, key).0)
    ensures Viewed(Unpin(key), DoUnpin(cfg, s, key).1, DoUnpin(cfg, s, key).0)
  {
    var i := Find(s.slots, key);
    if key.layer < |cfg.floors| && i.Some? {
      var (t, got) := DoGet(cfg, s, key, requirement);
      var (u, pinned) := DoPin(cfg, s, key);
      var (v, unpinned) := DoUnpin(cfg, s, key);
      assert OnView(t, i.value, got, key);
      assert pinned.status == Ok ==> OnView(u, i.value, pinned, key);
      assert unpinned.status == Ok ==> OnView(v, i.value, unpinned, key);
    }
  }

  lemma {:induction false} InsertViews(cfg: Config, s: State, op: Op)
    requires Good(cfg, s) && op.InsertBase?
    ensures var (u, reply) := DoInsert(cfg, s, op.key, op.payload, op.logical, op.read, op.prefetch);
            Viewed(op, reply, u)
  {
    var t := InsertIs(cfg, s, op);
    var (u, reply) := DoInsert(cfg, s, op.key, op.payload, op.logical, op.read, op.prefetch);
    assert reply.status == Ok ==> OnView(u, FreeSlot(t.slots).value, reply, op.key);
  }

  lemma {:induction false} PromoteViews(cfg: Config, s: State, op: Op)
    requires Good(cfg, s) && op.Promote?
    ensures var (u, reply) := DoPromote(cfg, s, op.key, op.payload, op.logical, op.read, op.prefetch);
            Viewed(op, reply, u)
  {
    var t := PromoteIs(cfg, s, op);
    var (u, reply) := DoPromote(cfg, s, op.key, op.payload, op.logical, op.read, op.prefetch);
    assert reply.status == Ok ==> OnView(u, Find(s.slots, op.key).value, reply, op.key);
  }

  lemma {:induction false} StepViews(cfg: Config, s: State, op: Op)
    requires Good(cfg, s) && ConfigOk(cfg) && s.alive
    ensures Viewed(op, Step(cfg, s, op).1, Step(cfg, s, op).0)
  {
    match op {
      case Get(key, requirement) => SimpleViews(cfg, s, key, requirement);
      case Pin(key) => SimpleViews(cfg, s, key, RequireBase);
      case Unpin(key) => SimpleViews(cfg, s, key, RequireBase);
      case InsertBase(_, _, _, _, _) => InsertViews(cfg, s, op);
      case Promote(_, _, _, _, _) => PromoteViews(cfg, s, op);
      case _ =>
    }
  }

  lemma {:induction false} LookupForeseen(cfg: Config, s: State, h: Held, op: Op)
    requires ConfigOk(cfg) && Agrees(cfg, s.slots, h) && s.alive && op.Get?
    ensures var reply := Step(cfg, s, op).1;
            reply.lookup == if reply.status == Ok then Sought(h, op.key, op.requirement) else NoLookup
  {
    FindHeld(cfg, s.slots, h, op.key);
  }

  lemma {:induction false} ViewShows(cfg: Config, op: Op, reply: Reply, t: State, after: Held)
    requires Viewed(op, reply, t) && Agrees(cfg, t.slots, after) && reply.view.Some?
    ensures op.key in after && reply.view.value.Resident? && reply.view.value.key == op.key
    ensures Shows(cfg, reply.view.value, after[op.key])
  {
    var i: nat :| OnView(t, i, reply, op.key);
  }

  /** After any run the next answer is as the books foresee. */
  lemma {:induction false} AnswersAreForeseen(cfg: Config, ops: seq<Op>, op: Op)
    requires ConfigOk(cfg)
    ensures Answers(cfg, Kept(cfg, ops), op, Step(cfg, Run(cfg, Initial(cfg), ops), op).1, Kept(cfg, ops + [op]).held)
  {
    var s := Run(cfg, Initial(cfg), ops);
    BooksAgree(cfg, ops);
    RunGood(cfg, ops);
    BooksAgree(cfg, ops + [op]);
    assert (ops + [op])[..|ops|] == ops;
    AnswerForeseen(cfg, Kept(cfg, ops), s, op, Kept(cfg, ops + [op]).held);
  }

  lemma {:induction false} AnswerForeseen(cfg: Config, l: Ledger, s: State, op: Op, after: Held)
    requires Good(cfg, s) && ConfigOk(cfg) && Booked(cfg, l, s) && Agrees(cfg, Step(cfg, s, op).0.slots, after)
    ensures Answers(cfg, l, op, Step(cfg, s, op).1, after)
  {
    if s.alive {
      var (t, reply) := Step(cfg, s, op);
      StepMeets(cfg, s, l.held, op);
      StepViews(cfg, s, op);
      if op.Get? { LookupForeseen(cfg, s, l.held, op); }
      if reply.view.Some? { ViewShows(cfg, op, reply, t, after); }
    }
  }

  // ---- Pins -----------------------------------------------------------------------------------

  /** Successful pins of a key less successful unpins of it since it was last admitted,
      counted from operations and replies. */
  ghost function Outstanding(cfg: Config, ops: seq<Op>, key: Key): int
    requires ConfigOk(cfg)
  {
    if ops == [] then 0
    else
      var front, op := ops[..|ops| - 1], ops[|ops| - 1];
      var before := Outstanding(cfg, front, key);
      if Step(cfg, Run(cfg, Initial(cfg), front), op).1.status != Ok then before
      else match op
        case InsertBase(k, _, _, _, _) => if k == key then 0 else before
        case Pin(k) => if k == key then before + 1 else before
        case Unpin(k) => if k == key then before - 1 else before
        case _ => before
  }

  lemma {:induction false} StruckPins(h: Held, events: seq<Event>, key: Key)
    ensures key in StruckAll(h, events) ==> key in h && StruckAll(h, events)[key].pins == h[key].pins
    decreases |events|
  {
    if events != [] { StruckPins(Struck(h, events[0]), events[1..], key); }
  }

  lemma {:induction false} EnteredPins(cfg: Config, l: Ledger, op: Op, status: Status, events: seq<Event>, key: Key)
    requires 0 < cfg.alignment
    ensures var more := Entered(cfg, l, op, status, events).held;
            key in more ==>
              if status == Ok && op.InsertBase? && op.key == key then more[key].pins == 0
              else
                key in l.held
                && more[key].pins == l.held[key].pins + (if status == Ok && op == Pin(key) then 1
                                                         else if status == Ok && op == Unpin(key) then -1 else 0)
  {
    StruckPins(l.held, events, key);
  }

  lemma {:induction false} BookedPins(cfg: Config, ops: seq<Op>, key: Key)
    requires ConfigOk(cfg)
    ensures key in Kept(cfg, ops).held ==> Kept(cfg, ops).held[key].pins == Outstanding(cfg, ops, key)
  {
    if ops != [] {
      var front := ops[..|ops| - 1];
      var s := Run(cfg, Initial(cfg), front);
      var t := Step(cfg, s, ops[|ops| - 1]).0;
      BookedPins(cfg, front, key);
      EnteredPins(cfg, Kept(cfg, front), ops[|ops| - 1], Step(cfg, s, ops[|ops| - 1]).1.status,
                  if s.log <= t.log then t.log[|s.log|..] else [], key);
    }
  }

  /** The pin count of an entry is the number of pins outstanding on its key. */
  lemma {:induction false} PinsCount(cfg: Config, ops: seq<Op>, i: nat)
    requires ConfigOk(cfg)
    requires i < |Run(cfg, Initial(cfg), ops).slots| && Run(cfg, Initial(cfg), ops).slots[i].Resident?
    ensures var e := Run(cfg, Initial(cfg), ops).slots[i]; e.pins == Outstanding(cfg, ops, e.key)
  {
    BooksAgree(cfg, ops);
    BookedPins(cfg, ops, Run(cfg, Initial(cfg), ops).slots[i].key);
  }

  lemma {:induction false} HonestPins(h: Held, events: seq<Event>, k: nat)
    requires Honest(h, events) && k < |events|
    ensures events[k].key in h && h[events[k].key].pins == 0
    decreases |events|
  {
    if k > 0 {
      HonestPins(Struck(h, events[0]), events[1..], k - 1);
      assert events[1..][k - 1] == events[k];
    }
  }

  /** No operation releases anything of a key with a pin outstanding. */
  lemma {:induction false} PinnedIsKept(cfg: Config, ops: seq<Op>, op: Op, k: nat)
    requires ConfigOk(cfg) && k < |Releases(cfg, ops, op)|
    ensures Outstanding(cfg, ops, Releases(cfg, ops, op)[k].key) == 0
  {
    var events := Releases(cfg, ops, op);
    ReleasesAreHonest(cfg, ops, op);
    HonestPins(Kept(cfg, ops).held, events, k);
    BookedPins(cfg, ops, events[k].key);
  }
}
