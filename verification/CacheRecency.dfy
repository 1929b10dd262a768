/** The header promises exact recency for LRU and a FIFO cold queue for 2Q. Both hold
    for runs that hand out at most 2^64 - 1 stamps (CacheRuns.LruVictim and
    CacheRuns.TwoQueueVictim). A renormalising operation can break either; this module
    says exactly which one does. */
module CacheRecency {
  import opened Basics
  import opened CacheTypes
  import opened CachePolicy
  import opened CacheModel
  import opened CachePlan
  import opened CacheInvariant
  import opened CacheRuns
  import opened CacheTheorems
  import opened CacheOrder

  /** The LRU order is the order of last touches. */
  ghost predicate ExactLru(slots: seq<Entry>, touched: seq<Key>) {
    forall i, j :: 0 <= i < |slots| && 0 <= j < |slots| && slots[i].Resident? && slots[j].Resident?
      && LastMention(touched, slots[i].key) < LastMention(touched, slots[j].key)
      ==> Precedes(Lru, slots[i], i, slots[j], j)
  }

  /** The order of the cold queue is the order of arrivals. */
  ghost predicate ExactFifo(slots: seq<Entry>, arrived: seq<Key>) {
    forall i, j :: 0 <= i < |slots| && 0 <= j < |slots| && Cold(slots[i]) && Cold(slots[j])
      && LastMention(arrived, slots[i].key) < LastMention(arrived, slots[j].key)
      ==> Precedes(TwoQueue, slots[i], i, slots[j], j)
  }

  predicate Cold(e: Entry) { e.Resident? && !e.hot }

  // ---- As queues ------------------------------------------------------------------

  function Recents(slots: seq<Entry>, touched: seq<Key>): (q: Queue)
    ensures |q| == |slots|
  {
    seq(|slots|, (i: nat) requires i < |slots| =>
      if slots[i].Resident? then Some(Rank(slots[i].lastAccess, LastMention(touched, slots[i].key))) else None)
  }

  function Arrivals(slots: seq<Entry>, arrived: seq<Key>): (q: Queue)
    ensures |q| == |slots|
  {
    seq(|slots|, (i: nat) requires i < |slots| =>
      if Cold(slots[i]) then Some(Rank(slots[i].admissionOrder, LastMention(arrived, slots[i].key))) else None)
  }

  lemma {:induction false} LruIsQueue(slots: seq<Entry>, touched: seq<Key>)
    ensures ExactLru(slots, touched) <==> Exact(Recents(slots, touched))
  {
    var q := Recents(slots, touched);
    if ExactLru(slots, touched) {
      forall i, j | 0 <= i < |q| && 0 <= j < |q| && q[i].Some? && q[j].Some? && q[i].value.turn < q[j].value.turn
        ensures Ahead(q[i].value, i, q[j].value, j)
      {
        assert Precedes(Lru, slots[i], i, slots[j], j);
      }
    }
    if Exact(q) {
      forall i, j | 0 <= i < |slots| && 0 <= j < |slots| && slots[i].Resident? && slots[j].Resident?
                    && LastMention(touched, slots[i].key) < LastMention(touched, slots[j].key)
        ensures Precedes(Lru, slots[i], i, slots[j], j)
      {
        assert Ahead(q[i].value, i, q[j].value, j);
      }
    }
  }

  lemma {:induction false} FifoIsQueue(slots: seq<Entry>, arrived: seq<Key>)
    ensures ExactFifo(slots, arrived) <==> Exact(Arrivals(slots, arrived))
  {
    var q := Arrivals(slots, arrived);
    if ExactFifo(slots, arrived) {
      forall i, j | 0 <= i < |q| && 0 <= j < |q| && q[i].Some? && q[j].Some? && q[i].value.turn < q[j].value.turn
        ensures Ahead(q[i].value, i, q[j].value, j)
      {
        assert Precedes(TwoQueue, slots[i], i, slots[j], j);
      }
    }
    if Exact(q) {
      forall i, j | 0 <= i < |slots| && 0 <= j < |slots| && Cold(slots[i]) && Cold(slots[j])
                    && LastMention(arrived, slots[i].key) < LastMention(arrived, slots[j].key)
        ensures Precedes(TwoQueue, slots[i], i, slots[j], j)
      {
        assert Ahead(q[i].value, i, q[j].value, j);
      }
    }
  }

  lemma {:induction false} TurnsDiffer(slots: seq<Entry>, history: seq<Key>)
    requires DistinctKeys(slots) && Mentioned(slots, history)
    ensures DistinctTurns(Recents(slots, history)) && DistinctTurns(Arrivals(slots, history))
  {
    forall i, j | 0 <= i < j < |slots| && slots[i].Resident? && slots[j].Resident?
      ensures LastMention(history, slots[i].key) != LastMention(history, slots[j].key)
    {
      MentionInjective(history, slots[i].key, slots[j].key);
    }
  }

  // ---- Which entries an operation stamps, and which it leaves alone ---------------------

  /** The operation hands out a stamp: a lookup that finds its key, an admission. */
  ghost predicate Stamps(cfg: Config, s: State, op: Op)
    requires ConfigOk(cfg)
  {
    && s.alive
    && match op
       case Get(key, _) => key.layer < |cfg.floors| && Find(s.slots, key).Some?
       case InsertBase(key, payload, logical, _, _) => Admits(cfg, s, key, payload, logical)
       case _ => false
  }

  /** What an admission needs: a payload not yet held, a layer in range, a size that can
      be charged, a key not resident, and a plan to make room. */
  ghost predicate Admits(cfg: Config, s: State, key: Key, payload: Handle, logical: nat)
    requires ConfigOk(cfg)
  {
    && payload != 0 && !InUse(s.slots, payload)
    && key.layer < |cfg.floors| && Find(s.slots, key).None?
    && PayloadCharge(cfg, logical).0 == Ok
    && Plan(PolicyChooser(cfg, None), cfg, s, PayloadCharge(cfg, logical).1, true).Some?
  }

  /** It then succeeds, and otherwise it does not. */
  lemma {:induction false} AdmitsExactly(cfg: Config, s: State, op: Op)
    requires Good(cfg, s) && ConfigOk(cfg) && op.InsertBase?
    ensures Step(cfg, s, op).1.status == Ok <==> Stamps(cfg, s, op)
  {
    if Stamps(cfg, s, op) { RoomMade(cfg, s, PayloadCharge(cfg, op.logical).1, true, None); }
  }

  /** The entries that survive a stamping operation without being stamped: all but
      the one looked up, or all but the planned victims. */
  ghost function Bystanders(cfg: Config, s: State, op: Op): seq<Entry>
    requires ConfigOk(cfg)
  {
    match op
    case Get(key, _) =>
      var found := Find(s.slots, key);
      if found.Some? then s.slots[found.value := Vacant] else s.slots
    case InsertBase(_, _, logical, _, _) =>
      var plan := Plan(PolicyChooser(cfg, None), cfg, s, PayloadCharge(cfg, logical).1, true);
      if plan.Some? then Vacate(s.slots, plan.value) else s.slots
    case _ => s.slots
  }

  /** Entries leave or keep what orders them. */
  ghost predicate Stays(s: State, u: State) {
    && u.touched == s.touched && u.arrived == s.arrived && |u.slots| == |s.slots|
    && forall i :: 0 <= i < |s.slots| ==> u.slots[i].Vacant? || SameStamps(s.slots[i], u.slots[i])
  }

  predicate SameStamps(a: Entry, b: Entry) {
    && a.Resident? && b.Resident? && a.key == b.key && a.hot == b.hot
    && a.lastAccess == b.lastAccess && a.admissionOrder == b.admissionOrder
  }

  lemma {:induction false} ReclaimsStays(s: State, t: State)
    requires Reclaims(s, t)
    ensures Stays(s, t)
  {
    forall i | 0 <= i < |s.slots|
      ensures t.slots[i].Vacant? || SameStamps(s.slots[i], t.slots[i])
    {
      assert Shrinks(s.slots[i], t.slots[i]);
    }
  }

  lemma {:induction false} StaysLru(s: State, u: State)
    requires Stays(s, u) && ExactLru(s.slots, s.touched)
    ensures ExactLru(u.slots, u.touched)
  {
    LruIsQueue(s.slots, s.touched);
    LruIsQueue(u.slots, u.touched);
    FewerExact(Recents(s.slots, s.touched), Recents(u.slots, u.touched));
  }

  lemma {:induction false} StaysFifo(s: State, u: State)
    requires Stays(s, u) && ExactFifo(s.slots, s.arrived)
    ensures ExactFifo(u.slots, u.arrived)
  {
    FifoIsQueue(s.slots, s.arrived);
    FifoIsQueue(u.slots, u.arrived);
    FewerExact(Arrivals(s.slots, s.arrived), Arrivals(u.slots, u.arrived));
  }

  lemma {:induction false} OtherOpsStay(cfg: Config, s: State, op: Op)
    requires Good(cfg, s) && ConfigOk(cfg) && !Stamps(cfg, s, op)
    ensures Stays(s, Step(cfg, s, op).0)
  {
    if s.alive {
      match op {
        case Get(_, _) =>
        case Pin(key) => PinsStay(cfg, s, key);
        case Unpin(key) => PinsStay(cfg, s, key);
        case InsertBase(_, _, _, _, _) => RefusedStays(cfg, s, op);
        case Promote(key, p, l, r, f) => PromoteStays(cfg, s, key, p, l, r, f);
        case Remove(key) => RemoveStays(cfg, s, key);
        case ApplyPressure(level, target) => PressureStays(cfg, s, level, target);
        case Destroy => DestroyStays(s);
      }
    }
  }

  lemma {:induction false} RefusedStays(cfg: Config, s: State, op: Op)
    requires Good(cfg, s) && ConfigOk(cfg) && op.InsertBase? && !Stamps(cfg, s, op)
    ensures Stays(s, Step(cfg, s, op).0)
  {
    AdmitsExactly(cfg, s, op);
    StepSafe(cfg, s, op);
    assert Step(cfg, s, op).1.status != Partial;
  }

  lemma PinsStay(cfg: Config, s: State, key: Key)
    ensures Stays(s, DoPin(cfg, s, key).0) && Stays(s, DoUnpin(cfg, s, key).0)
  {
  }

  lemma {:induction false} RemoveStays(cfg: Config, s: State, key: Key)
    ensures Stays(s, DoRemove(cfg, s, key).0)
  {
    var found := Find(s.slots, key);
    if found.Some? && s.slots[found.value].pins == 0 {
      ReclaimsBase(s, found.value, Explicit);
      ReclaimsStays(s, DropBase(s, found.value, Explicit));
    }
  }

  lemma {:induction false} PressureStays(cfg: Config, s: State, level: Pressure, target: nat)
    ensures Stays(s, DoPressure(cfg, s, level, target).0)
  {
    ReclaimsPressure(cfg, s, level, target);
    ReclaimsStays(s, Pressed(cfg, s, level, target));
  }

  lemma {:induction false} DestroyStays(s: State)
    ensures Stays(s, DoDestroy(s).0)
  {
    if DoDestroy(s).1.status == Ok {
      ReclaimsAll(s, 0);
      ReclaimsStays(s, ReleaseFrom(s, 0));
    }
  }

  lemma {:induction false} PromoteStays(cfg: Config, s: State, key: Key, payload: Handle, logical: nat, read: nat,
                                        prefetch: bool)
    requires Good(cfg, s) && ConfigOk(cfg)
    ensures Stays(s, DoPromote(cfg, s, key, payload, logical, read, prefetch).0)
  {
    var (u, reply) := DoPromote(cfg, s, key, payload, logical, read, prefetch);
    PromoteCases(cfg, s, key, payload, logical, read, prefetch);
    if u != s {
      var i, charge := Find(s.slots, key).value, PayloadCharge(cfg, logical).1;
      PromoteRoomStays(cfg, s, i, charge);
      AttachStays(s, MakeRoom(PolicyChooser(cfg, Some(i)), cfg, s, charge, false), i,
                  Plane(payload, logical, charge, read, prefetch));
    }
  }

  /** A promotion changes nothing, or makes room and attaches the plane. */
  lemma {:induction false} PromoteCases(cfg: Config, s: State, key: Key, payload: Handle, logical: nat, read: nat,
                                        prefetch: bool)
    requires ConfigOk(cfg)
    ensures var u, found := DoPromote(cfg, s, key, payload, logical, read, prefetch).0, Find(s.slots, key);
            var charge := PayloadCharge(cfg, logical).1;
            var t := MakeRoom(PolicyChooser(cfg, found), cfg, s, charge, false);
            u == s || (&& found.Some? && s.slots[found.value].residual.None?
                       && Plan(PolicyChooser(cfg, found), cfg, s, charge, false).Some?
                       && found.value < |t.slots| && t.slots[found.value].Resident?
                       && u == Attach(t, found.value, Plane(payload, logical, charge, read, prefetch)))
  {
    var found := Find(s.slots, key);
    if found.Some? {
      ProtectedStays(PolicyChooser(cfg, found), cfg, s, PayloadCharge(cfg, logical).1, false, found.value);
    }
  }

  lemma {:induction false} PromoteRoomStays(cfg: Config, s: State, i: nat, charge: nat)
    requires Good(cfg, s) && Plan(PolicyChooser(cfg, Some(i)), cfg, s, charge, false).Some?
    ensures Stays(s, MakeRoom(PolicyChooser(cfg, Some(i)), cfg, s, charge, false))
  {
    RoomMade(cfg, s, charge, false, Some(i));
    ReclaimsStays(s, MakeRoom(PolicyChooser(cfg, Some(i)), cfg, s, charge, false));
  }

  lemma {:induction false} AttachStays(s: State, t: State, i: nat, p: Plane)
    requires Stays(s, t) && i < |t.slots| && t.slots[i].Resident?
    ensures Stays(s, Attach(t, i, p))
  {
    var u := Attach(t, i, p);
    forall j | 0 <= j < |s.slots|
      ensures u.slots[j].Vacant? || SameStamps(s.slots[j], u.slots[j])
    {
      assert t.slots[j].Vacant? || SameStamps(s.slots[j], t.slots[j]);
    }
  }

  // ---- A stamp ------------------------------------------------------------------------

  /** Slot `i` is the only one that may hold the key. */
  ghost predicate OnlyAt(slots: seq<Entry>, i: nat, key: Key) {
    i < |slots| && forall j :: 0 <= j < |slots| && j != i ==> !HasKey(slots[j], key)
  }

  lemma {:induction false} RecentsTicked(s: State, i: nat, e: Entry)
    requires e.Resident? && OnlyAt(s.slots, i, e.key)
    ensures Recents(Tick(s).slots[i := e], s.touched + [e.key])
            == Advanced(Recents(s.slots, s.touched), i, s.clock == U64_MAX, Some(Rank(e.lastAccess, |s.touched| + 1)))
    ensures Recents(s.slots, s.touched)[i := None] == Recents(s.slots[i := Vacant], s.touched)
  {
    LastMentionAppend(s.touched, e.key);
    var left := Recents(Tick(s).slots[i := e], s.touched + [e.key]);
    var right := Advanced(Recents(s.slots, s.touched), i, s.clock == U64_MAX,
                          Some(Rank(e.lastAccess, |s.touched| + 1)));
    forall j | 0 <= j < |s.slots|
      ensures left[j] == right[j]
    {
      assert j != i ==> !HasKey(s.slots[j], e.key);
    }
  }

  lemma {:induction false} StampLru(cfg: Config, s: State, i: nat, e: Entry)
    requires Good(cfg, s) && e.Resident? && OnlyAt(s.slots, i, e.key) && e.lastAccess == Tick(s).clock
    requires ExactLru(s.slots, s.touched)
    ensures ExactLru(Tick(s).slots[i := e], s.touched + [e.key])
            <==> !(s.clock == U64_MAX && Merging(Recents(s.slots[i := Vacant], s.touched)))
  {
    var q, r := Recents(s.slots, s.touched), Rank(e.lastAccess, |s.touched| + 1);
    LruIsQueue(s.slots, s.touched);
    LruIsQueue(Tick(s).slots[i := e], s.touched + [e.key]);
    TurnsDiffer(s.slots, s.touched);
    RecentsTicked(s, i, e);
    TickFresh(cfg, s);
    forall j | 0 <= j < |q| && j != i && q[j].Some?
      ensures (if s.clock == U64_MAX then Halve(q[j].value.stamp) else q[j].value.stamp) < r.stamp
    {
      assert Tick(s).slots[j].lastAccess < Tick(s).clock;
    }
    AdvancedExact(q, i, s.clock == U64_MAX, Some(r));
  }

  /** The rank of an entry in the cold queue after it is stamped: none once hot. */
  function ColdRank(e: Entry, s: State): Option<Rank>
    requires e.Resident?
  {
    if e.hot then None else Some(Rank(e.admissionOrder, |s.arrived| + 1))
  }

  lemma {:induction false} ArrivalsTicked(s: State, i: nat, e: Entry)
    requires e.Resident? && OnlyAt(s.slots, i, e.key)
    ensures Arrivals(Tick(s).slots[i := e], if e.hot then s.arrived else s.arrived + [e.key])
            == Advanced(Arrivals(s.slots, s.arrived), i, s.clock == U64_MAX, ColdRank(e, s))
    ensures Arrivals(s.slots, s.arrived)[i := None] == Arrivals(s.slots[i := Vacant], s.arrived)
  {
    LastMentionAppend(s.arrived, e.key);
    var history := if e.hot then s.arrived else s.arrived + [e.key];
    var left := Arrivals(Tick(s).slots[i := e], history);
    var right := Advanced(Arrivals(s.slots, s.arrived), i, s.clock == U64_MAX, ColdRank(e, s));
    forall j | 0 <= j < |s.slots|
      ensures left[j] == right[j]
    {
      assert j != i ==> !HasKey(s.slots[j], e.key);
    }
  }

  lemma {:induction false} StampFifo(cfg: Config, s: State, i: nat, e: Entry)
    requires Good(cfg, s) && e.Resident? && OnlyAt(s.slots, i, e.key) && (e.hot || e.admissionOrder == Tick(s).clock)
    requires ExactFifo(s.slots, s.arrived)
    ensures ExactFifo(Tick(s).slots[i := e], if e.hot then s.arrived else s.arrived + [e.key])
            <==> !(s.clock == U64_MAX && Merging(Arrivals(s.slots[i := Vacant], s.arrived)))
  {
    var q, r := Arrivals(s.slots, s.arrived), ColdRank(e, s);
    FifoIsQueue(s.slots, s.arrived);
    FifoIsQueue(Tick(s).slots[i := e], if e.hot then s.arrived else s.arrived + [e.key]);
    TurnsDiffer(s.slots, s.arrived);
    ArrivalsTicked(s, i, e);
    TickFresh(cfg, s);
    forall j | 0 <= j < |q| && j != i && q[j].Some?
      ensures (if s.clock == U64_MAX then Halve(q[j].value.stamp) else q[j].value.stamp) < Tick(s).clock
    {
      assert Tick(s).slots[j].admissionOrder < Tick(s).clock;
    }
    AdvancedExact(q, i, s.clock == U64_MAX, r);
  }

  // ---- The operations -------------------------------------------------------------------

  lemma {:induction false} GetStamps(cfg: Config, s: State, key: Key, requirement: Requirement)
    requires Good(cfg, s) && key.layer < |cfg.floors| && Find(s.slots, key).Some?
    ensures var i, u := Find(s.slots, key).value, DoGet(cfg, s, key, requirement).0;
            && OnlyAt(s.slots, i, key)
            && u.slots == Tick(s).slots[i := u.slots[i]] && u.touched == s.touched + [key] && u.arrived == s.arrived
            && u.slots[i].Resident? && u.slots[i].key == key && u.slots[i].lastAccess == Tick(s).clock
            && (cfg.policy == TwoQueue ==> u.slots[i].hot)
  {
    var i := Find(s.slots, key).value;
    assert HasKey(s.slots[i], key);
  }

  /** What an admission does once room is made. */
  lemma {:induction false} InsertStamps(cfg: Config, s: State, op: Op) returns (t: State, i: nat)
    requires Good(cfg, s) && ConfigOk(cfg) && op.InsertBase? && Stamps(cfg, s, op)
    ensures var u := Step(cfg, s, op).0;
            && Good(cfg, t) && Stays(s, t) && t.clock == s.clock && OnlyAt(t.slots, i, op.key) && t.slots[i].Vacant?
            && SameBases(t.slots, Bystanders(cfg, s, op))
            && u.slots == Tick(t).slots[i := u.slots[i]]
            && u.touched == t.touched + [op.key] && u.arrived == t.arrived + [op.key]
            && Cold(u.slots[i]) && u.slots[i].key == op.key
            && u.slots[i].lastAccess == Tick(t).clock == u.slots[i].admissionOrder
  {
    var choose, charge := PolicyChooser(cfg, None), PayloadCharge(cfg, op.logical).1;
    t := MakeRoom(choose, cfg, s, charge, true);
    RoomMade(cfg, s, charge, true, None);
    ReclaimsStays(s, t);
    ReclaimKeepsAbsence(s, t, op.key, op.payload);
    i := FreeSlot(t.slots).value;
    PolicySensible(cfg, None);
    var demoted := PlanAgrees(choose, cfg, s, charge, true);
  }

  lemma {:induction false} SameBasesSameQueues(a: seq<Entry>, b: seq<Entry>, history: seq<Key>)
    requires SameBases(a, b)
    ensures Recents(a, history) == Recents(b, history) && Arrivals(a, history) == Arrivals(b, history)
  {
    forall i | 0 <= i < |a|
      ensures Recents(a, history)[i] == Recents(b, history)[i] && Arrivals(a, history)[i] == Arrivals(b, history)[i]
    {
      assert BaseOnly(a[i]) == BaseOnly(b[i]);
    }
  }

  /** An operation keeps recency exact if and only if it is not one that hands out a
      stamp with the clock at its maximum while two of the entries it leaves alone
      have last-access stamps that merge, the more recent one in the lower slot. */
  lemma {:induction false} StepKeepsExactLru(cfg: Config, s: State, op: Op)
    requires Good(cfg, s) && ConfigOk(cfg) && ExactLru(s.slots, s.touched)
    ensures var u := Step(cfg, s, op).0;
            ExactLru(u.slots, u.touched)
            <==> !(Stamps(cfg, s, op) && s.clock == U64_MAX && Merging(Recents(Bystanders(cfg, s, op), s.touched)))
  {
    if !Stamps(cfg, s, op) {
      OtherOpsStay(cfg, s, op);
      StaysLru(s, Step(cfg, s, op).0);
    } else if op.Get? {
      var i := Find(s.slots, op.key).value;
      GetStamps(cfg, s, op.key, op.requirement);
      StampLru(cfg, s, i, DoGet(cfg, s, op.key, op.requirement).0.slots[i]);
    } else {
      var t, i := InsertStamps(cfg, s, op);
      StaysLru(s, t);
      StampLru(cfg, t, i, Step(cfg, s, op).0.slots[i]);
      assert t.slots[i := Vacant] == t.slots;
      SameBasesSameQueues(t.slots, Bystanders(cfg, s, op), s.touched);
    }
  }

  /** Under 2Q the same holds of the cold queue, with the stamps of arrival. */
  lemma {:induction false} StepKeepsExactFifo(cfg: Config, s: State, op: Op)
    requires Good(cfg, s) && ConfigOk(cfg) && cfg.policy == TwoQueue && ExactFifo(s.slots, s.arrived)
    ensures var u := Step(cfg, s, op).0;
            ExactFifo(u.slots, u.arrived)
            <==> !(Stamps(cfg, s, op) && s.clock == U64_MAX && Merging(Arrivals(Bystanders(cfg, s, op), s.arrived)))
  {
    if !Stamps(cfg, s, op) {
      OtherOpsStay(cfg, s, op);
      StaysFifo(s, Step(cfg, s, op).0);
    } else if op.Get? {
      var i := Find(s.slots, op.key).value;
      GetStamps(cfg, s, op.key, op.requirement);
      StampFifo(cfg, s, i, DoGet(cfg, s, op.key, op.requirement).0.slots[i]);
    } else {
      var t, i := InsertStamps(cfg, s, op);
      StaysFifo(s, t);
      StampFifo(cfg, t, i, Step(cfg, s, op).0.slots[i]);
      assert t.slots[i := Vacant] == t.slots;
      SameBasesSameQueues(t.slots, Bystanders(cfg, s, op), s.arrived);
    }
  }
}
