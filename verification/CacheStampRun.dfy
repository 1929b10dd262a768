/** One run of 2^64 stamps, under either policy, after which the next victim is the
    wrong one: LRU takes the more recently touched of two entries, 2Q the later of
    two arrivals in its cold queue. */
module CacheStampRun {
  import opened Basics
  import opened CacheTypes
  import opened CachePolicy
  import opened CacheModel
  import opened CacheInvariant
  import opened CacheRuns
  import opened CacheTheorems

  function ThreeSlots(policy: Policy): Config {
    Config(3, 1, 3, [Floor(0, 0)], policy)
  }

  function Expert(n: nat): Key { Key(0, n) }

  function Admission(n: nat): Op { InsertBase(Expert(n), n + 1, 1, 0, false) }

  function Lookup(): Op { Op.Get(Expert(2), RequireBase) }

  function Newcomer(n: nat, stamp: nat): Entry {
    NewEntry(Expert(n), Plane(n + 1, 1, 1, 0, false), stamp)
  }

  ghost function After(policy: Policy, ops: seq<Op>): State {
    Run(ThreeSlots(policy), Initial(ThreeSlots(policy)), ops)
  }

  lemma {:induction false} AfterSnoc(policy: Policy, ops: seq<Op>, op: Op)
    ensures After(policy, ops + [op]) == Step(ThreeSlots(policy), After(policy, ops), op).0
    ensures Good(ThreeSlots(policy), After(policy, ops))
  {
    assert (ops + [op])[..|ops|] == ops;
    RunGood(ThreeSlots(policy), ops);
  }

  lemma OneByte(policy: Policy)
    ensures PayloadCharge(ThreeSlots(policy), 1) == (Ok, 1)
  {
  }

  // ---- Filling the slots ------------------------------------------------------------

  ghost predicate Small(e: Entry) { e.Vacant? || exists n: nat, stamp: nat :: e == Newcomer(n, stamp) }

  lemma {:induction false} ThreeSums(slots: seq<Entry>)
    requires |slots| == 3 && forall i :: 0 <= i < 3 ==> Small(slots[i])
    ensures Sum(TotalCharge, slots) == Sum(Entries, slots)
    ensures Sum(Entries, slots) == Weight(Entries, slots[0]) + Weight(Entries, slots[1]) + Weight(Entries, slots[2])
  {
    assert slots[..3] == slots;
    assert Small(slots[0]) && Small(slots[1]) && Small(slots[2]);
    SumOfThree(TotalCharge, slots);
    SumOfThree(Entries, slots);
  }

  lemma {:induction false} SumOfThree(m: Measure, slots: seq<Entry>)
    requires |slots| == 3
    ensures Sum(m, slots) == Weight(m, slots[0]) + Weight(m, slots[1]) + Weight(m, slots[2])
  {
    SumPrefix(m, slots, 0);
    SumPrefix(m, slots, 1);
    SumPrefix(m, slots, 2);
    assert slots[..3] == slots && Sum(m, slots[..0]) == 0;
  }

  /** A state of the run: what is in the slots, the clock and the two histories. */
  ghost predicate At(s: State, slots: seq<Entry>, clock: nat, history: seq<Key>) {
    s.alive && s.slots == slots && s.clock == clock && s.touched == history && s.arrived == history
  }

  /** Admission into the lowest free slot of a cache that has room. */
  lemma {:induction false} AdmitFree(policy: Policy, s: State, slots: seq<Entry>, clock: nat, history: seq<Key>, i: nat,
                                     n: nat)
    requires Good(ThreeSlots(policy), s) && At(s, slots, clock, history) && clock < U64_MAX
    requires |slots| == 3 && i < 3 && slots[i].Vacant? && forall j :: 0 <= j < i ==> slots[j].Resident?
    requires forall j :: 0 <= j < 3 ==> Small(slots[j]) && !HasKey(slots[j], Expert(n)) && !Holds(slots[j], n + 1)
    ensures At(Step(ThreeSlots(policy), s, Admission(n)).0, slots[i := Newcomer(n, clock + 1)], clock + 1,
               history + [Expert(n)])
  {
    var cfg := ThreeSlots(policy);
    OneByte(policy);
    ThreeSums(slots);
    assert FreeSlot(slots) == Some(i);
    RoomEnough(cfg, s);
  }

  lemma RoomEnough(cfg: Config, s: State)
    requires Enough(cfg, s, 1, true) && !MustEvict(cfg, s, 1, true) && 1 <= cfg.budget
    ensures Plan(PolicyChooser(cfg, None), cfg, s, 1, true).Some?
    ensures MakeRoom(PolicyChooser(cfg, None), cfg, s, 1, true) == s
  {
  }

  lemma {:induction false} RemoveFirst(policy: Policy, s: State, slots: seq<Entry>, clock: nat, history: seq<Key>)
    requires At(s, slots, clock, history) && |slots| == 3 && slots[0] == Newcomer(0, 1)
    requires !HasKey(slots[1], Expert(0)) && !HasKey(slots[2], Expert(0))
    ensures At(Step(ThreeSlots(policy), s, Remove(Expert(0))).0, slots[0 := Vacant], clock, history)
  {
    assert HasKey(slots[0], Expert(0));
    assert Find(s.slots, Expert(0)) == Some(0);
  }

  /** The same as a step of the run, from slots to the slots they become. */
  lemma {:induction false} AdmitNext(policy: Policy, ops: seq<Op>, slots: seq<Entry>, next: seq<Entry>, clock: nat,
                                     history: seq<Key>, i: nat, n: nat)
    requires At(After(policy, ops), slots, clock, history) && clock < U64_MAX
    requires |slots| == 3 && i < 3 && slots[i].Vacant? && forall j :: 0 <= j < i ==> slots[j].Resident?
    requires forall j :: 0 <= j < 3 ==> Small(slots[j]) && !HasKey(slots[j], Expert(n)) && !Holds(slots[j], n + 1)
    requires next == slots[i := Newcomer(n, clock + 1)]
    ensures At(After(policy, ops + [Admission(n)]), next, clock + 1, history + [Expert(n)])
  {
    AfterSnoc(policy, ops, Admission(n));
    AdmitFree(policy, After(policy, ops), slots, clock, history, i, n);
  }

  function One(): seq<Op> { [] + [Admission(0)] }
  function Two(): seq<Op> { One() + [Admission(1)] }
  function Three(): seq<Op> { Two() + [Remove(Expert(0))] }
  function Four(): seq<Op> { Three() + [Admission(0)] }
  function Start(): seq<Op> { Four() + [Admission(2)] }

  function Pair(): seq<Key> { [] + [Expert(0)] + [Expert(1)] }
  function History(): seq<Key> { Pair() + [Expert(0)] + [Expert(2)] }

  lemma {:induction false} StartedOne(policy: Policy)
    ensures At(After(policy, One()), [Newcomer(0, 1), Vacant, Vacant], 1, [] + [Expert(0)])
  {
    assert After(policy, []).slots == [Vacant, Vacant, Vacant];
    AdmitNext(policy, [], [Vacant, Vacant, Vacant], [Newcomer(0, 1), Vacant, Vacant], 0, [], 0, 0);
  }

  lemma {:induction false} StartedTwo(policy: Policy)
    ensures At(After(policy, Two()), [Newcomer(0, 1), Newcomer(1, 2), Vacant], 2, Pair())
  {
    StartedOne(policy);
    var slots := [Newcomer(0, 1), Vacant, Vacant];
    assert Small(slots[0]);
    AdmitNext(policy, One(), slots, [Newcomer(0, 1), Newcomer(1, 2), Vacant], 1, [] + [Expert(0)], 1, 1);
  }

  lemma {:induction false} StartedThree(policy: Policy)
    ensures At(After(policy, Three()), [Vacant, Newcomer(1, 2), Vacant], 2, Pair())
  {
    StartedTwo(policy);
    var slots := [Newcomer(0, 1), Newcomer(1, 2), Vacant];
    AfterSnoc(policy, Two(), Remove(Expert(0)));
    RemoveFirst(policy, After(policy, Two()), slots, 2, Pair());
    assert slots[0 := Vacant] == [Vacant, Newcomer(1, 2), Vacant];
  }

  lemma {:induction false} StartedFour(policy: Policy)
    ensures At(After(policy, Four()), [Newcomer(0, 3), Newcomer(1, 2), Vacant], 3, Pair() + [Expert(0)])
  {
    StartedThree(policy);
    var slots := [Vacant, Newcomer(1, 2), Vacant];
    assert Small(slots[1]);
    AdmitNext(policy, Three(), slots, [Newcomer(0, 3), Newcomer(1, 2), Vacant], 2, Pair(), 0, 0);
  }

  /** Expert 1 arrives second in slot 1; expert 0 leaves and arrives again in slot 0. */
  lemma {:induction false} Started(policy: Policy)
    ensures At(After(policy, Start()), [Newcomer(0, 3), Newcomer(1, 2), Newcomer(2, 4)], 4, History())
  {
    StartedFour(policy);
    var slots := [Newcomer(0, 3), Newcomer(1, 2), Vacant];
    assert Small(slots[0]) && Small(slots[1]);
    AdmitNext(policy, Four(), slots, [Newcomer(0, 3), Newcomer(1, 2), Newcomer(2, 4)], 3, Pair() + [Expert(0)], 2, 2);
  }

  // ---- Using up the clock -------------------------------------------------------------

  /** Experts 0 and 1 rest in slots 0 and 1 while expert 2 is looked up. */
  ghost predicate Resting(s: State, x: Entry, y: Entry) {
    && s.alive && |s.slots| == 3 && s.slots[0] == x && s.slots[1] == y
    && x.Resident? && x.key == Expert(0) && y.Resident? && y.key == Expert(1)
    && s.slots[2].Resident? && s.slots[2].key == Expert(2) && s.slots[2].pins == 0
  }

  ghost predicate SameTurns(s: State, t: State) {
    && t.arrived == s.arrived
    && LastMention(t.touched, Expert(0)) == LastMention(s.touched, Expert(0))
    && LastMention(t.touched, Expert(1)) == LastMention(s.touched, Expert(1))
  }

  lemma {:induction false} LookupOnce(policy: Policy, s: State, x: Entry, y: Entry)
    requires Resting(s, x, y)
    ensures var t := Step(ThreeSlots(policy), s, Lookup()).0;
            && t.clock == Tick(s).clock && SameTurns(s, t)
            && (if s.clock == U64_MAX then Resting(t, Renormalise(x), Renormalise(y)) else Resting(t, x, y))
            && t.slots[2].lastAccess == t.clock && (policy == TwoQueue ==> t.slots[2].hot)
  {
    assert HasKey(s.slots[2], Expert(2));
    assert Find(s.slots, Expert(2)) == Some(2);
    LastMentionAppend(s.touched, Expert(2));
  }

  function Lookups(n: nat): seq<Op> {
    if n == 0 then [] else Lookups(n - 1) + [Lookup()]
  }

  lemma {:induction false} LookupMany(policy: Policy, ops: seq<Op>, n: nat, x: Entry, y: Entry)
    requires Resting(After(policy, ops), x, y) && After(policy, ops).clock + n <= U64_MAX
    ensures var s, t := After(policy, ops), After(policy, ops + Lookups(n));
            Resting(t, x, y) && t.clock == s.clock + n && SameTurns(s, t)
  {
    if n == 0 {
      assert ops + Lookups(0) == ops;
    } else {
      var before := ops + Lookups(n - 1);
      LookupMany(policy, ops, n - 1, x, y);
      Assoc(ops, Lookups(n - 1), [Lookup()]);
      AfterSnoc(policy, before, Lookup());
      LookupOnce(policy, After(policy, before), x, y);
    }
  }

  function Whole(): seq<Op> { Start() + Lookups(U64_MAX - 4) + [Lookup()] }

  /** After the run the stamps of experts 0 and 1 are equal, though 1 came first. */
  lemma {:induction false} Tied(policy: Policy)
    ensures var s := After(policy, Whole());
            && Good(ThreeSlots(policy), s)
            && Resting(s, Newcomer(0, 2), Newcomer(1, 2))
            && s.slots[2].lastAccess == s.clock > 2 && (policy == TwoQueue ==> s.slots[2].hot)
            && LastMention(s.touched, Expert(1)) < LastMention(s.touched, Expert(0))
            && LastMention(s.arrived, Expert(1)) < LastMention(s.arrived, Expert(0))
  {
    Started(policy);
    var ops := Start() + Lookups(U64_MAX - 4);
    LookupMany(policy, Start(), U64_MAX - 4, Newcomer(0, 3), Newcomer(1, 2));
    AfterSnoc(policy, ops, Lookup());
    LookupOnce(policy, After(policy, ops), Newcomer(0, 3), Newcomer(1, 2));
    RunGood(ThreeSlots(policy), Whole());
    Turns();
    assert Renormalise(Newcomer(0, 3)) == Newcomer(0, 2) && Renormalise(Newcomer(1, 2)) == Newcomer(1, 2);
  }

  lemma {:induction false} Turns()
    ensures LastMention(History(), Expert(0)) == 3 && LastMention(History(), Expert(1)) == 2
  {
    LastMentionAppend([] + [Expert(0)] + [Expert(1)] + [Expert(0)], Expert(2));
    LastMentionAppend([] + [Expert(0)] + [Expert(1)], Expert(0));
    LastMentionAppend([] + [Expert(0)], Expert(1));
  }

  lemma {:induction false} TiedVictim(policy: Policy, s: State)
    requires Good(ThreeSlots(policy), s) && Resting(s, Newcomer(0, 2), Newcomer(1, 2))
    requires s.slots[2].lastAccess > 2 && (policy == TwoQueue ==> s.slots[2].hot)
    ensures BaseVictim(ThreeSlots(policy), s.slots, None) == Some(0)
  {
    var cfg := ThreeSlots(policy);
    var c := BaseCandidates(cfg.floors, s.slots, None);
    SumMember(LayerEntries(0), s.slots, 0);
    SumMember(LayerBase(0), s.slots, 0);
    assert BaseEligible(cfg.floors, s.slots, 0);
    assert IsLeast(policy, s.slots, c, 0);
    LeastUnique(policy, s.slots, c, 0, Least(policy, s.slots, c).value);
  }

  /** There is a run after which LRU evicts expert 0 although expert 1 has gone
      untouched for longer. */
  lemma {:induction false} LruIsNotExact() returns (ops: seq<Op>)
    ensures var s := After(Lru, ops);
            && |s.slots| == 3 && s.slots[0].Resident? && s.slots[1].Resident?
            && BaseVictim(ThreeSlots(Lru), s.slots, None) == Some(0)
            && LastMention(s.touched, s.slots[1].key) < LastMention(s.touched, s.slots[0].key)
  {
    ops := Whole();
    Tied(Lru);
    TiedVictim(Lru, After(Lru, ops));
  }

  /** There is a run after which 2Q evicts expert 0 from its cold queue although expert
      1, cold too, arrived before it. */
  lemma {:induction false} FifoIsNotExact() returns (ops: seq<Op>)
    ensures var s := After(TwoQueue, ops);
            && |s.slots| == 3 && s.slots[0].Resident? && s.slots[1].Resident? && !s.slots[0].hot && !s.slots[1].hot
            && BaseVictim(ThreeSlots(TwoQueue), s.slots, None) == Some(0)
            && LastMention(s.arrived, s.slots[1].key) < LastMention(s.arrived, s.slots[0].key)
  {
    ops := Whole();
    Tied(TwoQueue);
    TiedVictim(TwoQueue, After(TwoQueue, ops));
  }
}
