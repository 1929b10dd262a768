/** The expert cache over whole runs: the invariant, ownership and recency hold
    after every finite sequence of operations. */
module CacheRuns {
  import opened Basics
  import opened CacheTypes
  import opened CachePolicy
  import opened CacheModel
  import opened CachePlan
  import opened CacheInvariant

  // ---- The invariant under each kind of change ----------------------------

  lemma {:induction false} LogGrows(a: seq<Event>, b: seq<Event>)
    requires a <= b
    ensures LogBytes(a) <= LogBytes(b)
    ensures forall h :: LogCopies(a, h) <= LogCopies(b, h)
    decreases |b|
  {
    if a != b {
      LogGrows(a, b[..|b| - 1]);
    }
  }

  lemma {:induction false} InvReclaims(cfg: Config, s: State, t: State)
    requires Inv(cfg, s) && Reclaims(s, t)
    ensures Inv(cfg, t)
  {
    LogGrows(s.log, t.log);
    forall i | 0 <= i < |t.slots|
      ensures EntryOk(cfg, t.clock, t.slots[i])
    {
      assert Shrinks(s.slots[i], t.slots[i]) && EntryOk(cfg, s.clock, s.slots[i]);
    }
    forall i, j | 0 <= i < j < |t.slots| && t.slots[i].Resident? && t.slots[j].Resident?
      ensures t.slots[i].key != t.slots[j].key
    {
      assert Shrinks(s.slots[i], t.slots[i]) && Shrinks(s.slots[j], t.slots[j]);
    }
    forall h
      ensures Sum(Copies(h), t.slots) <= 1
    {
      assert Sum(Copies(h), s.slots) <= 1;
    }
  }

  /** Entries that differ in stamps, queue, pins or prefetch marks only. */
  predicate SamePlanes(a: Entry, b: Entry) {
    && a.Vacant? == b.Vacant?
    && (a.Resident? ==>
          && a.key == b.key
          && a.base.(unusedPrefetch := false) == b.base.(unusedPrefetch := false)
          && a.residual.Some? == b.residual.Some?
          && (a.residual.Some? ==>
                a.residual.value.(unusedPrefetch := false) == b.residual.value.(unusedPrefetch := false)))
  }

  lemma {:induction false} SamePlaneSums(a: seq<Entry>, b: seq<Entry>)
    requires |a| == |b| && forall i :: 0 <= i < |a| ==> SamePlanes(a[i], b[i])
    ensures Sum(TotalCharge, a) == Sum(TotalCharge, b)
    ensures forall h :: Sum(Copies(h), a) == Sum(Copies(h), b)
  {
    SumSame(TotalCharge, a, b);
    forall h
      ensures Sum(Copies(h), a) == Sum(Copies(h), b)
    {
      forall i | 0 <= i < |a|
        ensures Weight(Copies(h), a[i]) == Weight(Copies(h), b[i])
      {
        assert SamePlanes(a[i], b[i]);
      }
      SumSame(Copies(h), a, b);
    }
  }

  lemma {:induction false} InvRestamp(cfg: Config, s: State, t: State)
    requires Inv(cfg, s)
    requires |t.slots| == |s.slots| && forall i :: 0 <= i < |s.slots| ==> SamePlanes(s.slots[i], t.slots[i])
    requires forall i :: 0 <= i < |t.slots| ==> EntryOk(cfg, t.clock, t.slots[i])
    requires t.peak == s.peak && t.clock <= U64_MAX
    ensures Inv(cfg, t)
  {
    SamePlaneSums(s.slots, t.slots);
    forall i, j | 0 <= i < j < |t.slots| && t.slots[i].Resident? && t.slots[j].Resident?
      ensures t.slots[i].key != t.slots[j].key
    {
      assert SamePlanes(s.slots[i], t.slots[i]) && SamePlanes(s.slots[j], t.slots[j]);
    }
  }

  /** A tick leaves every stamp below the new clock value. */
  lemma {:induction false} TickFresh(cfg: Config, s: State)
    requires Inv(cfg, s)
    ensures Inv(cfg, Tick(s))
    ensures forall i :: 0 <= i < |s.slots| ==> SamePlanes(s.slots[i], Tick(s).slots[i])
    ensures forall i :: 0 <= i < |s.slots| && s.slots[i].Resident? ==>
              Tick(s).slots[i].lastAccess < Tick(s).clock && Tick(s).slots[i].admissionOrder < Tick(s).clock
  {
    var t := Tick(s);
    forall i | 0 <= i < |s.slots|
      ensures SamePlanes(s.slots[i], t.slots[i]) && EntryOk(cfg, t.clock, t.slots[i])
      ensures s.slots[i].Resident? ==> t.slots[i].lastAccess < t.clock && t.slots[i].admissionOrder < t.clock
    {
      assert EntryOk(cfg, s.clock, s.slots[i]);
    }
    InvRestamp(cfg, s, t);
  }

  lemma {:induction false} NotHeld(slots: seq<Entry>, h: Handle)
    ensures InUse(slots, h) <==> Sum(Copies(h), slots) > 0
  {
    if Sum(Copies(h), slots) > 0 {
      var i := SumPositive(Copies(h), slots);
      assert Holds(slots[i], h);
    }
    if InUse(slots, h) {
      var i :| 0 <= i < |slots| && Holds(slots[i], h);
      SumMember(Copies(h), slots, i);
    }
  }

  lemma {:induction false} AddPlane(slots: seq<Entry>, i: nat, e: Entry, p: Plane)
    requires i < |slots|
    requires !InUse(slots, p.payload) && DistinctHandles(slots)
    requires Weight(TotalCharge, e) == Weight(TotalCharge, slots[i]) + p.charge
    requires forall h :: Weight(Copies(h), e) == Weight(Copies(h), slots[i]) + (if h == p.payload then 1 else 0)
    ensures DistinctHandles(slots[i := e])
    ensures Sum(TotalCharge, slots[i := e]) == Sum(TotalCharge, slots) + p.charge
    ensures forall h :: Sum(Copies(h), slots[i := e]) == Sum(Copies(h), slots) + (if h == p.payload then 1 else 0)
  {
    SumUpdate(TotalCharge, slots, i, e);
    NotHeld(slots, p.payload);
    forall h
      ensures Sum(Copies(h), slots[i := e]) == Sum(Copies(h), slots) + (if h == p.payload then 1 else 0)
      ensures Sum(Copies(h), slots[i := e]) <= 1
    {
      SumUpdate(Copies(h), slots, i, e);
      assert Sum(Copies(h), slots) <= 1;
    }
  }

  lemma {:induction false} RestampKeepsAbsence(s: State, t: State, key: Key, h: Handle)
    requires |t.slots| == |s.slots| && forall i :: 0 <= i < |s.slots| ==> SamePlanes(s.slots[i], t.slots[i])
    requires forall i :: 0 <= i < |s.slots| ==> !HasKey(s.slots[i], key)
    requires !InUse(s.slots, h)
    ensures forall i :: 0 <= i < |t.slots| ==> !HasKey(t.slots[i], key)
    ensures !InUse(t.slots, h)
  {
    SamePlaneSums(s.slots, t.slots);
    NotHeld(s.slots, h);
    NotHeld(t.slots, h);
    forall i | 0 <= i < |t.slots|
      ensures !HasKey(t.slots[i], key)
    {
      assert SamePlanes(s.slots[i], t.slots[i]);
    }
  }

  lemma {:induction false} InvAdmit(cfg: Config, s: State, i: nat, key: Key, p: Plane)
    requires Inv(cfg, s)
    requires i < |s.slots| && s.slots[i].Vacant?
    requires key.layer < |cfg.floors| && forall j :: 0 <= j < |s.slots| ==> !HasKey(s.slots[j], key)
    requires PlaneOk(cfg, p) && !InUse(s.slots, p.payload)
    requires Payload(s) + p.charge <= cfg.budget
    ensures Inv(cfg, Admit(s, i, key, p))
    ensures forall h :: Sum(Copies(h), Admit(s, i, key, p).slots)
                        == Sum(Copies(h), s.slots) + (if h == p.payload then 1 else 0)
  {
    var t, u := Tick(s), Admit(s, i, key, p);
    TickFresh(cfg, s);
    SamePlaneSums(s.slots, t.slots);
    RestampKeepsAbsence(s, t, key, p.payload);
    AddPlane(t.slots, i, NewEntry(key, p, t.clock), p);
    forall j | 0 <= j < |u.slots|
      ensures EntryOk(cfg, u.clock, u.slots[j])
    {
      assert EntryOk(cfg, t.clock, t.slots[j]);
    }
    forall j, k | 0 <= j < k < |u.slots| && u.slots[j].Resident? && u.slots[k].Resident?
      ensures u.slots[j].key != u.slots[k].key
    {
      assert !HasKey(t.slots[j], key) && !HasKey(t.slots[k], key);
    }
  }

  lemma {:induction false} InvAttach(cfg: Config, s: State, i: nat, p: Plane)
    requires Inv(cfg, s)
    requires i < |s.slots| && s.slots[i].Resident? && s.slots[i].residual.None?
    requires PlaneOk(cfg, p) && !InUse(s.slots, p.payload)
    requires Payload(s) + p.charge <= cfg.budget
    ensures Inv(cfg, Attach(s, i, p))
    ensures forall h :: Sum(Copies(h), Attach(s, i, p).slots)
                        == Sum(Copies(h), s.slots) + (if h == p.payload then 1 else 0)
  {
    var u := Attach(s, i, p);
    AddPlane(s.slots, i, u.slots[i], p);
    forall j | 0 <= j < |u.slots|
      ensures EntryOk(cfg, u.clock, u.slots[j])
    {
      assert EntryOk(cfg, s.clock, s.slots[j]) && EntryOk(cfg, s.clock, s.slots[i]);
    }
  }

  lemma {:induction false} ReclaimKeepsAbsence(s: State, t: State, key: Key, h: Handle)
    requires Reclaims(s, t)
    ensures (forall i :: 0 <= i < |s.slots| ==> !HasKey(s.slots[i], key)) ==>
              forall i :: 0 <= i < |t.slots| ==> !HasKey(t.slots[i], key)
    ensures !InUse(s.slots, h) ==> !InUse(t.slots, h)
  {
    LogGrows(s.log, t.log);
    NotHeld(s.slots, h);
    NotHeld(t.slots, h);
    forall i | 0 <= i < |t.slots|
      ensures HasKey(t.slots[i], key) ==> HasKey(s.slots[i], key)
    {
      assert Shrinks(s.slots[i], t.slots[i]);
    }
  }

  lemma {:induction false} VacancyExists(slots: seq<Entry>)
    ensures Sum(Entries, slots) < |slots| ==> FreeSlot(slots).Some?
  {
    if FreeSlot(slots).None? { FullCount(slots, |slots|); }
  }

  lemma {:induction false} FullCount(slots: seq<Entry>, n: nat)
    requires n <= |slots| && forall i :: 0 <= i < n ==> slots[i].Resident?
    ensures SumTo(Entries, slots, n) == n
  {
    if n > 0 { FullCount(slots, n - 1); }
  }

  // ---- Ownership ----------------------------------------------------------

  /** Every handle ever admitted is resident or has been released, as often. */
  ghost predicate Conserved(s: State) {
    forall h :: multiset(s.admitted)[h] == Sum(Copies(h), s.slots) + LogCopies(s.log, h)
  }

  lemma {:induction false} ConservedReclaims(s: State, t: State)
    requires Conserved(s) && Reclaims(s, t)
    ensures Conserved(t)
  {
    forall h
      ensures multiset(t.admitted)[h] == Sum(Copies(h), t.slots) + LogCopies(t.log, h)
    {
      assert multiset(s.admitted)[h] == Sum(Copies(h), s.slots) + LogCopies(s.log, h);
    }
  }

  lemma {:induction false} ConservedAdmission(s: State, t: State, p: Handle)
    requires Conserved(s)
    requires t.admitted == s.admitted + [p] && t.log == s.log
    requires forall h :: Sum(Copies(h), t.slots) == Sum(Copies(h), s.slots) + (if h == p then 1 else 0)
    ensures Conserved(t)
  {
    assert multiset(t.admitted) == multiset(s.admitted) + multiset{p};
    forall h
      ensures multiset(t.admitted)[h] == Sum(Copies(h), t.slots) + LogCopies(t.log, h)
    {
      assert multiset(s.admitted)[h] == Sum(Copies(h), s.slots) + LogCopies(s.log, h);
    }
  }

  // ---- Recency ------------------------------------------------------------

  /** Position after the last mention of k, 0 if there is none. */
  function LastMention(history: seq<Key>, k: Key): (n: nat)
    ensures n <= |history|
    ensures n > 0 ==> history[n - 1] == k
  {
    if history == [] then 0
    else if history[|history| - 1] == k then |history|
    else LastMention(history[..|history| - 1], k)
  }

  lemma {:induction false} LastMentionAppend(history: seq<Key>, x: Key)
    ensures forall k :: LastMention(history + [x], k) == if k == x then |history| + 1 else LastMention(history, k)
  {
    assert (history + [x])[..|history|] == history;
  }

  predicate Below(a: nat, b: nat, strict: bool) {
    if strict then a < b else a <= b
  }

  /** Stamps follow history: later mention, no smaller stamp. */
  ghost predicate Ordered(slots: seq<Entry>, touched: seq<Key>, arrived: seq<Key>, strict: bool) {
    forall i, j :: 0 <= i < |slots| && 0 <= j < |slots| && slots[i].Resident? && slots[j].Resident? ==>
      && (LastMention(touched, slots[i].key) < LastMention(touched, slots[j].key) ==>
            Below(slots[i].lastAccess, slots[j].lastAccess, strict))
      && (LastMention(arrived, slots[i].key) < LastMention(arrived, slots[j].key) ==>
            Below(slots[i].admissionOrder, slots[j].admissionOrder, strict))
  }

  ghost predicate Mentioned(slots: seq<Entry>, history: seq<Key>) {
    forall i :: 0 <= i < |slots| && slots[i].Resident? ==> LastMention(history, slots[i].key) > 0
  }

  /** Until 2^64 stamps have been handed out the clock is their number and no
      two orders are confused; afterwards stamps may tie but never invert. */
  ghost predicate Recency(s: State) {
    && Ordered(s.slots, s.touched, s.arrived, |s.touched| <= U64_MAX)
    && Mentioned(s.slots, s.touched) && Mentioned(s.slots, s.arrived)
    && (|s.touched| <= U64_MAX ==> s.clock == |s.touched|)
  }

  lemma {:induction false} RecencyReclaims(s: State, t: State)
    requires Recency(s) && Reclaims(s, t)
    ensures Recency(t)
  {
    forall i | 0 <= i < |t.slots|
      ensures t.slots[i].Resident? ==>
                s.slots[i].Resident? && t.slots[i].key == s.slots[i].key
                && t.slots[i].lastAccess == s.slots[i].lastAccess
                  && t.slots[i].admissionOrder == s.slots[i].admissionOrder
    {
      assert Shrinks(s.slots[i], t.slots[i]);
    }
  }

  lemma HalveMonotone(a: nat, b: nat)
    requires a < b
    ensures Halve(a) <= Halve(b)
    ensures Halve(a) == Halve(b) <==> a % 2 == 0 && b == a + 1
  {
  }

  lemma {:induction false} TickOrdered(s: State)
    requires Recency(s)
    ensures Ordered(Tick(s).slots, s.touched, s.arrived, |s.touched| < U64_MAX)
    ensures Mentioned(Tick(s).slots, s.touched) && Mentioned(Tick(s).slots, s.arrived)
    ensures |s.touched| < U64_MAX ==> Tick(s).clock == |s.touched| + 1
  {
    var t := Tick(s);
    forall i, j | 0 <= i < |t.slots| && 0 <= j < |t.slots| && t.slots[i].Resident? && t.slots[j].Resident?
      ensures LastMention(s.touched, t.slots[i].key) < LastMention(s.touched, t.slots[j].key) ==>
                Below(t.slots[i].lastAccess, t.slots[j].lastAccess, |s.touched| < U64_MAX)
      ensures LastMention(s.arrived, t.slots[i].key) < LastMention(s.arrived, t.slots[j].key) ==>
                Below(t.slots[i].admissionOrder, t.slots[j].admissionOrder, |s.touched| < U64_MAX)
    {
      assert s.slots[i].Resident? && s.slots[j].Resident?;
    }
  }

  /** Stamping slot i with the fresh clock value keeps stamps and history aligned. */
  lemma {:induction false} TouchRecency(cfg: Config, s: State, i: nat, requirement: Requirement)
    requires Inv(cfg, s) && Recency(s)
    requires i < |s.slots| && s.slots[i].Resident?
    ensures var t := Tick(s);
            Recency(t.(slots := t.slots[i := Touch(cfg, t.slots[i], t.clock, requirement)],
                       touched := s.touched + [s.slots[i].key]))
  {
    var t, key := Tick(s), s.slots[i].key;
    TickFresh(cfg, s);
    TickOrdered(s);
    TickKeys(cfg, s, i);
    var u := t.(slots := t.slots[i := Touch(cfg, t.slots[i], t.clock, requirement)], touched := s.touched + [key]);
    OrderedStamp(t.slots, u.slots, i, t.clock, s.touched, s.arrived, key, false, |s.touched| < U64_MAX);
    MentionedStamp(t.slots, u.slots, i, s.touched, s.arrived, key);
  }

  lemma {:induction false} TickKeys(cfg: Config, s: State, i: nat)
    requires Inv(cfg, s) && i < |s.slots| && s.slots[i].Resident?
    ensures Tick(s).slots[i].Resident? && Tick(s).slots[i].key == s.slots[i].key
    ensures forall j :: 0 <= j < |s.slots| && j != i ==> !HasKey(Tick(s).slots[j], s.slots[i].key)
  {
    forall j | 0 <= j < |s.slots|
      ensures Tick(s).slots[j].Resident? ==> s.slots[j].Resident? && Tick(s).slots[j].key == s.slots[j].key
    {
      assert s.clock == U64_MAX ==> Tick(s).slots[j] == Renormalise(s.slots[j]);
    }
  }

  lemma {:induction false} MentionedStamp(a: seq<Entry>, b: seq<Entry>, i: nat, touched: seq<Key>, arrived: seq<Key>,
                                          key: Key)
    requires |a| == |b| && i < |b| && a[i].Resident? && b[i].Resident? && a[i].key == b[i].key == key
    requires forall j :: 0 <= j < |b| && j != i ==> b[j] == a[j]
    requires Mentioned(a, touched) && Mentioned(a, arrived)
    ensures Mentioned(b, touched + [key]) && Mentioned(b, arrived)
  {
    LastMentionAppend(touched, key);
  }

  /** Slot i carries the newest stamp; every other slot kept its own. */
  lemma {:induction false} OrderedStamp(a: seq<Entry>, b: seq<Entry>, i: nat, stamp: nat, touched: seq<Key>,
                                        arrived: seq<Key>, key: Key, arrival: bool, strict: bool)
    requires |a| == |b| && i < |b| && b[i].Resident? && b[i].key == key && b[i].lastAccess == stamp
    requires Ordered(a, touched, arrived, strict)
    requires forall j :: 0 <= j < |b| && j != i ==> b[j] == a[j]
    requires forall j :: 0 <= j < |b| && j != i && b[j].Resident? ==>
               b[j].key != key && b[j].lastAccess < stamp && b[j].admissionOrder < stamp
    requires if arrival then b[i].admissionOrder == stamp
             else a[i].Resident? && a[i].key == key && b[i].admissionOrder == a[i].admissionOrder
    ensures Ordered(b, touched + [key], if arrival then arrived + [key] else arrived, strict)
  {
    LastMentionAppend(touched, key);
    LastMentionAppend(arrived, key);
  }

  lemma {:induction false} AdmitRecency(cfg: Config, s: State, i: nat, key: Key, p: Plane)
    requires Inv(cfg, s) && Recency(s)
    requires i < |s.slots| && forall j :: 0 <= j < |s.slots| ==> !HasKey(s.slots[j], key)
    ensures Recency(Admit(s, i, key, p))
  {
    var t, u := Tick(s), Admit(s, i, key, p);
    TickFresh(cfg, s);
    TickOrdered(s);
    LastMentionAppend(s.touched, key);
    LastMentionAppend(s.arrived, key);
    forall j | 0 <= j < |t.slots|
      ensures !HasKey(t.slots[j], key)
      ensures s.slots[j].Resident? == t.slots[j].Resident?
    {
      assert SamePlanes(s.slots[j], t.slots[j]);
    }
    OrderedStamp(t.slots, u.slots, i, t.clock, s.touched, s.arrived, key, true, |s.touched| < U64_MAX);
  }

  lemma MentionInjective(history: seq<Key>, j: Key, k: Key)
    requires j != k && LastMention(history, j) > 0
    ensures LastMention(history, j) != LastMention(history, k)
  {
  }

  /** LRU evicts the least recently touched candidate, except that after 2^64
      stamps two candidates whose stamps have merged go in slot order. */
  lemma {:induction false} LruVictim(cfg: Config, s: State, c: set<nat>, v: nat, j: nat)
    requires cfg.policy == Lru && Inv(cfg, s) && Recency(s)
    requires AllResident(s.slots, c) && IsLeast(cfg.policy, s.slots, c, v) && j in c && j != v
    ensures || LastMention(s.touched, s.slots[v].key) < LastMention(s.touched, s.slots[j].key)
            || (|s.touched| > U64_MAX && s.slots[v].lastAccess == s.slots[j].lastAccess && v < j)
  {
    MentionInjective(s.touched, s.slots[v].key, s.slots[j].key);
    assert s.slots[v].key != s.slots[j].key;
  }

  /** 2Q evicts a cold candidate while there is one, oldest arrival first, and
      otherwise the least recently touched hot one, up to the same ties. */
  lemma {:induction false} TwoQueueVictim(cfg: Config, s: State, c: set<nat>, v: nat, j: nat)
    requires cfg.policy == TwoQueue && Inv(cfg, s) && Recency(s)
    requires AllResident(s.slots, c) && IsLeast(cfg.policy, s.slots, c, v) && j in c && j != v
    ensures s.slots[v].hot ==> s.slots[j].hot
    ensures !s.slots[j].hot ==>
              || LastMention(s.arrived, s.slots[v].key) < LastMention(s.arrived, s.slots[j].key)
              || (|s.touched| > U64_MAX && s.slots[v].admissionOrder == s.slots[j].admissionOrder && v < j)
    ensures s.slots[v].hot ==>
              || LastMention(s.touched, s.slots[v].key) < LastMention(s.touched, s.slots[j].key)
              || (|s.touched| > U64_MAX && s.slots[v].lastAccess == s.slots[j].lastAccess && v < j)
  {
    assert s.slots[v].key != s.slots[j].key;
    MentionInjective(s.touched, s.slots[v].key, s.slots[j].key);
    MentionInjective(s.arrived, s.slots[v].key, s.slots[j].key);
  }
}
