/** ecache_validate: the diagnostic that recomputes every total and re-reads the
    whole index, and why it answers OK in every reachable state. */
module CacheAudit {
  import opened Basics
  import opened CacheTypes
  import opened CachePolicy
  import opened CacheModel
  import opened CacheInvariant
  import opened CacheRuns
  import opened CacheTheorems
  import opened HashIndex
  import opened ExpertCache

  // ---- What the diagnostic looks for ---------------------------------------

  predicate EntrySound(cfg: Config, e: Entry)
    requires 0 < cfg.alignment
  {
    e.Resident? ==>
      && e.key.layer < |cfg.floors|
      && e.base.payload != 0 && e.lastAccess != 0 && e.admissionOrder != 0 && !e.planned
      && PayloadCharge(cfg, e.base.logical) == (Ok, e.base.charge)
      && (e.residual.Some? ==>
            && e.residual.value.payload != 0 && e.residual.value.payload != e.base.payload
            && PayloadCharge(cfg, e.residual.value.logical) == (Ok, e.residual.value.charge))
  }

  /** Two resident entries may share neither key nor payload. */
  predicate Clash(a: Entry, b: Entry) {
    && a.Resident? && b.Resident?
    && (a.key == b.key || Holds(b, a.base.payload) || (a.residual.Some? && Holds(b, a.residual.value.payload)))
  }

  function References(buckets: seq<Bucket>, i: nat): nat {
    if buckets == [] then 0
    else References(buckets[..|buckets| - 1], i) + (if buckets[|buckets| - 1] == Slot(i) then 1 else 0)
  }

  /** hash_find meets slot i, and exactly one bucket names it. */
  ghost predicate IndexedOnce(hash: Key -> nat, buckets: seq<Bucket>, slots: seq<Entry>, i: nat)
    requires 0 < |buckets| && i < |slots| && slots[i].Resident?
  {
    var r := Probe(buckets, slots, slots[i].key, Home(hash, slots[i].key, |buckets|), 0);
    r.Some? && buckets[r.value] == Slot(i) && References(buckets, i) == 1
  }

  ghost predicate SlotSound(cfg: Config, hash: Key -> nat, buckets: seq<Bucket>, slots: seq<Entry>, i: nat)
    requires 0 < cfg.alignment && 0 < |buckets| && i < |slots|
  {
    && EntrySound(cfg, slots[i])
    && (slots[i].Resident? ==> IndexedOnce(hash, buckets, slots, i))
    && forall j :: i < j < |slots| ==> !Clash(slots[i], slots[j])
  }

  predicate BucketSound(slots: seq<Entry>, b: Bucket) {
    b.Slot? ==> b.slot < |slots| && slots[b.slot].Resident?
  }

  predicate LayerSound(y: Layer, slots: seq<Entry>, l: nat) {
    && y.baseBytes == Sum(LayerBase(l), slots) && y.baseEntries == Sum(LayerEntries(l), slots)
    && y.residualBytes == Sum(LayerResidual(l), slots) && y.residualEntries == Sum(LayerResidualEntries(l), slots)
  }

  ghost predicate Sound(c: Cache)
    reads c, c.entries, c.buckets, c.layers
    requires c.Shape()
  {
    && (forall i :: 0 <= i < c.entries.Length ==> SlotSound(c.cfg, c.hash, c.buckets[..], c.entries[..], i))
    && (forall b :: 0 <= b < c.buckets.Length ==> BucketSound(c.entries[..], c.buckets[b]))
    && Totals(c.entries[..], c.payloadBytes, c.baseBytes, c.residualBytes, c.entryCount)
    && c.payloadBytes <= c.cfg.budget && c.payloadBytes <= c.peakBytes <= c.cfg.budget
    && (forall l :: 0 <= l < c.layers.Length ==> LayerSound(c.layers[l], c.entries[..], l))
  }

  // ---- The diagnostic -------------------------------------------------------

  method CountReferences(c: Cache, i: nat) returns (n: nat)
    ensures n == References(c.buckets[..], i)
  {
    n := 0;
    var j := 0;
    while j < c.buckets.Length
      invariant 0 <= j <= c.buckets.Length
      invariant n == References(c.buckets[..j], i)
    {
      assert c.buckets[..j + 1][..j] == c.buckets[..j];
      if c.buckets[j] == Slot(i) {
        n := n + 1;
      }
      j := j + 1;
    }
    assert c.buckets[..c.buckets.Length] == c.buckets[..];
  }

  method CheckSlot(c: Cache, i: nat) returns (ok: bool)
    requires c.Shape() && i < c.entries.Length
    ensures ok == SlotSound(c.cfg, c.hash, c.buckets[..], c.entries[..], i)
  {
    var e := c.entries[i];
    if e.Vacant? {
      return true;
    }
    if !EntrySound(c.cfg, e) {
      return false;
    }
    var found, bucket, slot := c.HashFind(e.key);
    if !found || slot != i {
      return false;
    }
    var references := CountReferences(c, i);
    if references != 1 {
      return false;
    }
    var j := i + 1;
    while j < c.entries.Length
      invariant i < j <= c.entries.Length
      invariant forall k :: i < k < j ==> !Clash(c.entries[i], c.entries[k])
    {
      if Clash(e, c.entries[j]) {
        return false;
      }
      j := j + 1;
    }
    return true;
  }

  /** The totals over all slots, or nothing if one of them would not fit 64 bits. */
  method Recount(c: Cache) returns (fits: bool, occupied: nat, base: nat, residual: nat)
    ensures fits ==> Totals(c.entries[..], base + residual, base, residual, occupied)
    ensures !fits ==> Sum(TotalCharge, c.entries[..]) > U64_MAX
  {
    fits, occupied, base, residual := true, 0, 0, 0;
    ghost var slots := c.entries[..];
    var i := 0;
    while i < c.entries.Length
      invariant 0 <= i <= c.entries.Length
      invariant base == Sum(BaseCharge, slots[..i]) && residual == Sum(ResidualCharge, slots[..i])
      invariant occupied == Sum(Entries, slots[..i])
    {
      SumPrefix(BaseCharge, slots, i);
      SumPrefix(ResidualCharge, slots, i);
      SumPrefix(Entries, slots, i);
      var e := c.entries[i];
      if e.Resident? {
        occupied := occupied + 1;
        PrefixFits(slots, i + 1);
        if U64_MAX - base < e.base.charge {
          return false, 0, 0, 0;
        }
        base := base + e.base.charge;
        if e.residual.Some? {
          if U64_MAX - residual < e.residual.value.charge {
            return false, 0, 0, 0;
          }
          residual := residual + e.residual.value.charge;
        }
      }
      i := i + 1;
    }
    assert slots[..|slots|] == slots;
    SumSplit(slots);
  }

  lemma {:induction false} PrefixFits(slots: seq<Entry>, i: nat)
    requires i <= |slots|
    ensures Sum(BaseCharge, slots[..i]) + Sum(ResidualCharge, slots[..i]) <= Sum(TotalCharge, slots)
  {
    SumSplit(slots[..i]);
    PrefixAtMost(TotalCharge, slots, i);
  }

  method LayerTotal(c: Cache, m: Measure) returns (n: nat)
    ensures n == Sum(m, c.entries[..])
  {
    n := 0;
    var j := 0;
    while j < c.entries.Length
      invariant 0 <= j <= c.entries.Length
      invariant n == Sum(m, c.entries[..j])
    {
      SumPrefix(m, c.entries[..], j);
      assert c.entries[..][..j] == c.entries[..j] && c.entries[..][..j + 1] == c.entries[..j + 1];
      n := n + Weight(m, c.entries[j]);
      j := j + 1;
    }
    assert c.entries[..c.entries.Length] == c.entries[..];
  }

  method CheckLayer(c: Cache, l: nat) returns (ok: bool)
    requires l < c.layers.Length
    ensures ok == LayerSound(c.layers[l], c.entries[..], l)
  {
    var base := LayerTotal(c, LayerBase(l));
    var entries := LayerTotal(c, LayerEntries(l));
    var residual := LayerTotal(c, LayerResidual(l));
    var residualEntries := LayerTotal(c, LayerResidualEntries(l));
    var y := c.layers[l];
    return y.baseBytes == base && y.baseEntries == entries
           && y.residualBytes == residual && y.residualEntries == residualEntries;
  }

  method Validate(c: Cache) returns (status: Status)
    requires c.Laid()
    ensures status == if !c.alive then ErrArgument
                      else if PowerOfTwo(c.buckets.Length) && c.Shape() && Sound(c) then Ok else ErrCorrupt
  {
    if !c.alive {
      return ErrArgument;
    }
    if !PowerOfTwo(c.buckets.Length) || c.buckets.Length < c.cfg.maxEntries * 2 {
      return ErrCorrupt;
    }
    var i := 0;
    while i < c.entries.Length
      invariant 0 <= i <= c.entries.Length
      invariant forall k :: 0 <= k < i ==> SlotSound(c.cfg, c.hash, c.buckets[..], c.entries[..], k)
    {
      var ok := CheckSlot(c, i);
      if !ok {
        return ErrCorrupt;
      }
      i := i + 1;
    }
    i := 0;
    while i < c.buckets.Length
      invariant 0 <= i <= c.buckets.Length
      invariant forall b :: 0 <= b < i ==> BucketSound(c.entries[..], c.buckets[b])
    {
      var b := c.buckets[i];
      if b.Slot? && (b.slot >= c.entries.Length || c.entries[b.slot].Vacant?) {
        assert !BucketSound(c.entries[..], c.buckets[i]);
        return ErrCorrupt;
      }
      i := i + 1;
    }
    var totals := CheckTotals(c);
    if !totals {
      return ErrCorrupt;
    }
    i := 0;
    while i < c.layers.Length
      invariant 0 <= i <= c.layers.Length
      invariant forall l :: 0 <= l < i ==> LayerSound(c.layers[l], c.entries[..], l)
    {
      var ok := CheckLayer(c, i);
      if !ok {
        return ErrCorrupt;
      }
      i := i + 1;
    }
    return Ok;
  }

  method CheckTotals(c: Cache) returns (ok: bool)
    requires c.Shape()
    ensures ok == (Totals(c.entries[..], c.payloadBytes, c.baseBytes, c.residualBytes, c.entryCount)
                   && c.payloadBytes <= c.cfg.budget && c.payloadBytes <= c.peakBytes <= c.cfg.budget)
  {
    var fits, occupied, base, residual := Recount(c);
    if !fits {
      return false;
    }
    SumSplit(c.entries[..]);
    return occupied == c.entryCount && base == c.baseBytes && residual == c.residualBytes
           && base + residual == c.payloadBytes && c.payloadBytes <= c.cfg.budget
           && c.peakBytes >= c.payloadBytes && c.peakBytes <= c.cfg.budget;
  }

  // ---- What passing means ----------------------------------------------------

  /** Probing that ends at a bucket has met no empty one on the way. */
  lemma {:induction false} ProbeReaches(buckets: seq<Bucket>, slots: seq<Entry>, key: Key, home: nat, k: nat)
    requires home < |buckets| && Probe(buckets, slots, key, home, k).Some?
    requires forall j :: 0 <= j < k && j < |buckets| ==> !buckets[At(home, j, |buckets|)].Empty?
    ensures Reach(buckets, home, Probe(buckets, slots, key, home, k).value)
    decreases |buckets| - k
  {
    var b := At(home, k, |buckets|);
    if Matches(slots, buckets[b], key) {
      assert Distance(home, b, |buckets|) == k;
    } else {
      ProbeReaches(buckets, slots, key, home, k + 1);
    }
  }

  lemma {:induction false} ReferencesCount(buckets: seq<Bucket>, i: nat, b: nat, c: nat)
    requires b < c < |buckets| && buckets[b] == Slot(i) == buckets[c]
    ensures References(buckets, i) >= 2
  {
    var last := |buckets| - 1;
    if c == last { SomeReference(buckets[..last], i, b); } else { ReferencesCount(buckets[..last], i, b, c); }
  }

  lemma {:induction false} SomeReference(buckets: seq<Bucket>, i: nat, b: nat)
    requires b < |buckets| && buckets[b] == Slot(i)
    ensures References(buckets, i) >= 1
  {
    if b < |buckets| - 1 { SomeReference(buckets[..|buckets| - 1], i, b); }
  }

  /** What the diagnostic finds of a bucket that names a slot. */
  lemma {:induction false} SoundBucket(hash: Key -> nat, buckets: seq<Bucket>, slots: seq<Entry>, b: nat)
    requires b < |buckets| && buckets[b].Slot? && BucketSound(slots, buckets[b])
    requires IndexedOnce(hash, buckets, slots, buckets[b].slot)
    ensures Reach(buckets, Home(hash, slots[buckets[b].slot].key, |buckets|), b)
    ensures forall c :: 0 <= c < |buckets| && buckets[c] == buckets[b] ==> c == b
  {
    var i := buckets[b].slot;
    var home := Home(hash, slots[i].key, |buckets|);
    ProbeReaches(buckets, slots, slots[i].key, home, 0);
    forall c | 0 <= c < |buckets| && buckets[c] == Slot(i)
      ensures c == b
    {
      if b < c { ReferencesCount(buckets, i, b, c); }
      if c < b { ReferencesCount(buckets, i, c, b); }
    }
    assert buckets[Probe(buckets, slots, slots[i].key, home, 0).value] == Slot(i);
  }

  lemma {:induction false} SoundIndexed(hash: Key -> nat, buckets: seq<Bucket>, slots: seq<Entry>)
    requires 0 < |buckets|
    requires forall i :: 0 <= i < |slots| && slots[i].Resident? ==> IndexedOnce(hash, buckets, slots, i)
    requires forall b :: 0 <= b < |buckets| ==> BucketSound(slots, buckets[b])
    ensures Indexed(hash, buckets, slots, |slots|)
  {
    forall b | 0 <= b < |buckets| && buckets[b].Slot?
      ensures buckets[b].slot < |slots| && slots[buckets[b].slot].Resident?
      ensures Reach(buckets, Home(hash, slots[buckets[b].slot].key, |buckets|), b)
      ensures forall c :: 0 <= c < |buckets| && buckets[c] == buckets[b] ==> c == b
    {
      assert BucketSound(slots, buckets[b]);
      SoundBucket(hash, buckets, slots, b);
    }
    forall i | 0 <= i < |slots| && slots[i].Resident?
      ensures exists b :: 0 <= b < |buckets| && buckets[b] == Slot(i)
    {
      assert IndexedOnce(hash, buckets, slots, i);
      var b := Probe(buckets, slots, slots[i].key, Home(hash, slots[i].key, |buckets|), 0).value;
      assert buckets[b] == Slot(i);
    }
  }

  /** Weights of at most one, no two of them, add up to one at most. */
  lemma {:induction false} AtMostOne(m: Measure, slots: seq<Entry>, n: nat)
    requires n <= |slots| && forall i :: 0 <= i < n ==> Weight(m, slots[i]) <= 1
    requires forall i, j :: 0 <= i < j < n ==> Weight(m, slots[i]) == 0 || Weight(m, slots[j]) == 0
    ensures SumTo(m, slots, n) <= 1
  {
    if n > 0 {
      AtMostOne(m, slots, n - 1);
      if Weight(m, slots[n - 1]) > 0 && SumTo(m, slots, n - 1) > 0 {
        var i := SumPositiveTo(m, slots, n - 1);
        assert false;
      }
    }
  }

  lemma {:induction false} SoundHandles(cfg: Config, slots: seq<Entry>)
    requires 0 < cfg.alignment && forall i :: 0 <= i < |slots| ==> EntrySound(cfg, slots[i])
    requires forall i, j :: 0 <= i < j < |slots| ==> !Clash(slots[i], slots[j])
    ensures DistinctKeys(slots) && DistinctHandles(slots)
  {
    forall i, j | 0 <= i < j < |slots| && slots[i].Resident? && slots[j].Resident?
      ensures slots[i].key != slots[j].key
    {
      assert !Clash(slots[i], slots[j]);
    }
    forall h
      ensures Sum(Copies(h), slots) <= 1
    {
      forall i | 0 <= i < |slots|
        ensures Weight(Copies(h), slots[i]) <= 1
      {
        assert EntrySound(cfg, slots[i]);
      }
      forall i, j | 0 <= i < j < |slots|
        ensures Weight(Copies(h), slots[i]) == 0 || Weight(Copies(h), slots[j]) == 0
      {
        assert !Clash(slots[i], slots[j]);
      }
      AtMostOne(Copies(h), slots, |slots|);
    }
  }

  /** A resident entry in order: a layer in range, and charges that are those of the sizes. */
  predicate Charged(cfg: Config, e: Entry)
    requires 0 < cfg.alignment
  {
    e.Resident? ==>
      && e.key.layer < |cfg.floors| && PlaneOk(cfg, e.base) && !e.planned
      && (e.residual.Some? ==> PlaneOk(cfg, e.residual.value))
  }

  lemma {:induction false} SoundSlots(cfg: Config, hash: Key -> nat, buckets: seq<Bucket>, slots: seq<Entry>)
    requires 0 < cfg.alignment && 0 < |buckets|
    requires forall i :: 0 <= i < |slots| ==> SlotSound(cfg, hash, buckets, slots, i)
    requires forall b :: 0 <= b < |buckets| ==> BucketSound(slots, buckets[b])
    ensures Indexed(hash, buckets, slots, |slots|) && DistinctKeys(slots) && DistinctHandles(slots)
    ensures forall i :: 0 <= i < |slots| ==> Charged(cfg, slots[i])
  {
    forall i | 0 <= i < |slots|
      ensures EntrySound(cfg, slots[i]) && Charged(cfg, slots[i])
      ensures slots[i].Resident? ==> IndexedOnce(hash, buckets, slots, i)
      ensures forall j :: i < j < |slots| ==> !Clash(slots[i], slots[j])
    {
      assert SlotSound(cfg, hash, buckets, slots, i);
    }
    SoundIndexed(hash, buckets, slots);
    SoundHandles(cfg, slots);
  }

  /** A diagnostic that passes has seen to it that the index is right for every key, no key
      and no payload is held twice, and every charge is that of its size. */
  lemma {:induction false} SoundMeans(c: Cache)
    requires c.Shape() && Sound(c)
    ensures Indexed(c.hash, c.buckets[..], c.entries[..], c.entries.Length)
    ensures DistinctKeys(c.entries[..]) && DistinctHandles(c.entries[..])
    ensures forall i :: 0 <= i < c.entries.Length ==> Charged(c.cfg, c.entries[..][i])
  {
    SoundSlots(c.cfg, c.hash, c.buckets[..], c.entries[..]);
  }

  /** It has also seen to it that all counters count. */
  lemma {:induction false} SoundCounts(c: Cache, l: nat)
    requires c.Shape() && Sound(c) && l < c.layers.Length
    ensures var slots, y := c.entries[..], c.layers[l];
            && c.payloadBytes == Sum(TotalCharge, slots) && c.entryCount == Sum(Entries, slots)
            && c.baseBytes == Sum(BaseCharge, slots) && c.residualBytes == Sum(ResidualCharge, slots)
            && y.baseBytes == Sum(LayerBase(l), slots) && y.baseEntries == Sum(LayerEntries(l), slots)
            && y.residualBytes == Sum(LayerResidual(l), slots)
            && y.residualEntries == Sum(LayerResidualEntries(l), slots)
            && c.payloadBytes <= c.peakBytes <= c.cfg.budget
  {
    assert LayerSound(c.layers[l], c.entries[..], l);
  }

  // ---- It passes in every reachable state ------------------------------------

  lemma {:induction false} NoReferences(buckets: seq<Bucket>, i: nat)
    requires forall b :: 0 <= b < |buckets| ==> buckets[b] != Slot(i)
    ensures References(buckets, i) == 0
  {
    if buckets != [] {
      NoReferences(buckets[..|buckets| - 1], i);
    }
  }

  lemma {:induction false} OneReference(buckets: seq<Bucket>, i: nat, b: nat)
    requires b < |buckets| && buckets[b] == Slot(i)
    requires forall c :: 0 <= c < |buckets| && buckets[c] == Slot(i) ==> c == b
    ensures References(buckets, i) == 1
  {
    var last := |buckets| - 1;
    if b == last {
      NoReferences(buckets[..last], i);
    } else {
      OneReference(buckets[..last], i, b);
    }
  }

  lemma {:induction false} SumTwo(m: Measure, slots: seq<Entry>, i: nat, j: nat, n: nat)
    requires i < j < n <= |slots|
    ensures Weight(m, slots[i]) + Weight(m, slots[j]) <= SumTo(m, slots, n)
  {
    if j == n - 1 {
      SumMemberTo(m, slots, i, j);
    } else {
      SumTwo(m, slots, i, j, n - 1);
    }
  }

  lemma {:induction false} NoClash(cfg: Config, s: State, i: nat, j: nat)
    requires Inv(cfg, s) && i < j < |s.slots|
    ensures !Clash(s.slots[i], s.slots[j])
  {
    var a, b := s.slots[i], s.slots[j];
    if a.Resident? && b.Resident? {
      SumTwo(Copies(a.base.payload), s.slots, i, j, |s.slots|);
      if a.residual.Some? {
        SumTwo(Copies(a.residual.value.payload), s.slots, i, j, |s.slots|);
      }
    }
  }

  lemma {:induction false} InvEntrySound(cfg: Config, s: State, i: nat)
    requires Inv(cfg, s) && i < |s.slots|
    ensures EntrySound(cfg, s.slots[i])
  {
    var e := s.slots[i];
    assert EntryOk(cfg, s.clock, e);
    if e.Resident? && e.residual.Some? {
      SumMember(Copies(e.base.payload), s.slots, i);
    }
  }

  lemma {:induction false} InvIndexedOnce(hash: Key -> nat, buckets: seq<Bucket>, slots: seq<Entry>, i: nat)
    requires Indexed(hash, buckets, slots, |slots|) && DistinctKeys(slots) && i < |slots| && slots[i].Resident?
    ensures IndexedOnce(hash, buckets, slots, i)
  {
    assert HasKey(slots[i], slots[i].key);
    LookupRefinesMap(hash, buckets, slots, |slots|, slots[i].key);
    var b :| 0 <= b < |buckets| && buckets[b] == Slot(i);
    OneReference(buckets, i, b);
  }

  /** The invariant of the cache is enough for the diagnostic to pass. */
  lemma {:induction false} ValidIsSound(c: Cache)
    requires c.Valid()
    ensures Sound(c)
  {
    var s := c.Abs();
    forall i | 0 <= i < c.entries.Length
      ensures SlotSound(c.cfg, c.hash, c.buckets[..], c.entries[..], i)
    {
      InvEntrySound(c.cfg, s, i);
      if s.slots[i].Resident? {
        InvIndexedOnce(c.hash, c.buckets[..], s.slots, i);
      }
      forall j | i < j < |s.slots|
        ensures !Clash(s.slots[i], s.slots[j])
      {
        NoClash(c.cfg, s, i, j);
      }
    }
  }

  /** In every valid cache some bucket is empty, so probing for an absent key ends. */
  lemma {:induction false} SomeBucketIsEmpty(c: Cache)
    requires c.Valid()
    ensures exists b :: 0 <= b < c.buckets.Length && c.buckets[b].Empty?
  {
    CountAtMost(c.entries[..]);
    var b := EmptyBucketExists(c.buckets[..], c.entries.Length);
    assert c.buckets[b] == c.buckets[..][b];
  }

  method Perform(c: Cache, op: Op) returns (reply: Reply)
    requires c.Valid()
    modifies c, c.entries, c.layers, c.buckets
    ensures c.Valid() && (c.Abs(), reply) == Step(c.cfg, old(c.Abs()), op)
  {
    match op {
      case Get(key, requirement) => reply := c.Get(key, requirement);
      case Pin(key) => reply := c.PinEntry(key);
      case Unpin(key) => reply := c.UnpinEntry(key);
      case InsertBase(key, p, l, r, f) => reply := c.Insert(key, p, l, r, f);
      case Promote(key, p, l, r, f) => reply := c.PromoteEntry(key, p, l, r, f);
      case Remove(key) => reply := c.RemoveEntry(key);
      case ApplyPressure(level, target) => reply := c.ApplyPressure(level, target);
      case Destroy => reply := c.DestroyCache();
    }
  }

  method PerformAll(c: Cache, ops: seq<Op>)
    requires c.Valid()
    modifies c, c.entries, c.layers, c.buckets
    ensures c.Valid() && c.Abs() == Run(c.cfg, old(c.Abs()), ops)
  {
    ghost var start := c.Abs();
    var i := 0;
    while i < |ops|
      invariant 0 <= i <= |ops|
      invariant c.Valid() && c.Abs() == Run(c.cfg, start, ops[..i])
    {
      var reply := Perform(c, ops[i]);
      assert ops[..i + 1][..i] == ops[..i];
      i := i + 1;
    }
    assert ops[..|ops|] == ops;
  }

  /** Create a cache, perform any operations on it, then run the diagnostic: the
      cache is where the state machine says, and the answer is OK unless the
      cache has been destroyed. */
  method RunAndValidate(cfg: Config, hash: Key -> nat, ops: seq<Op>) returns (status: Status, cache: Cache?)
    requires cfg.budget <= U64_MAX
    ensures cache == null <==> cfg.alignment == 0 || cfg.maxEntries == 0 || cfg.maxEntries > 0x4000_0000
                               || |cfg.floors| == 0
    ensures cache == null ==> status != Ok
    ensures cache != null ==>
              && cache.Valid() && ConfigOk(cfg) && cache.cfg == cfg
              && cache.Abs() == Run(cfg, Initial(cfg), ops)
              && status == (if cache.alive then Ok else ErrArgument)
              && exists b :: 0 <= b < cache.buckets.Length && cache.buckets[b].Empty?
  {
    status, cache := Create(cfg, hash);
    if cache == null {
      return;
    }
    PerformAll(cache, ops);
    ValidIsSound(cache);
    SomeBucketIsEmpty(cache);
    status := Validate(cache);
  }
}
