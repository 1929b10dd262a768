/** src/expert_cache.c as it runs: arrays of entries, hash buckets and layer
    totals updated in place, proved to be the state machine of CacheModel. */
module ExpertCache {
  import opened Basics
  import opened CacheTypes
  import opened CachePolicy
  import opened CacheModel
  import opened CachePlan
  import opened CacheInvariant
  import opened CacheRuns
  import opened CacheTheorems
  import opened HashIndex

  datatype Layer = Layer(floor: Floor, baseBytes: nat, residualBytes: nat, baseEntries: nat, residualEntries: nat,
                         planBytes: nat, planEntries: nat)

  /** The running totals of each layer are the sums over its entries. */
  ghost predicate LayersCounted(layers: seq<Layer>, floors: seq<Floor>, slots: seq<Entry>) {
    && |layers| == |floors|
    && forall l :: 0 <= l < |layers| ==>
         && layers[l].floor == floors[l]
         && layers[l].baseBytes == Sum(LayerBase(l), slots)
         && layers[l].baseEntries == Sum(LayerEntries(l), slots)
         && layers[l].residualBytes == Sum(LayerResidual(l), slots)
         && layers[l].residualEntries == Sum(LayerResidualEntries(l), slots)
  }

  /** So are the global ones. */
  predicate Totals(slots: seq<Entry>, payload: int, base: int, residual: int, count: int) {
    && payload == Sum(TotalCharge, slots)
    && base == Sum(BaseCharge, slots)
    && residual == Sum(ResidualCharge, slots)
    && count == Sum(Entries, slots)
  }

  lemma {:induction false} TotalsUpdate(slots: seq<Entry>, payload: int, base: int, residual: int, count: int, i: nat,
                                        e: Entry)
    requires Totals(slots, payload, base, residual, count) && i < |slots|
    ensures Totals(slots[i := e],
                   payload - Weight(TotalCharge, slots[i]) + Weight(TotalCharge, e),
                   base - Weight(BaseCharge, slots[i]) + Weight(BaseCharge, e),
                   residual - Weight(ResidualCharge, slots[i]) + Weight(ResidualCharge, e),
                   count - Weight(Entries, slots[i]) + Weight(Entries, e))
    ensures payload >= Weight(TotalCharge, slots[i]) && base >= Weight(BaseCharge, slots[i])
    ensures residual >= Weight(ResidualCharge, slots[i]) && count >= Weight(Entries, slots[i])
  {
    SumUpdate(TotalCharge, slots, i, e);
    SumUpdate(BaseCharge, slots, i, e);
    SumUpdate(ResidualCharge, slots, i, e);
    SumUpdate(Entries, slots, i, e);
    SumMember(TotalCharge, slots, i);
    SumMember(BaseCharge, slots, i);
    SumMember(ResidualCharge, slots, i);
    SumMember(Entries, slots, i);
  }

  lemma {:induction false} LayerHolds(layers: seq<Layer>, floors: seq<Floor>, slots: seq<Entry>, i: nat)
    requires LayersCounted(layers, floors, slots) && i < |slots| && slots[i].Resident? && slots[i].key.layer < |floors|
    ensures var y, e := layers[slots[i].key.layer], slots[i];
            && y.baseBytes >= e.base.charge && y.baseEntries >= 1
            && (e.residual.Some? ==> y.residualBytes >= e.residual.value.charge && y.residualEntries >= 1)
  {
    var l := slots[i].key.layer;
    SumMember(LayerBase(l), slots, i);
    SumMember(LayerEntries(l), slots, i);
    SumMember(LayerResidual(l), slots, i);
    SumMember(LayerResidualEntries(l), slots, i);
  }

  /** The planning totals are the sums over the entries not yet marked. */
  ghost predicate LayersPlanned(layers: seq<Layer>, slots: seq<Entry>) {
    forall l :: 0 <= l < |layers| ==>
      layers[l].planBytes == Sum(LayerBase(l), slots) && layers[l].planEntries == Sum(LayerEntries(l), slots)
  }

  function Unmarked(e: Entry): Entry {
    if e.Resident? && e.planned then Vacant else e
  }

  /** The slots as if every marked base had gone. */
  function Unplanned(slots: seq<Entry>): (r: seq<Entry>)
    ensures |r| == |slots| && forall i :: 0 <= i < |slots| ==> r[i] == Unmarked(slots[i])
  {
    seq(|slots|, i requires 0 <= i < |slots| => Unmarked(slots[i]))
  }

  predicate NoneMarked(slots: seq<Entry>) {
    forall i :: 0 <= i < |slots| && slots[i].Resident? ==> !slots[i].planned
  }

  predicate InLayer(e: Entry, l: nat) {
    e.Resident? ==> e.key.layer == l
  }

  /** Replacing one entry of layer l adjusts the totals of that layer only. */
  lemma {:induction false} LayersUpdate(layers: seq<Layer>, floors: seq<Floor>, slots: seq<Entry>, i: nat, e: Entry,
                                        l: nat, after: Layer)
    requires LayersCounted(layers, floors, slots) && i < |slots| && l < |floors|
    requires InLayer(slots[i], l) && InLayer(e, l)
    requires after.floor == layers[l].floor
    requires after.baseBytes + Weight(LayerBase(l), slots[i]) == layers[l].baseBytes + Weight(LayerBase(l), e)
    requires after.baseEntries + Weight(LayerEntries(l), slots[i]) == layers[l].baseEntries + Weight(LayerEntries(l), e)
    requires after.residualBytes + Weight(LayerResidual(l), slots[i])
      == layers[l].residualBytes + Weight(LayerResidual(l), e)
    requires after.residualEntries + Weight(LayerResidualEntries(l), slots[i])
             == layers[l].residualEntries + Weight(LayerResidualEntries(l), e)
    ensures LayersCounted(layers[l := after], floors, slots[i := e])
  {
    forall k | 0 <= k < |layers|
      ensures var y := layers[l := after][k];
              && y.baseBytes == Sum(LayerBase(k), slots[i := e])
              && y.baseEntries == Sum(LayerEntries(k), slots[i := e])
              && y.residualBytes == Sum(LayerResidual(k), slots[i := e])
              && y.residualEntries == Sum(LayerResidualEntries(k), slots[i := e])
    {
      SumUpdate(LayerBase(k), slots, i, e);
      SumUpdate(LayerEntries(k), slots, i, e);
      SumUpdate(LayerResidual(k), slots, i, e);
      SumUpdate(LayerResidualEntries(k), slots, i, e);
    }
  }

  // Layer totals after one plane joins or leaves.

  function ResidualLeaves(y: Layer, charge: nat): Layer
    requires y.residualBytes >= charge && y.residualEntries >= 1
  {
    y.(residualBytes := y.residualBytes - charge, residualEntries := y.residualEntries - 1)
  }

  function BaseLeaves(y: Layer, charge: nat): Layer
    requires y.baseBytes >= charge && y.baseEntries >= 1
  {
    y.(baseBytes := y.baseBytes - charge, baseEntries := y.baseEntries - 1)
  }

  lemma {:induction false} CountResidualLeaving(layers: seq<Layer>, floors: seq<Floor>, slots: seq<Entry>, i: nat,
                                                payload: nat, base: nat, residual: nat, count: nat)
    requires LayersCounted(layers, floors, slots) && Totals(slots, payload, base, residual, count)
    requires i < |slots| && slots[i].Resident? && slots[i].residual.Some? && slots[i].key.layer < |floors|
    ensures var e, c := slots[i], slots[i].residual.value.charge;
            var y := layers[e.key.layer];
            && y.residualBytes >= c && y.residualEntries >= 1 && payload >= c && residual >= c
            && LayersCounted(layers[e.key.layer := ResidualLeaves(y, c)], floors, slots[i := e.(residual := None)])
            && Totals(slots[i := e.(residual := None)], payload - c, base, residual - c, count)
  {
    var e, l := slots[i], slots[i].key.layer;
    LayerHolds(layers, floors, slots, i);
    TotalsUpdate(slots, payload, base, residual, count, i, e.(residual := None));
    LayersUpdate(layers, floors, slots, i, e.(residual := None), l,
                 ResidualLeaves(layers[l], e.residual.value.charge));
  }

  lemma {:induction false} CountBaseLeaving(layers: seq<Layer>, floors: seq<Floor>, slots: seq<Entry>, i: nat,
                                            payload: nat, base: nat, residual: nat, count: nat)
    requires LayersCounted(layers, floors, slots) && Totals(slots, payload, base, residual, count)
    requires i < |slots| && slots[i].Resident? && slots[i].residual.None? && slots[i].key.layer < |floors|
    ensures var e, c := slots[i], slots[i].base.charge;
            var y := layers[e.key.layer];
            && y.baseBytes >= c && y.baseEntries >= 1 && payload >= c && base >= c && count >= 1
            && LayersCounted(layers[e.key.layer := BaseLeaves(y, c)], floors, slots[i := Vacant])
            && Totals(slots[i := Vacant], payload - c, base - c, residual, count - 1)
  {
    var e, l := slots[i], slots[i].key.layer;
    LayerHolds(layers, floors, slots, i);
    TotalsUpdate(slots, payload, base, residual, count, i, Vacant);
    LayersUpdate(layers, floors, slots, i, Vacant, l, BaseLeaves(layers[l], e.base.charge));
  }

  function BaseJoins(y: Layer, charge: nat): Layer {
    y.(baseBytes := y.baseBytes + charge, baseEntries := y.baseEntries + 1)
  }

  function ResidualJoins(y: Layer, charge: nat): Layer {
    y.(residualBytes := y.residualBytes + charge, residualEntries := y.residualEntries + 1)
  }

  lemma {:induction false} CountBaseJoining(layers: seq<Layer>, floors: seq<Floor>, slots: seq<Entry>, i: nat, e: Entry,
                                            payload: nat, base: nat, residual: nat, count: nat)
    requires LayersCounted(layers, floors, slots) && Totals(slots, payload, base, residual, count)
    requires i < |slots| && slots[i].Vacant? && e.Resident? && e.residual.None? && e.key.layer < |floors|
    ensures var c := e.base.charge;
            && LayersCounted(layers[e.key.layer := BaseJoins(layers[e.key.layer], c)], floors, slots[i := e])
            && Totals(slots[i := e], payload + c, base + c, residual, count + 1)
  {
    TotalsUpdate(slots, payload, base, residual, count, i, e);
    LayersUpdate(layers, floors, slots, i, e, e.key.layer, BaseJoins(layers[e.key.layer], e.base.charge));
  }

  lemma {:induction false} CountResidualJoining(layers: seq<Layer>, floors: seq<Floor>, slots: seq<Entry>, i: nat,
                                                p: Plane, payload: nat, base: nat, residual: nat, count: nat)
    requires LayersCounted(layers, floors, slots) && Totals(slots, payload, base, residual, count)
    requires i < |slots| && slots[i].Resident? && slots[i].residual.None? && slots[i].key.layer < |floors|
    ensures var e, l := slots[i].(residual := Some(p)), slots[i].key.layer;
            && LayersCounted(layers[l := ResidualJoins(layers[l], p.charge)], floors, slots[i := e])
            && Totals(slots[i := e], payload + p.charge, base, residual + p.charge, count)
  {
    var e, l := slots[i].(residual := Some(p)), slots[i].key.layer;
    TotalsUpdate(slots, payload, base, residual, count, i, e);
    LayersUpdate(layers, floors, slots, i, e, l, ResidualJoins(layers[l], p.charge));
  }

  /** Stamps, queue, pins and prefetch marks are in no total and no index. */
  lemma {:induction false} CountsIgnoreStamps(hash: Key -> nat, buckets: seq<Bucket>, layers: seq<Layer>,
                                              floors: seq<Floor>, a: seq<Entry>, b: seq<Entry>, payload: nat, base: nat,
                                              residual: nat, count: nat)
    requires |a| == |b| && forall i :: 0 <= i < |a| ==> SamePlanes(a[i], b[i])
    requires LayersCounted(layers, floors, a) && Totals(a, payload, base, residual, count)
    requires Indexed(hash, buckets, a, |a|)
    ensures LayersCounted(layers, floors, b) && Totals(b, payload, base, residual, count)
    ensures Indexed(hash, buckets, b, |b|)
  {
    forall m: Measure
      ensures Sum(m, a) == Sum(m, b) || m.FreeableResidual?
    {
      if !m.FreeableResidual? {
        forall i | 0 <= i < |a|
          ensures Weight(m, a[i]) == Weight(m, b[i])
        {
          assert SamePlanes(a[i], b[i]);
        }
        SumSame(m, a, b);
      }
    }
    assert forall i :: 0 <= i < |a| ==> SamePlanes(a[i], b[i]);
    IndexSameKeys(hash, buckets, a, b, |a|);
  }

  lemma {:induction false} VacantSums(slots: seq<Entry>)
    requires forall i :: 0 <= i < |slots| ==> slots[i].Vacant?
    ensures forall m :: Sum(m, slots) == 0
  {
    forall m: Measure
      ensures Sum(m, slots) == 0
    {
      if Sum(m, slots) > 0 {
        var i := SumPositive(m, slots);
      }
    }
  }

  lemma NothingToIndex(hash: Key -> nat, buckets: seq<Bucket>, slots: seq<Entry>)
    requires Indexed(hash, buckets, slots, 0) && forall i :: 0 <= i < |slots| ==> slots[i].Vacant?
    ensures Indexed(hash, buckets, slots, |slots|)
  {
  }

  lemma FindIs(slots: seq<Entry>, key: Key, i: nat)
    requires DistinctKeys(slots) && i < |slots| && HasKey(slots[i], key)
    ensures Find(slots, key) == Some(i)
  {
  }

  class Cache {
    const cfg: Config
    const hash: Key -> nat
    const entries: array<Entry>
    const buckets: array<Bucket>
    const layers: array<Layer>
    var tombstones: nat
    var entryCount: nat
    var clock: nat
    var payloadBytes: nat
    var baseBytes: nat
    var residualBytes: nat
    var peakBytes: nat
    var alive: bool
    ghost var log: seq<Event>
    ghost var admitted: seq<Handle>
    ghost var touched: seq<Key>
    ghost var arrived: seq<Key>

    ghost function Abs(): State
      reads this, entries
    {
      State(entries[..], clock, peakBytes, alive, log, admitted, touched, arrived)
    }

    /** The arrays as initialisation lays them out, whatever the number of buckets. */
    ghost predicate Laid() {
      && ConfigOk(cfg)
      && entries.Length == cfg.maxEntries
      && layers.Length == |cfg.floors|
    }

    ghost predicate Shape() {
      Laid() && 2 * cfg.maxEntries <= buckets.Length
    }

    ghost predicate Counted()
      reads this, entries, layers
    {
      && Shape()
      && Totals(entries[..], payloadBytes, baseBytes, residualBytes, entryCount)
      && LayersCounted(layers[..], cfg.floors, entries[..])
    }

    ghost predicate Hashed()
      reads this, entries, buckets
    {
      && Shape()
      && Indexed(hash, buckets[..], entries[..], entries.Length)
      && tombstones == Tally(Tombstones, buckets[..])
      && Tally(Slots, buckets[..]) == Sum(Entries, entries[..])
      && tombstones <= buckets.Length / 4
    }

    ghost predicate Valid()
      reads this, entries, buckets, layers
    {
      Counted() && Hashed() && Good(cfg, Abs())
    }

    /** ecache_init's memset and bucket fill. */
    constructor (cfg: Config, hash: Key -> nat, bucketCount: nat)
      requires ConfigOk(cfg) && 2 * cfg.maxEntries <= bucketCount
      ensures Valid() && Abs() == Initial(cfg)
      ensures this.cfg == cfg && this.hash == hash && buckets.Length == bucketCount
      ensures fresh(entries) && fresh(buckets) && fresh(layers)
    {
      this.cfg := cfg;
      this.hash := hash;
      entries := new Entry[cfg.maxEntries](_ => Vacant);
      buckets := new Bucket[bucketCount](_ => Empty);
      layers := new Layer[|cfg.floors|](i requires 0 <= i < |cfg.floors| => Layer(cfg.floors[i], 0, 0, 0, 0, 0, 0));
      tombstones, entryCount, clock := 0, 0, 0;
      payloadBytes, baseBytes, residualBytes, peakBytes := 0, 0, 0, 0;
      alive := true;
      log, admitted, touched, arrived := [], [], [], [];
      new;
      assert entries[..] == Initial(cfg).slots;
      InitialGood(cfg);
      VacantSums(entries[..]);
      IndexNothing(hash, buckets[..], entries[..]);
      NothingToIndex(hash, buckets[..], entries[..]);
      TallyAllEmpty(buckets[..]);
    }

    // ---- Hash index -------------------------------------------------------

    /** hash_find. On a miss, `bucket` is the first reusable bucket, if any. */
    method HashFind(key: Key) returns (found: bool, bucket: Option<nat>, slot: nat)
      requires Shape()
      ensures var home := Home(hash, key, buckets.Length);
              && (found ==> bucket == Probe(buckets[..], entries[..], key, home, 0)
                            && bucket.Some? && buckets[bucket.value] == Slot(slot)
                            && slot < entries.Length && HasKey(entries[slot], key))
              && (!found ==> Probe(buckets[..], entries[..], key, home, 0).None?)
              && (!found && bucket.Some? ==> bucket.value < buckets.Length && !buckets[bucket.value].Slot?
                                             && Reach(buckets[..], home, bucket.value))
              && (!found && bucket.None? ==> forall b :: 0 <= b < buckets.Length ==> buckets[b].Slot?)
    {
      var n := buckets.Length;
      var start := Home(hash, key, n);
      var firstTombstone: Option<nat> := None;
      var probe := 0;
      while probe < n
        invariant 0 <= probe <= n
        invariant Probe(buckets[..], entries[..], key, start, 0) == Probe(buckets[..], entries[..], key, start, probe)
        invariant forall k :: 0 <= k < probe ==> !buckets[At(start, k, n)].Empty?
        invariant firstTombstone.None? ==> forall k :: 0 <= k < probe ==> buckets[At(start, k, n)].Slot?
        invariant firstTombstone.Some? ==> firstTombstone.value < n && buckets[firstTombstone.value].Tombstone?
                                           && Distance(start, firstTombstone.value, n) < probe
      {
        var b := At(start, probe, n);
        match buckets[b] {
          case Empty =>
            return false, if firstTombstone.Some? then firstTombstone else Some(b), 0;
          case Tombstone =>
            if firstTombstone.None? {
              firstTombstone := Some(b);
            }
          case Slot(value) =>
            if value < entries.Length && entries[value].Resident? && entries[value].key == key {
              return true, Some(b), value;
            }
        }
        probe := probe + 1;
      }
      forall b | 0 <= b < n && firstTombstone.None?
        ensures buckets[b].Slot?
      {
        assert At(start, Distance(start, b, n), n) == b;
      }
      return false, firstTombstone, 0;
    }

    /** hash_rebuild: a fresh index of the resident entries, no tombstone left. */
    method HashRebuild()
      requires Shape() && DistinctKeys(entries[..])
      modifies buckets, `tombstones
      ensures tombstones == 0 && Hashed()
    {
      var i := 0;
      while i < buckets.Length
        invariant 0 <= i <= buckets.Length
        invariant forall b :: 0 <= b < i ==> buckets[b].Empty?
      {
        buckets[i] := Empty;
        i := i + 1;
      }
      tombstones := 0;
      IndexNothing(hash, buckets[..], entries[..]);
      TallyAllEmpty(buckets[..]);
      i := 0;
      while i < entries.Length
        invariant 0 <= i <= entries.Length && tombstones == 0 && Rebuilt(i)
      {
        Reindex(i);
        i := i + 1;
      }
      assert entries[..entries.Length] == entries[..];
    }

    /** The first `i` entries are indexed and nothing else is. */
    ghost predicate Rebuilt(i: nat)
      reads this, entries, buckets
      requires 0 < buckets.Length && i <= entries.Length
    {
      && Indexed(hash, buckets[..], entries[..], i)
      && Tally(Tombstones, buckets[..]) == 0
      && Tally(Slots, buckets[..]) == Sum(Entries, entries[..i])
    }

    method Reindex(i: nat)
      requires Shape() && DistinctKeys(entries[..]) && i < entries.Length && Rebuilt(i)
      modifies buckets
      ensures Rebuilt(i + 1)
    {
      SumPrefix(Entries, entries[..], i);
      assert entries[..][..i + 1] == entries[..i + 1] && entries[..][..i] == entries[..i];
      if entries[i].Resident? {
        var found, bucket, slot := HashFind(entries[i].key);
        LookupRefinesMap(hash, buckets[..], entries[..], i, entries[i].key);
        RoomForOne(i);
        IndexInsert(hash, buckets[..], entries[..], i, bucket.value, i, entries[..], i + 1);
        TallyUpdate(Tombstones, buckets[..], bucket.value, Slot(i));
        TallyUpdate(Slots, buckets[..], bucket.value, Slot(i));
        ghost var after := buckets[..][bucket.value := Slot(i)];
        buckets[bucket.value] := Slot(i);
        assert buckets[..] == after;
      } else {
        IndexSkip(i);
      }
    }

    /** Fewer slots than buckets are indexed, so a miss offers a bucket. */
    lemma {:induction false} RoomForOne(i: nat)
      requires Shape() && i <= entries.Length
      requires Tally(Slots, buckets[..]) <= Sum(Entries, entries[..i])
      ensures exists b :: 0 <= b < buckets.Length && !buckets[b].Slot?
    {
      CountAtMost(entries[..i]);
      TallyTotal(buckets[..]);
      if Tally(Empties, buckets[..]) > 0 {
        var b := TallyPositive(Empties, buckets[..]);
        assert !buckets[b].Slot?;
      } else {
        var b := TallyPositive(Tombstones, buckets[..]);
        assert !buckets[b].Slot?;
      }
    }

    lemma IndexSkip(i: nat)
      requires i < entries.Length && entries[i].Vacant?
      requires Indexed(hash, buckets[..], entries[..], i)
      ensures Indexed(hash, buckets[..], entries[..], i + 1)
    {
    }

    /** hash_erase of a resident key, whose slot is vacated next. */
    method HashErase(key: Key)
      requires Shape() && DistinctKeys(entries[..])
      requires Indexed(hash, buckets[..], entries[..], entries.Length) && tombstones == Tally(Tombstones, buckets[..])
      requires exists i :: 0 <= i < entries.Length && HasKey(entries[i], key)
      modifies buckets, `tombstones
      ensures tombstones == old(tombstones) + 1 && tombstones == Tally(Tombstones, buckets[..])
      ensures Tally(Slots, buckets[..]) + 1 == old(Tally(Slots, buckets[..]))
      ensures forall i :: 0 <= i < entries.Length && HasKey(entries[i], key) ==>
                Indexed(hash, buckets[..], entries[..][i := Vacant], entries.Length)
    {
      var found, bucket, slot := HashFind(key);
      LookupRefinesMap(hash, buckets[..], entries[..], entries.Length, key);
      if !found {
        return;
      }
      IndexErase(hash, buckets[..], entries[..], bucket.value);
      TallyUpdate(Tombstones, buckets[..], bucket.value, Tombstone);
      TallyUpdate(Slots, buckets[..], bucket.value, Tombstone);
      ghost var after := buckets[..][bucket.value := Tombstone];
      buckets[bucket.value] := Tombstone;
      assert buckets[..] == after;
      tombstones := tombstones + 1;
    }

    // ---- Releasing planes -------------------------------------------------

    method ReleaseResidual(i: nat, reason: Reason)
      requires Counted() && i < entries.Length
      requires entries[i].Resident? ==> entries[i].key.layer < |cfg.floors|
      modifies entries, layers, `payloadBytes, `residualBytes, `log
      ensures Counted()
      ensures if old(entries[i].Resident? && entries[i].residual.Some?)
              then Abs() == DropResidual(old(Abs()), i, reason)
              else Abs() == old(Abs())
    {
      var e := entries[i];
      if e.Vacant? || e.residual.None? {
        return;
      }
      var p, l := e.residual.value, e.key.layer;
      ghost var slots, lay := entries[..], layers[..];
      CountResidualLeaving(lay, cfg.floors, slots, i, payloadBytes, baseBytes, residualBytes, entryCount);
      payloadBytes := payloadBytes - p.charge;
      residualBytes := residualBytes - p.charge;
      layers[l] := ResidualLeaves(layers[l], p.charge);
      entries[i] := e.(residual := None);
      log := log + [Event(e.key, ResidualPlane, reason, p)];
      assert layers[..] == lay[l := layers[l]];
      assert entries[..] == slots[i := entries[i]];
    }

    /** release_base: residual first, then the base, its bucket and its slot. */
    method ReleaseBase(i: nat, reason: Reason)
      requires Counted() && Hashed() && DistinctKeys(entries[..]) && i < entries.Length
      requires entries[i].Resident? ==> entries[i].key.layer < |cfg.floors|
      modifies this, entries, layers, buckets
      ensures Counted() && Hashed()
      ensures if old(entries[i].Resident?) then Abs() == DropBase(old(Abs()), i, reason) else Abs() == old(Abs())
    {
      if entries[i].Vacant? {
        return;
      }
      ghost var slots := entries[..];
      if entries[i].residual.Some? {
        ReleaseResidual(i, reason);
        assert entries[..] == slots[i := entries[i]];
        IndexSameKeys(hash, buckets[..], slots, entries[..], entries.Length);
        SumUpdate(Entries, slots, i, entries[i]);
      }
      assert Hashed();
      BareRelease(i, reason);
    }

    method BareRelease(i: nat, reason: Reason)
      requires Counted() && Hashed() && DistinctKeys(entries[..]) && i < entries.Length
      requires entries[i].Resident? && entries[i].residual.None? && entries[i].key.layer < |cfg.floors|
      modifies this, entries, layers, buckets
      ensures Counted() && Hashed()
      ensures Abs() == DropBase(old(Abs()), i, reason)
    {
      var e := entries[i];
      ghost var before := Abs();
      DebitBase(i);
      VacateSlot(i);
      log := log + [Event(e.key, BasePlane, reason, e.base)];
      assert Abs() == before.(slots := before.slots[i := Vacant], log := log);
    }

    /** Take the base in slot i out of every total; the slot itself goes next. */
    method DebitBase(i: nat)
      requires Counted() && i < entries.Length
      requires entries[i].Resident? && entries[i].residual.None? && entries[i].key.layer < |cfg.floors|
      modifies layers, `payloadBytes, `baseBytes, `entryCount
      ensures LayersCounted(layers[..], cfg.floors, entries[..][i := Vacant])
      ensures Totals(entries[..][i := Vacant], payloadBytes, baseBytes, residualBytes, entryCount)
    {
      var e := entries[i];
      var l := e.key.layer;
      ghost var lay := layers[..];
      CountBaseLeaving(lay, cfg.floors, entries[..], i, payloadBytes, baseBytes, residualBytes, entryCount);
      payloadBytes := payloadBytes - e.base.charge;
      baseBytes := baseBytes - e.base.charge;
      layers[l] := BaseLeaves(layers[l], e.base.charge);
      assert layers[..] == lay[l := layers[l]];
      entryCount := entryCount - 1;
    }

    /** Unhash the key, zero the slot, and rebuild once tombstones exceed a quarter. */
    method VacateSlot(i: nat)
      requires Hashed() && DistinctKeys(entries[..]) && i < entries.Length && entries[i].Resident?
      modifies entries, buckets, `tombstones
      ensures Hashed() && entries[..] == old(entries[..])[i := Vacant]
    {
      ghost var slots := entries[..];
      SumUpdate(Entries, slots, i, Vacant);
      assert HasKey(entries[i], entries[i].key);
      HashErase(entries[i].key);
      entries[i] := Vacant;
      assert entries[..] == slots[i := Vacant];
      if tombstones > buckets.Length / 4 {
        HashRebuild();
      }
    }

    /** Release the residual of an unpinned entry. */
    method DemoteResidual(i: nat, reason: Reason)
      requires Counted() && Hashed() && Inv(cfg, Abs()) && i < entries.Length && ResidualEligible(entries[i])
      modifies this, entries, layers
      ensures Counted() && Hashed() && Inv(cfg, Abs())
      ensures Abs() == DropResidual(old(Abs()), i, reason)
      ensures Sum(Planes, entries[..]) < old(Sum(Planes, entries[..]))
    {
      ghost var s := Abs();
      AfterResidual(cfg, s, i, reason);
      IndexAfterResidual(hash, buckets[..], s.slots, i);
      ReleaseResidual(i, reason);
    }

    /** Release an unpinned entry. */
    method EvictBase(i: nat, reason: Reason)
      requires Counted() && Hashed() && Inv(cfg, Abs())
      requires i < entries.Length && entries[i].Resident? && entries[i].pins == 0
      modifies this, entries, layers, buckets
      ensures Counted() && Hashed() && Inv(cfg, Abs())
      ensures Abs() == DropBase(old(Abs()), i, reason)
      ensures Sum(Planes, entries[..]) < old(Sum(Planes, entries[..]))
    {
      AfterBase(cfg, Abs(), i, reason);
      ReleaseBase(i, reason);
    }

    // ---- Choosing victims -------------------------------------------------

    /** base_floor_allows, against the planning or the live totals. */
    method BaseFloorAllows(i: nat, planning: bool) returns (ok: bool)
      requires Shape() && i < entries.Length
      requires Planning(planning)
      ensures ok == BaseEligible(cfg.floors, Unplanned(entries[..]), i)
      ensures ok == MayLeave(cfg, Unplanned(entries[..]), None, i)
    {
      EligibleExactly(cfg, Unplanned(entries[..]), i);
      var e := entries[i];
      if e.Vacant? || e.planned || e.pins != 0 {
        return false;
      }
      var y := layers[e.key.layer];
      var bytes := if planning then y.planBytes else y.baseBytes;
      var count := if planning then y.planEntries else y.baseEntries;
      assert !planning ==> Unplanned(entries[..]) == entries[..];
      if count == 0 || bytes < e.base.charge {
        return false;
      }
      ok := count - 1 >= y.floor.minEntries && bytes - e.base.charge >= y.floor.minBytes;
    }

    /** Which totals base_floor_allows may read. */
    ghost predicate Planning(planning: bool)
      reads entries, layers
      requires Shape()
    {
      && (forall i :: 0 <= i < entries.Length && entries[i].Resident? ==> entries[i].key.layer < |cfg.floors|)
      && (forall l :: 0 <= l < layers.Length ==> layers[l].floor == cfg.floors[l])
      && (planning ==> LayersPlanned(layers[..], Unplanned(entries[..])))
      && (!planning ==> NoneMarked(entries[..]) && LayersCounted(layers[..], cfg.floors, entries[..]))
    }

    method ChooseBase(protect: Option<nat>, planning: bool) returns (best: Option<nat>)
      requires Shape()
      requires Planning(planning)
      ensures best == BaseVictim(cfg, Unplanned(entries[..]), protect)
    {
      ghost var slots := Unplanned(entries[..]);
      ghost var candidates := BaseCandidates(cfg.floors, slots, protect);
      best := None;
      var i := 0;
      while i < entries.Length
        invariant 0 <= i <= entries.Length
        invariant best.None? ==> forall k: nat :: k < i ==> k !in candidates
        invariant best.Some? ==> best.value in candidates && best.value < i
        invariant best.Some? ==> forall k: nat :: k < i && k in candidates && k != best.value ==>
                                   Precedes(cfg.policy, slots[best.value], best.value, slots[k], k)
      {
        var ok := BaseFloorAllows(i, planning);
        if Some(i) != protect && ok {
          if best.None? || Precedes(cfg.policy, entries[i], i, entries[best.value], best.value) {
            best := Some(i);
          }
        }
        i := i + 1;
      }
      ScanIsVictim(cfg, slots, protect, best);
    }

    method ChooseResidual() returns (best: Option<nat>)
      ensures best == ResidualVictim(cfg, entries[..])
    {
      ghost var slots := entries[..];
      ghost var candidates := ResidualCandidates(slots);
      best := None;
      var i := 0;
      while i < entries.Length
        invariant 0 <= i <= entries.Length
        invariant best.None? ==> forall k: nat :: k < i ==> k !in candidates
        invariant best.Some? ==> best.value in candidates && best.value < i
        invariant best.Some? ==> forall k: nat :: k < i && k in candidates && k != best.value ==>
                                   Precedes(cfg.policy, slots[best.value], best.value, slots[k], k)
      {
        if entries[i].Resident? && entries[i].residual.Some? && entries[i].pins == 0 {
          if best.None? || Precedes(cfg.policy, entries[i], i, entries[best.value], best.value) {
            best := Some(i);
          }
        }
        i := i + 1;
      }
      if best.Some? {
        assert IsLeast(cfg.policy, slots, candidates, best.value);
        LeastUnique(cfg.policy, slots, candidates, best.value, ResidualVictim(cfg, slots).value);
      } else {
        assert candidates == {};
      }
    }

    /** eligible_residual_bytes; the saturating return is never taken because
        the total stays within the budget. */
    method EligibleResidualBytes() returns (bytes: nat)
      requires Sum(TotalCharge, entries[..]) <= U64_MAX
      ensures bytes == Sum(FreeableResidual, entries[..])
    {
      bytes := 0;
      var i := 0;
      while i < entries.Length
        invariant 0 <= i <= entries.Length
        invariant bytes == Sum(FreeableResidual, entries[..i])
      {
        SumPrefix(FreeableResidual, entries[..], i);
        assert entries[..][..i] == entries[..i] && entries[..][..i + 1] == entries[..i + 1];
        if entries[i].Resident? && entries[i].residual.Some? && entries[i].pins == 0 {
          FreeableFits(i);
          if U64_MAX - bytes < entries[i].residual.value.charge {
            return U64_MAX;
          }
          bytes := bytes + entries[i].residual.value.charge;
        }
        i := i + 1;
      }
      assert entries[..entries.Length] == entries[..];
    }

    lemma {:induction false} FreeableFits(i: nat)
      requires i < entries.Length
      ensures Sum(FreeableResidual, entries[..i + 1]) <= Sum(TotalCharge, entries[..])
    {
      SumBounded(FreeableResidual, TotalCharge, entries[..i + 1]);
      PrefixAtMost(TotalCharge, entries[..], i + 1);
      assert entries[..][..i + 1] == entries[..i + 1];
    }

    // ---- Admission --------------------------------------------------------

    method RequiredReclaim(incoming: nat) returns (needed: nat)
      requires Counted() && payloadBytes <= cfg.budget
      ensures needed == Deficit(cfg, Abs(), incoming)
    {
      var available := cfg.budget - payloadBytes;
      needed := if incoming > available then incoming - available else 0;
    }

    /** Start planning from the live totals, with nothing marked. */
    method ResetPlan()
      requires Counted() && NoneMarked(entries[..])
      modifies layers
      ensures LayersCounted(layers[..], cfg.floors, entries[..])
      ensures LayersPlanned(layers[..], Unplanned(entries[..]))
    {
      ghost var slots := entries[..];
      assert Unplanned(slots) == slots;
      var i := 0;
      while i < layers.Length
        invariant 0 <= i <= layers.Length
        invariant LayersCounted(layers[..], cfg.floors, slots)
        invariant forall l :: 0 <= l < i ==>
                    layers[l].planBytes == Sum(LayerBase(l), slots)
                      && layers[l].planEntries == Sum(LayerEntries(l), slots)
      {
        layers[i] := layers[i].(planBytes := layers[i].baseBytes, planEntries := layers[i].baseEntries);
        i := i + 1;
      }
    }

    /** Unmark every entry: the slots are as they were before planning. */
    method ClearMarks(ghost slots: seq<Entry>)
      requires Marks(slots, entries[..])
      modifies entries
      ensures entries[..] == slots
    {
      var i := 0;
      while i < entries.Length
        invariant 0 <= i <= entries.Length
        invariant Marks(slots, entries[..])
        invariant forall k :: 0 <= k < i ==> entries[k] == slots[k]
      {
        if entries[i].Resident? {
          entries[i] := entries[i].(planned := false);
        }
        i := i + 1;
      }
    }

    /** Mark the base in slot v as planned to go. */
    method MarkPlanned(v: nat, ghost slots: seq<Entry>, ghost left: seq<Entry>)
      requires Shape() && v < entries.Length && Marks(slots, entries[..]) && left == Unplanned(entries[..])
      requires entries[v].Resident? && !entries[v].planned && entries[v].key.layer < |cfg.floors|
      requires LayersCounted(layers[..], cfg.floors, slots) && LayersPlanned(layers[..], left)
      modifies entries, layers
      ensures Marks(slots, entries[..])
      ensures Unplanned(entries[..]) == left[v := Vacant]
      ensures LayersCounted(layers[..], cfg.floors, slots) && LayersPlanned(layers[..], left[v := Vacant])
    {
      var e := entries[v];
      var l := e.key.layer;
      ghost var lay := layers[..];
      PlannedUpdate(lay, left, v);
      entries[v] := e.(planned := true);
      layers[l] := PlannedLeaves(layers[l], e.base.charge);
      assert layers[..] == lay[l := layers[l]];
      assert Unplanned(entries[..]) == left[v := Vacant];
    }

    /** can_make_room: marks a greedy plan, then clears every mark. It answers
        whether the plan exists and leaves the resident state as it was. */
    method CanMakeRoom(incoming: nat, needSlot: bool, protect: Option<nat>, ghost choose: Chooser) returns (ok: bool)
      requires Counted() && Inv(cfg, Abs()) && Follows(choose, cfg, protect)
      modifies entries, layers
      ensures Counted() && Abs() == old(Abs())
      ensures ok == Plan(choose, cfg, Abs(), incoming, needSlot).Some?
    {
      if incoming > cfg.budget {
        return false;
      }
      ghost var s, slots := Abs(), entries[..];
      var needed := RequiredReclaim(incoming);
      var freed := EligibleResidualBytes();
      var requireBase := (needSlot && entryCount >= cfg.maxEntries) || freed < needed;
      if !requireBase {
        return true;
      }
      assert forall i :: 0 <= i < |slots| ==> EntryOk(cfg, clock, slots[i]);
      ResetPlan();
      ok := MarkPlan(freed, needed, needSlot, protect, choose, slots);
      ClearMarks(slots);
      assert NoneMarked(slots);
    }

    /** The planning loop. */
    method MarkPlan(residualBytes: nat, needed: nat, needSlot: bool, protect: Option<nat>, ghost choose: Chooser,
                    ghost slots: seq<Entry>)
      returns (ok: bool)
      requires Follows(choose, cfg, protect)
      requires Shape() && entries[..] == slots && NoneMarked(slots)
      requires forall i :: 0 <= i < |slots| && slots[i].Resident? ==> slots[i].key.layer < |cfg.floors|
      requires LayersCounted(layers[..], cfg.floors, slots) && LayersPlanned(layers[..], Unplanned(slots))
      requires residualBytes == Sum(FreeableResidual, slots) && Sum(TotalCharge, slots) <= cfg.budget
      modifies entries, layers
      ensures Marks(slots, entries[..]) && LayersCounted(layers[..], cfg.floors, slots)
      ensures ok == GreedyPlan(choose, slots, needed - residualBytes, needSlot).Some?
    {
      var freed, bases := residualBytes, 0;
      ghost var left, gap, slot := slots, needed - residualBytes, needSlot;
      ghost var goal := GreedyPlan(choose, left, gap, slot).Some?;
      assert Unplanned(slots) == slots;
      FreedStart(slots);
      while true
        invariant Marks(slots, entries[..]) && LayersCounted(layers[..], cfg.floors, slots)
        invariant left == Unplanned(entries[..]) && LayersPlanned(layers[..], left)
        invariant gap == needed - freed && slot == (needSlot && bases < 1)
        invariant goal == GreedyPlan(choose, left, gap, slot).Some?
        invariant freed + Sum(BaseCharge, left) <= Sum(TotalCharge, slots) <= U64_MAX
        decreases Sum(Entries, left)
      {
        if freed >= needed && (!needSlot || bases >= 1) {
          return true;
        }
        var v, charge := PlanOne(protect, choose, slots, left, gap, slot);
        if v.None? {
          return false;
        }
        left, gap, slot := left[v.value := Vacant], gap - charge, false;
        freed := freed + charge;
        bases := bases + 1;
      }
    }

    /** make_room, the mutating pass; `reached` is false on its no-candidate exit. */
    method ReclaimRoom(incoming: nat, needSlot: bool, protect: Option<nat>, ghost choose: Chooser)
      returns (reached: bool)
      requires Counted() && Hashed() && Inv(cfg, Abs()) && Follows(choose, cfg, protect)
      modifies this, entries, layers, buckets
      ensures Counted() && Hashed() && Inv(cfg, Abs())
      ensures Abs() == MakeRoom(choose, cfg, old(Abs()), incoming, needSlot)
      ensures reached <==> Enough(cfg, Abs(), incoming, needSlot)
    {
      ghost var goal := MakeRoom(choose, cfg, Abs(), incoming, needSlot);
      while true
        invariant Counted() && Hashed() && Inv(cfg, Abs())
        invariant goal == MakeRoom(choose, cfg, Abs(), incoming, needSlot)
        decreases Sum(Planes, entries[..])
      {
        var needed := RequiredReclaim(incoming);
        var slotNeeded := needSlot && entryCount >= cfg.maxEntries;
        if needed == 0 && !slotNeeded {
          return true;
        }
        var more := ReclaimOne(incoming, needSlot, protect, choose);
        if !more {
          return false;
        }
      }
    }

    /** Release the next victim; `more` is false when there is none. */
    method ReclaimOne(incoming: nat, needSlot: bool, protect: Option<nat>, ghost choose: Chooser) returns (more: bool)
      requires Counted() && Hashed() && Inv(cfg, Abs()) && Follows(choose, cfg, protect)
      requires !Enough(cfg, Abs(), incoming, needSlot)
      modifies this, entries, layers, buckets
      ensures Counted() && Hashed() && Inv(cfg, Abs())
      ensures MakeRoom(choose, cfg, Abs(), incoming, needSlot) == MakeRoom(choose, cfg, old(Abs()), incoming, needSlot)
      ensures more ==> Sum(Planes, entries[..]) < old(Sum(Planes, entries[..]))
      ensures !more ==> MakeRoom(choose, cfg, Abs(), incoming, needSlot) == Abs() == old(Abs())
    {
      ghost var s := Abs();
      assert Asked(s.slots);
      var r := ChooseResidual();
      if r.Some? {
        RoomDemotes(choose, cfg, s, incoming, needSlot, r.value);
        DemoteResidual(r.value, Demotion);
        return true;
      }
      assert Unplanned(entries[..]) == entries[..];
      var b := ChooseBase(protect, false);
      // can_make_room proved this cannot happen (CachePlan.PlanAgrees).
      if b.None? {
        return false;
      }
      RoomEvicts(choose, cfg, s, incoming, needSlot, b.value);
      EvictBase(b.value, Eviction);
      return true;
    }

    /** One round of planning: choose the next base and mark it. */
    method PlanOne(protect: Option<nat>, ghost choose: Chooser, ghost slots: seq<Entry>, ghost left: seq<Entry>,
                   ghost gap: int, ghost slot: bool)
      returns (victim: Option<nat>, charge: nat)
      requires Shape() && Marks(slots, entries[..]) && left == Unplanned(entries[..]) && (gap > 0 || slot)
      requires Follows(choose, cfg, protect)
      requires forall i :: 0 <= i < |slots| && slots[i].Resident? ==> slots[i].key.layer < |cfg.floors|
      requires LayersCounted(layers[..], cfg.floors, slots) && LayersPlanned(layers[..], left)
      modifies entries, layers
      ensures Marks(slots, entries[..]) && LayersCounted(layers[..], cfg.floors, slots)
      ensures victim.None? ==> GreedyPlan(choose, left, gap, slot).None?
      ensures victim.Some? ==>
                && PlansNext(choose, left, gap, slot, victim.value)
                && Unplanned(entries[..]) == left[victim.value := Vacant]
                && LayersPlanned(layers[..], left[victim.value := Vacant])
                && charge == left[victim.value].base.charge
    {
      charge := 0;
      victim := PickVictim(protect, choose, left, gap, slot);
      if victim.Some? {
        charge := entries[victim.value].base.charge;
        MarkPlanned(victim.value, slots, left);
      }
    }

    /** The next base of the plan, and what taking it leaves to plan. */
    method PickVictim(protect: Option<nat>, ghost choose: Chooser, ghost left: seq<Entry>, ghost gap: int,
                      ghost slot: bool)
      returns (victim: Option<nat>)
      requires Shape() && Planning(true) && left == Unplanned(entries[..]) && (gap > 0 || slot)
      requires Follows(choose, cfg, protect)
      ensures victim.None? ==> GreedyPlan(choose, left, gap, slot).None?
      ensures victim.Some? ==> PlansNext(choose, left, gap, slot, victim.value)
    {
      victim := ChooseBase(protect, true);
      if victim.None? {
        PlanStuck(choose, cfg, protect, left, gap, slot);
      } else {
        PlanAdvances(choose, cfg, protect, left, gap, slot, victim.value);
      }
    }

    // ---- Clock and slots --------------------------------------------------

    /** next_clock. */
    method NextClock() returns (stamp: nat)
      requires Counted() && Hashed() && Inv(cfg, Abs())
      modifies entries, `clock
      ensures Counted() && Hashed()
      ensures Abs() == Tick(old(Abs())) && stamp == clock
    {
      ghost var s := Abs();
      TickFresh(cfg, s);
      CountsIgnoreStamps(hash, buckets[..], layers[..], cfg.floors, s.slots, Tick(s).slots,
                         payloadBytes, baseBytes, residualBytes, entryCount);
      if clock == U64_MAX {
        RenormaliseEntries();
        clock := Halve(clock);
      }
      clock := clock + 1;
      assert Abs() == Tick(s);
      return clock;
    }

    method RenormaliseEntries()
      modifies entries
      ensures entries[..] == RenormaliseAll(old(entries[..]))
    {
      ghost var slots := entries[..];
      var i := 0;
      while i < entries.Length
        invariant 0 <= i <= entries.Length
        invariant forall k :: 0 <= k < i ==> entries[k] == Renormalise(slots[k])
        invariant forall k :: i <= k < entries.Length ==> entries[k] == slots[k]
      {
        if entries[i].Resident? {
          entries[i] := entries[i].(lastAccess := Halve(entries[i].lastAccess),
                                    admissionOrder := Halve(entries[i].admissionOrder));
        }
        i := i + 1;
      }
    }

    /** Overwrite an entry without changing its key or planes. */
    method Restamp(i: nat, e: Entry)
      requires Counted() && Hashed() && i < entries.Length && SamePlanes(entries[i], e)
      modifies entries
      ensures Counted() && Hashed() && entries[..] == old(entries[..])[i := e]
    {
      ghost var slots := entries[..];
      CountsIgnoreStamps(hash, buckets[..], layers[..], cfg.floors, slots, slots[i := e],
                         payloadBytes, baseBytes, residualBytes, entryCount);
      entries[i] := e;
      assert entries[..] == slots[i := e];
    }

    method Locate(key: Key) returns (r: Option<nat>)
      requires Hashed() && DistinctKeys(entries[..])
      ensures r == Find(entries[..], key)
    {
      var found, bucket, slot := HashFind(key);
      LookupRefinesMap(hash, buckets[..], entries[..], entries.Length, key);
      if found {
        FindIs(entries[..], key, slot);
        return Some(slot);
      }
      return None;
    }

    method PayloadInUse(h: Handle) returns (used: bool)
      ensures used == InUse(entries[..], h)
    {
      var i := 0;
      while i < entries.Length
        invariant 0 <= i <= entries.Length
        invariant forall k :: 0 <= k < i ==> !Holds(entries[k], h)
      {
        if Holds(entries[i], h) {
          return true;
        }
        i := i + 1;
      }
      return false;
    }

    method FindFree() returns (r: Option<nat>)
      ensures r == FreeSlot(entries[..])
    {
      var i := 0;
      while i < entries.Length
        invariant 0 <= i <= entries.Length
        invariant forall k :: 0 <= k < i ==> entries[k].Resident?
      {
        if entries[i].Vacant? {
          return Some(i);
        }
        i := i + 1;
      }
      return None;
    }

    // ---- Public operations ------------------------------------------------

    method Get(key: Key, requirement: Requirement) returns (reply: Reply)
      requires Valid()
      modifies this, entries
      ensures Valid() && (Abs(), reply) == Step(cfg, old(Abs()), Op.Get(key, requirement))
    {
      StepGood(cfg, Abs(), Op.Get(key, requirement));
      if !alive {
        return Fail(ErrArgument);
      }
      reply := GetLive(key, requirement);
    }

    method GetLive(key: Key, requirement: Requirement) returns (reply: Reply)
      requires Counted() && Hashed() && Inv(cfg, Abs())
      modifies this, entries
      ensures Counted() && Hashed() && (Abs(), reply) == DoGet(cfg, old(Abs()), key, requirement)
    {
      if key.layer >= |cfg.floors| {
        return Fail(ErrArgument);
      }
      var r := Locate(key);
      if r.None? {
        return Reply(Ok, BaseMiss, None, 0);
      }
      var e := TouchSlot(r.value, requirement);
      return Reply(Ok, if requirement == RequireFull && e.residual.None? then ResidualMiss else Hit, Some(e), 0);
    }

    /** A hit: stamp the entry with a fresh clock value and clear its prefetch marks. */
    method TouchSlot(i: nat, requirement: Requirement) returns (e: Entry)
      requires Counted() && Hashed() && Inv(cfg, Abs()) && i < entries.Length && entries[i].Resident?
      modifies this, entries
      ensures Counted() && Hashed()
      ensures var s := old(Abs()); var t := Tick(s);
              && e == Touch(cfg, t.slots[i], t.clock, requirement)
              && Abs() == t.(slots := t.slots[i := e], touched := s.touched + [s.slots[i].key])
    {
      ghost var s := Abs();
      var stamp := NextClock();
      ghost var t := Abs();
      assert SamePlanes(s.slots[i], t.slots[i]);
      e := Touch(cfg, entries[i], stamp, requirement);
      touched := touched + [e.key];
      Restamp(i, e);
      assert Abs() == t.(slots := t.slots[i := e], touched := s.touched + [s.slots[i].key]);
    }

    /** Inspection changes nothing, not even recency. */
    method Peek(key: Key) returns (reply: Reply)
      requires Valid()
      ensures reply == if !alive || key.layer >= |cfg.floors| then Fail(ErrArgument)
                       else if Find(entries[..], key).None? then Fail(ErrNotFound)
                       else Done(Some(entries[Find(entries[..], key).value]))
    {
      if !alive || key.layer >= |cfg.floors| {
        return Fail(ErrArgument);
      }
      var r := Locate(key);
      return if r.None? then Fail(ErrNotFound) else Done(Some(entries[r.value]));
    }

    method PinEntry(key: Key) returns (reply: Reply)
      requires Valid()
      modifies this, entries
      ensures Valid() && (Abs(), reply) == Step(cfg, old(Abs()), Pin(key))
    {
      StepGood(cfg, Abs(), Pin(key));
      if !alive {
        return Fail(ErrArgument);
      }
      reply := PinLive(key);
    }

    method PinLive(key: Key) returns (reply: Reply)
      requires Counted() && Hashed() && DistinctKeys(entries[..])
      modifies entries
      ensures Counted() && Hashed() && (Abs(), reply) == DoPin(cfg, old(Abs()), key)
    {
      if key.layer >= |cfg.floors| {
        return Fail(ErrArgument);
      }
      var r := Locate(key);
      if r.None? {
        return Fail(ErrNotFound);
      }
      var e := entries[r.value];
      if e.pins == U32_MAX {
        return Fail(ErrOverflow);
      }
      Restamp(r.value, e.(pins := e.pins + 1));
      return Done(Some(e.(pins := e.pins + 1)));
    }

    method UnpinEntry(key: Key) returns (reply: Reply)
      requires Valid()
      modifies this, entries
      ensures Valid() && (Abs(), reply) == Step(cfg, old(Abs()), Unpin(key))
    {
      StepGood(cfg, Abs(), Unpin(key));
      if !alive {
        return Fail(ErrArgument);
      }
      reply := UnpinLive(key);
    }

    method UnpinLive(key: Key) returns (reply: Reply)
      requires Counted() && Hashed() && DistinctKeys(entries[..])
      modifies entries
      ensures Counted() && Hashed() && (Abs(), reply) == DoUnpin(cfg, old(Abs()), key)
    {
      if key.layer >= |cfg.floors| {
        return Fail(ErrArgument);
      }
      var r := Locate(key);
      if r.None? {
        return Fail(ErrNotFound);
      }
      var e := entries[r.value];
      if e.pins == 0 {
        return Fail(ErrPolicy);
      }
      Restamp(r.value, e.(pins := e.pins - 1));
      return Done(Some(e.(pins := e.pins - 1)));
    }

    method RemoveEntry(key: Key) returns (reply: Reply)
      requires Valid()
      modifies this, entries, layers, buckets
      ensures Valid() && (Abs(), reply) == Step(cfg, old(Abs()), Remove(key))
    {
      StepGood(cfg, Abs(), Remove(key));
      if !alive || key.layer >= |cfg.floors| {
        return Fail(ErrArgument);
      }
      var r := Locate(key);
      if r.None? {
        return Fail(ErrNotFound);
      }
      if entries[r.value].pins != 0 {
        return Fail(ErrPolicy);
      }
      EvictBase(r.value, Explicit);
      return Done(None);
    }

    // ---- Admitting planes -------------------------------------------------

    /** Count a base that is about to take the vacant slot i. */
    method CreditBase(i: nat, e: Entry)
      requires Counted() && i < entries.Length && entries[i].Vacant?
      requires e.Resident? && e.residual.None? && e.key.layer < |cfg.floors|
      modifies layers, `payloadBytes, `baseBytes, `entryCount
      ensures LayersCounted(layers[..], cfg.floors, entries[..][i := e])
      ensures Totals(entries[..][i := e], payloadBytes, baseBytes, residualBytes, entryCount)
    {
      var l := e.key.layer;
      ghost var lay := layers[..];
      CountBaseJoining(lay, cfg.floors, entries[..], i, e, payloadBytes, baseBytes, residualBytes, entryCount);
      entryCount := entryCount + 1;
      layers[l] := BaseJoins(layers[l], e.base.charge);
      assert layers[..] == lay[l := layers[l]];
      payloadBytes := payloadBytes + e.base.charge;
      baseBytes := baseBytes + e.base.charge;
    }

    /** Write the entry and point a reusable bucket at it. */
    method IndexEntry(i: nat, bucket: nat, e: Entry)
      requires Hashed() && i < entries.Length && entries[i].Vacant? && e.Resident?
      requires bucket < buckets.Length && !buckets[bucket].Slot?
      requires Reach(buckets[..], Home(hash, e.key, buckets.Length), bucket)
      modifies entries, buckets, `tombstones
      ensures Hashed() && entries[..] == old(entries[..])[i := e]
    {
      ghost var slots, index := entries[..], buckets[..];
      IndexInsert(hash, index, slots, |slots|, bucket, i, slots[i := e], |slots|);
      TallyUpdate(Tombstones, index, bucket, Slot(i));
      TallyUpdate(Slots, index, bucket, Slot(i));
      SumUpdate(Entries, slots, i, e);
      entries[i] := e;
      if buckets[bucket].Tombstone? {
        tombstones := tombstones - 1;
      }
      buckets[bucket] := Slot(i);
      assert entries[..] == slots[i := e] && buckets[..] == index[bucket := Slot(i)];
    }

    method Enter(i: nat, bucket: nat, e: Entry)
      requires Counted() && Hashed() && i < entries.Length && entries[i].Vacant?
      requires e.Resident? && e.residual.None? && e.key.layer < |cfg.floors|
      requires bucket < buckets.Length && !buckets[bucket].Slot?
      requires Reach(buckets[..], Home(hash, e.key, buckets.Length), bucket)
      modifies entries, layers, buckets, `payloadBytes, `baseBytes, `entryCount, `tombstones, `peakBytes
      ensures Counted() && Hashed() && entries[..] == old(entries[..])[i := e]
      ensures peakBytes == Max(old(peakBytes), Sum(TotalCharge, entries[..]))
    {
      CreditBase(i, e);
      IndexEntry(i, bucket, e);
      if payloadBytes > peakBytes {
        peakBytes := payloadBytes;
      }
    }

    /** The admission itself, once room, slot and bucket are known. */
    method Place(i: nat, bucket: nat, key: Key, p: Plane)
      requires Counted() && Hashed() && Inv(cfg, Abs()) && i < entries.Length && entries[i].Vacant?
      requires key.layer < |cfg.floors|
      requires bucket < buckets.Length && !buckets[bucket].Slot?
      requires Reach(buckets[..], Home(hash, key, buckets.Length), bucket)
      modifies this, entries, layers, buckets
      ensures Counted() && Hashed() && Abs() == Admit(old(Abs()), i, key, p)
    {
      ghost var s := Abs();
      TickFresh(cfg, s);
      var order := NextClock();
      assert SamePlanes(s.slots[i], entries[i]);
      PlaceStamped(i, bucket, key, p, order);
    }

    method PlaceStamped(i: nat, bucket: nat, key: Key, p: Plane, order: nat)
      requires Counted() && Hashed() && i < entries.Length && entries[i].Vacant? && key.layer < |cfg.floors|
      requires bucket < buckets.Length && !buckets[bucket].Slot?
      requires Reach(buckets[..], Home(hash, key, buckets.Length), bucket)
      modifies this, entries, layers, buckets
      ensures Counted() && Hashed()
      ensures var t, slots := old(Abs()), old(entries[..])[i := NewEntry(key, p, order)];
              Abs() == t.(slots := slots, peak := Max(t.peak, Sum(TotalCharge, slots)),
                          admitted := t.admitted + [p.payload], touched := t.touched + [key],
                            arrived := t.arrived + [key])
    {
      Enter(i, bucket, NewEntry(key, p, order));
      admitted, touched, arrived := admitted + [p.payload], touched + [key], arrived + [key];
    }

    method Insert(key: Key, payload: Handle, logical: nat, read: nat, prefetch: bool) returns (reply: Reply)
      requires Valid()
      modifies this, entries, layers, buckets
      ensures Valid() && (Abs(), reply) == Step(cfg, old(Abs()), InsertBase(key, payload, logical, read, prefetch))
    {
      StepGood(cfg, Abs(), InsertBase(key, payload, logical, read, prefetch));
      if !alive {
        return Fail(ErrArgument);
      }
      reply := InsertLive(key, payload, logical, read, prefetch);
    }

    method InsertLive(key: Key, payload: Handle, logical: nat, read: nat, prefetch: bool) returns (reply: Reply)
      requires Valid()
      modifies this, entries, layers, buckets
      ensures Counted() && Hashed()
      ensures (Abs(), reply) == DoInsert(cfg, old(Abs()), key, payload, logical, read, prefetch)
    {
      if payload == 0 || key.layer >= |cfg.floors| {
        return Fail(ErrArgument);
      }
      var (status, charge) := PayloadCharge(cfg, logical);
      if status != Ok {
        return Fail(status);
      }
      var present := Locate(key);
      if present.Some? {
        return Fail(ErrExists);
      }
      var used := PayloadInUse(payload);
      if used {
        return Fail(ErrExists);
      }
      reply := AdmitBase(key, Plane(payload, logical, charge, read, prefetch));
    }

    /** Plan, make room, then take a free slot and bucket. The corrupt-metadata
        exit is never taken. */
    method AdmitBase(key: Key, p: Plane) returns (reply: Reply)
      requires Valid() && key.layer < |cfg.floors|
      requires Find(entries[..], key).None? && !InUse(entries[..], p.payload)
      modifies this, entries, layers, buckets
      ensures Counted() && Hashed() && reply.status != ErrCorrupt
      ensures var s, choose := old(Abs()), PolicyChooser(cfg, None);
              if Plan(choose, cfg, s, p.charge, true).None? then Abs() == s && reply == Fail(ErrNoSpace)
              else
                var t := MakeRoom(choose, cfg, s, p.charge, true);
                && FreeSlot(t.slots).Some?
                && Abs() == Admit(t, FreeSlot(t.slots).value, key, p)
                && reply == Done(Some(Abs().slots[FreeSlot(t.slots).value]))
    {
      ghost var s, choose := Abs(), PolicyChooser(cfg, None);
      PolicyFollows(cfg, None);
      var room := CanMakeRoom(p.charge, true, None, choose);
      if !room {
        return Fail(ErrNoSpace);
      }
      ReadyToPlace(cfg, s, p.charge, key);
      PlanReaches(cfg, s, p.charge, true, None);
      var reached := ReclaimRoom(p.charge, true, None, choose);
      assert reached;
      var slot := FindFree();
      var found, bucket, _ := HashFind(key);
      LookupRefinesMap(hash, buckets[..], entries[..], entries.Length, key);
      assert entries[..entries.Length] == entries[..];
      RoomForOne(entries.Length);
      if slot.None? || found || bucket.None? {
        assert false;
        return Fail(ErrCorrupt);
      }
      Place(slot.value, bucket.value, key, p);
      return Done(Some(entries[slot.value]));
    }

    method CreditResidual(i: nat, p: Plane)
      requires Counted() && i < entries.Length
      requires entries[i].Resident? && entries[i].residual.None? && entries[i].key.layer < |cfg.floors|
      modifies layers, `payloadBytes, `residualBytes
      ensures LayersCounted(layers[..], cfg.floors, entries[..][i := entries[i].(residual := Some(p))])
      ensures Totals(entries[..][i := entries[i].(residual := Some(p))], payloadBytes, baseBytes, residualBytes,
        entryCount)
    {
      var l := entries[i].key.layer;
      ghost var lay := layers[..];
      CountResidualJoining(lay, cfg.floors, entries[..], i, p, payloadBytes, baseBytes, residualBytes, entryCount);
      layers[l] := ResidualJoins(layers[l], p.charge);
      assert layers[..] == lay[l := layers[l]];
      payloadBytes := payloadBytes + p.charge;
      residualBytes := residualBytes + p.charge;
    }

    /** Give slot i its residual plane. */
    method AttachResidual(i: nat, p: Plane)
      requires Counted() && Hashed() && i < entries.Length
      requires entries[i].Resident? && entries[i].residual.None? && entries[i].key.layer < |cfg.floors|
      modifies this, entries, layers
      ensures Counted() && Hashed() && Abs() == Attach(old(Abs()), i, p)
    {
      JoinResidual(i, p);
      if payloadBytes > peakBytes {
        peakBytes := payloadBytes;
      }
      admitted := admitted + [p.payload];
    }

    method JoinResidual(i: nat, p: Plane)
      requires Counted() && Hashed() && i < entries.Length
      requires entries[i].Resident? && entries[i].residual.None? && entries[i].key.layer < |cfg.floors|
      modifies entries, layers, `payloadBytes, `residualBytes
      ensures Counted() && Hashed()
      ensures entries[..] == old(entries[..])[i := old(entries[i]).(residual := Some(p))]
    {
      ghost var slots := entries[..];
      var e := entries[i].(residual := Some(p));
      IndexAfterJoin(hash, buckets[..], slots, i, p);
      CreditResidual(i, p);
      entries[i] := e;
      assert entries[..] == slots[i := e];
    }

    method PromoteEntry(key: Key, payload: Handle, logical: nat, read: nat, prefetch: bool) returns (reply: Reply)
      requires Valid()
      modifies this, entries, layers, buckets
      ensures Valid() && (Abs(), reply) == Step(cfg, old(Abs()), Promote(key, payload, logical, read, prefetch))
    {
      if !alive {
        return Fail(ErrArgument);
      }
      StepPromote(cfg, Abs(), key, payload, logical, read, prefetch);
      reply := PromoteLive(key, payload, logical, read, prefetch);
    }

    method PromoteLive(key: Key, payload: Handle, logical: nat, read: nat, prefetch: bool) returns (reply: Reply)
      requires Valid()
      modifies this, entries, layers, buckets
      ensures Counted() && Hashed()
      ensures (Abs(), reply) == DoPromote(cfg, old(Abs()), key, payload, logical, read, prefetch)
    {
      if payload == 0 || key.layer >= |cfg.floors| {
        return Fail(ErrArgument);
      }
      var found := Locate(key);
      if found.None? {
        return Fail(ErrNotFound);
      }
      if entries[found.value].residual.Some? {
        return Fail(ErrExists);
      }
      var used := PayloadInUse(payload);
      if used {
        return Fail(ErrExists);
      }
      var (status, charge) := PayloadCharge(cfg, logical);
      if status != Ok {
        return Fail(status);
      }
      reply := AdmitResidual(found.value, Plane(payload, logical, charge, read, prefetch));
    }

    method AdmitResidual(i: nat, p: Plane) returns (reply: Reply)
      requires Valid() && i < entries.Length && entries[i].Resident? && entries[i].residual.None?
      modifies this, entries, layers, buckets
      ensures Counted() && Hashed()
      ensures var s, choose := old(Abs()), PolicyChooser(cfg, Some(i));
              if Plan(choose, cfg, s, p.charge, false).None? then Abs() == s && reply == Fail(ErrNoSpace)
              else
                var t := MakeRoom(choose, cfg, s, p.charge, false);
                && t.slots[i] == s.slots[i]
                && Abs() == Attach(t, i, p)
                && reply == Done(Some(Abs().slots[i]))
    {
      ghost var s, choose := Abs(), PolicyChooser(cfg, Some(i));
      assert EntryOk(cfg, s.clock, s.slots[i]);
      PolicyFollows(cfg, Some(i));
      var room := CanMakeRoom(p.charge, false, Some(i), choose);
      if !room {
        return Fail(ErrNoSpace);
      }
      ProtectedUnchanged(cfg, s, p.charge, i);
      PlanReaches(cfg, s, p.charge, false, Some(i));
      var reached := ReclaimRoom(p.charge, false, Some(i), choose);
      assert reached;
      AttachResidual(i, p);
      return Done(Some(entries[i]));
    }

    // ---- Memory pressure and shutdown -------------------------------------

    method ShedResiduals(target: nat, reason: Reason)
      requires Counted() && Hashed() && Inv(cfg, Abs())
      modifies this, entries, layers
      ensures Counted() && Hashed() && Inv(cfg, Abs())
      ensures Abs() == DrainResiduals(cfg, old(Abs()), target, reason)
    {
      ghost var goal := DrainResiduals(cfg, Abs(), target, reason);
      while payloadBytes > target
        invariant Counted() && Hashed() && Inv(cfg, Abs())
        invariant goal == DrainResiduals(cfg, Abs(), target, reason)
        decreases Sum(Planes, entries[..])
      {
        var slot := ChooseResidual();
        if slot.None? {
          break;
        }
        DrainResidualStep(cfg, Abs(), target, reason, slot.value);
        DemoteResidual(slot.value, reason);
      }
    }

    method ShedBases(target: nat, reason: Reason)
      requires Counted() && Hashed() && Inv(cfg, Abs())
      modifies this, entries, layers, buckets
      ensures Counted() && Hashed() && Inv(cfg, Abs())
      ensures Abs() == DrainBases(cfg, old(Abs()), target, reason)
    {
      ghost var goal := DrainBases(cfg, Abs(), target, reason);
      while payloadBytes > target
        invariant Counted() && Hashed() && Inv(cfg, Abs())
        invariant goal == DrainBases(cfg, Abs(), target, reason)
        decreases Sum(Planes, entries[..])
      {
        MarksClear(cfg, Abs());
        var slot := ChooseBase(None, false);
        if slot.None? {
          break;
        }
        DrainBaseStep(cfg, Abs(), target, reason, slot.value);
        EvictBase(slot.value, reason);
      }
    }

    method ApplyPressure(level: Pressure, target: nat) returns (reply: Reply)
      requires Valid()
      modifies this, entries, layers, buckets
      ensures Valid() && (Abs(), reply) == Step(cfg, old(Abs()), Op.ApplyPressure(level, target))
    {
      StepGood(cfg, Abs(), Op.ApplyPressure(level, target));
      if !alive {
        return Fail(ErrArgument);
      }
      if target > cfg.budget {
        return Fail(ErrSize);
      }
      reply := PressLive(level, target);
    }

    method PressLive(level: Pressure, target: nat) returns (reply: Reply)
      requires Counted() && Hashed() && Inv(cfg, Abs()) && target <= cfg.budget
      modifies this, entries, layers, buckets
      ensures Counted() && Hashed() && (Abs(), reply) == DoPressure(cfg, old(Abs()), level, target)
    {
      var before := payloadBytes;
      if level == Normal {
        return Reply(Ok, NoLookup, None, 0);
      }
      ghost var s := Abs();
      Shed(level, target);
      PressureShrinks(cfg, s, level, target);
      return Reply(if payloadBytes <= target then Ok else Partial, NoLookup, None, before - payloadBytes);
    }

    method Shed(level: Pressure, target: nat)
      requires Counted() && Hashed() && Inv(cfg, Abs()) && level != Normal
      modifies this, entries, layers, buckets
      ensures Counted() && Hashed() && Abs() == Pressed(cfg, old(Abs()), level, target)
    {
      ShedResiduals(target, if level == Warn then PressureWarn else PressureCritical);
      if level == Critical {
        ShedBases(target, PressureCritical);
      }
    }

    method DestroyCache() returns (reply: Reply)
      requires Valid()
      modifies this, entries, layers, buckets
      ensures Valid() && (Abs(), reply) == Step(cfg, old(Abs()), Destroy)
    {
      StepGood(cfg, Abs(), Destroy);
      if !alive {
        return Fail(ErrArgument);
      }
      var pinned := AnyPinned();
      if pinned {
        return Fail(ErrPolicy);
      }
      ReleaseEverything();
      alive := false;
      return Done(None);
    }

    method AnyPinned() returns (pinned: bool)
      ensures pinned == exists k :: 0 <= k < |Abs().slots| && Abs().slots[k].Resident? && Abs().slots[k].pins != 0
    {
      var i := 0;
      while i < entries.Length
        invariant 0 <= i <= entries.Length
        invariant forall k :: 0 <= k < i && entries[k].Resident? ==> entries[k].pins == 0
      {
        if entries[i].Resident? && entries[i].pins != 0 {
          assert Abs().slots[i].pins != 0;
          return true;
        }
        i := i + 1;
      }
      return false;
    }

    method ReleaseEverything()
      requires Counted() && Hashed() && Inv(cfg, Abs())
      requires forall k :: 0 <= k < entries.Length && entries[k].Resident? ==> entries[k].pins == 0
      modifies this, entries, layers, buckets
      ensures Counted() && Hashed() && Abs() == ReleaseFrom(old(Abs()), 0)
    {
      ghost var goal := ReleaseFrom(Abs(), 0);
      var i := 0;
      while i < entries.Length
        invariant 0 <= i <= entries.Length
        invariant Counted() && Hashed() && Inv(cfg, Abs())
        invariant forall k :: 0 <= k < entries.Length && entries[k].Resident? ==> entries[k].pins == 0
        invariant goal == ReleaseFrom(Abs(), i)
      {
        if entries[i].Resident? {
          EvictBase(i, DestroyAll);
        }
        i := i + 1;
      }
    }
  }

  lemma DrainResidualStep(cfg: Config, s: State, target: nat, reason: Reason, i: nat)
    requires Payload(s) > target && ResidualVictim(cfg, s.slots) == Some(i)
    ensures DrainResiduals(cfg, s, target, reason) == DrainResiduals(cfg, DropResidual(s, i, reason), target, reason)
  {
  }

  lemma DrainBaseStep(cfg: Config, s: State, target: nat, reason: Reason, i: nat)
    requires Payload(s) > target && BaseVictim(cfg, s.slots, None) == Some(i)
    ensures DrainBases(cfg, s, target, reason) == DrainBases(cfg, DropBase(s, i, reason), target, reason)
  {
  }

  lemma {:induction false} MarksClear(cfg: Config, s: State)
    requires Inv(cfg, s)
    ensures NoneMarked(s.slots) && Unplanned(s.slots) == s.slots
    ensures forall i :: 0 <= i < |s.slots| && s.slots[i].Resident? ==> s.slots[i].key.layer < |cfg.floors|
  {
    assert forall i :: 0 <= i < |s.slots| ==> EntryOk(cfg, s.clock, s.slots[i]);
  }

  lemma {:induction false} PressureShrinks(cfg: Config, s: State, level: Pressure, target: nat)
    ensures Payload(Pressed(cfg, s, level, target)) <= Payload(s)
  {
    ReclaimsPressure(cfg, s, level, target);
    LogGrows(s.log, Pressed(cfg, s, level, target).log);
  }

  /** What the scan over all slots has found is the victim. */
  lemma {:induction false} ScanIsVictim(cfg: Config, slots: seq<Entry>, protect: Option<nat>, best: Option<nat>)
    requires var c := BaseCandidates(cfg.floors, slots, protect);
             if best.None? then forall k: nat :: k < |slots| ==> k !in c
             else best.value in c && forall k: nat :: k < |slots| && k in c && k != best.value ==>
                    Precedes(cfg.policy, slots[best.value], best.value, slots[k], k)
    ensures best == BaseVictim(cfg, slots, protect)
  {
    var c := BaseCandidates(cfg.floors, slots, protect);
    if best.Some? {
      assert IsLeast(cfg.policy, slots, c, best.value);
      LeastUnique(cfg.policy, slots, c, best.value, BaseVictim(cfg, slots, protect).value);
    } else {
      assert c == {};
    }
  }

  lemma {:induction false} StepPromote(cfg: Config, s: State, key: Key, payload: Handle, logical: nat, read: nat,
                                       prefetch: bool)
    requires Good(cfg, s) && s.alive
    ensures var r := DoPromote(cfg, s, key, payload, logical, read, prefetch);
            Step(cfg, s, Promote(key, payload, logical, read, prefetch)) == r && Good(cfg, r.0)
  {
    StepGood(cfg, s, Promote(key, payload, logical, read, prefetch));
  }

  /** After a plan make_room reaches its goal: its no-candidate exit is dead. */
  lemma {:induction false} PlanReaches(cfg: Config, s: State, incoming: nat, needSlot: bool, protect: Option<nat>)
    requires Inv(cfg, s) && Plan(PolicyChooser(cfg, protect), cfg, s, incoming, needSlot).Some?
    ensures Enough(cfg, MakeRoom(PolicyChooser(cfg, protect), cfg, s, incoming, needSlot), incoming, needSlot)
  {
    PolicySensible(cfg, protect);
    var demoted := PlanAgrees(PolicyChooser(cfg, protect), cfg, s, incoming, needSlot);
  }

  /** After room has been made for a new key there is a slot and no such key. */
  lemma {:induction false} ReadyToPlace(cfg: Config, s: State, charge: nat, key: Key)
    requires Good(cfg, s) && Find(s.slots, key).None?
    requires Plan(PolicyChooser(cfg, None), cfg, s, charge, true).Some?
    ensures var t := MakeRoom(PolicyChooser(cfg, None), cfg, s, charge, true);
            && FreeSlot(t.slots).Some?
            && forall i :: 0 <= i < |t.slots| ==> !HasKey(t.slots[i], key)
  {
    RoomMade(cfg, s, charge, true, None);
    ReclaimKeepsAbsence(s, MakeRoom(PolicyChooser(cfg, None), cfg, s, charge, true), key, 0);
  }

  lemma PolicyFollows(cfg: Config, protect: Option<nat>)
    ensures Follows(PolicyChooser(cfg, protect), cfg, protect)
  {
  }

  /** Dropping a residual does not disturb the index. */
  lemma {:induction false} IndexAfterResidual(hash: Key -> nat, buckets: seq<Bucket>, slots: seq<Entry>, i: nat)
    requires Indexed(hash, buckets, slots, |slots|) && i < |slots| && slots[i].Resident?
    ensures Indexed(hash, buckets, slots[i := slots[i].(residual := None)], |slots|)
    ensures Sum(Entries, slots[i := slots[i].(residual := None)]) == Sum(Entries, slots)
  {
    var after := slots[i := slots[i].(residual := None)];
    IndexSameKeys(hash, buckets, slots, after, |slots|);
    SumUpdate(Entries, slots, i, after[i]);
  }

  lemma {:induction false} IndexAfterJoin(hash: Key -> nat, buckets: seq<Bucket>, slots: seq<Entry>, i: nat, p: Plane)
    requires Indexed(hash, buckets, slots, |slots|) && i < |slots| && slots[i].Resident?
    ensures Indexed(hash, buckets, slots[i := slots[i].(residual := Some(p))], |slots|)
    ensures Sum(Entries, slots[i := slots[i].(residual := Some(p))]) == Sum(Entries, slots)
  {
    var after := slots[i := slots[i].(residual := Some(p))];
    IndexSameKeys(hash, buckets, slots, after, |slots|);
    SumUpdate(Entries, slots, i, after[i]);
  }

  lemma {:induction false} AfterResidual(cfg: Config, s: State, i: nat, reason: Reason)
    requires Inv(cfg, s) && i < |s.slots| && ResidualEligible(s.slots[i])
    ensures s.slots[i].key.layer < |cfg.floors|
    ensures Inv(cfg, DropResidual(s, i, reason))
    ensures Sum(Planes, DropResidual(s, i, reason).slots) < Sum(Planes, s.slots)
  {
    assert EntryOk(cfg, s.clock, s.slots[i]);
    ReclaimsResidual(s, i, reason);
    InvReclaims(cfg, s, DropResidual(s, i, reason));
    DropLowersPlanes(s, i, reason);
  }

  lemma {:induction false} AfterBase(cfg: Config, s: State, i: nat, reason: Reason)
    requires Inv(cfg, s) && i < |s.slots| && s.slots[i].Resident? && s.slots[i].pins == 0
    ensures s.slots[i].key.layer < |cfg.floors|
    ensures Inv(cfg, DropBase(s, i, reason))
    ensures Sum(Planes, DropBase(s, i, reason).slots) < Sum(Planes, s.slots)
  {
    assert EntryOk(cfg, s.clock, s.slots[i]);
    ReclaimsBase(s, i, reason);
    InvReclaims(cfg, s, DropBase(s, i, reason));
    DropLowersPlanes(s, i, reason);
  }

  /** Marks the slots about which a chooser is to be compared with the policy. */
  predicate Asked(slots: seq<Entry>) {
    true
  }

  /** The chooser picks the policy's victims. */
  ghost predicate Follows(choose: Chooser, cfg: Config, protect: Option<nat>) {
    forall slots {:trigger Asked(slots)} :: Asked(slots) ==>
      choose.base(slots) == BaseVictim(cfg, slots, protect) && choose.residual(slots) == ResidualVictim(cfg, slots)
  }

  /** Entries of `marked` are those of `slots`, some of them marked as planned. */
  ghost predicate Marks(slots: seq<Entry>, marked: seq<Entry>) {
    && |marked| == |slots| && NoneMarked(slots)
    && forall i :: 0 <= i < |slots| ==>
         marked[i] == slots[i] || (slots[i].Resident? && marked[i] == slots[i].(planned := true))
  }

  function PlannedLeaves(y: Layer, charge: nat): Layer
    requires y.planBytes >= charge && y.planEntries >= 1
  {
    y.(planBytes := y.planBytes - charge, planEntries := y.planEntries - 1)
  }

  lemma {:induction false} PlannedUpdate(layers: seq<Layer>, slots: seq<Entry>, v: nat)
    requires LayersPlanned(layers, slots) && v < |slots| && slots[v].Resident? && slots[v].key.layer < |layers|
    ensures var y, c := layers[slots[v].key.layer], slots[v].base.charge;
            && y.planBytes >= c && y.planEntries >= 1
            && LayersPlanned(layers[slots[v].key.layer := PlannedLeaves(y, c)], slots[v := Vacant])
  {
    SumMember(LayerBase(slots[v].key.layer), slots, v);
    SumMember(LayerEntries(slots[v].key.layer), slots, v);
    forall l | 0 <= l < |layers|
      ensures Sum(LayerBase(l), slots[v := Vacant]) + Weight(LayerBase(l), slots[v]) == Sum(LayerBase(l), slots)
      ensures Sum(LayerEntries(l), slots[v := Vacant]) + Weight(LayerEntries(l), slots[v])
        == Sum(LayerEntries(l), slots)
    {
      SumUpdate(LayerBase(l), slots, v, Vacant);
      SumUpdate(LayerEntries(l), slots, v, Vacant);
    }
  }

  lemma {:induction false} FreedStart(slots: seq<Entry>)
    ensures Sum(FreeableResidual, slots) + Sum(BaseCharge, slots) <= Sum(TotalCharge, slots)
  {
    SumBounded(FreeableResidual, ResidualCharge, slots);
    SumSplit(slots);
  }

  lemma {:induction false} PlanStuck(choose: Chooser, cfg: Config, protect: Option<nat>, slots: seq<Entry>, gap: int,
                                     slot: bool)
    requires Follows(choose, cfg, protect) && (gap > 0 || slot)
    requires BaseVictim(cfg, slots, protect) == None
    ensures GreedyPlan(choose, slots, gap, slot).None?
  {
    assert Asked(slots);
  }

  /** Taking base `v` is the next step of the plan, and it makes progress. */
  ghost predicate PlansNext(choose: Chooser, slots: seq<Entry>, gap: int, slot: bool, v: nat) {
    && v < |slots| && slots[v].Resident?
    && Sum(Entries, slots[v := Vacant]) < Sum(Entries, slots)
    && Sum(BaseCharge, slots[v := Vacant]) + slots[v].base.charge == Sum(BaseCharge, slots)
    && GreedyPlan(choose, slots, gap, slot).Some?
       == GreedyPlan(choose, slots[v := Vacant], gap - slots[v].base.charge, false).Some?
  }

  lemma {:induction false} PlanAdvances(choose: Chooser, cfg: Config, protect: Option<nat>, slots: seq<Entry>, gap: int,
                                        slot: bool, v: nat)
    requires Follows(choose, cfg, protect) && (gap > 0 || slot)
    requires BaseVictim(cfg, slots, protect) == Some(v)
    ensures PlansNext(choose, slots, gap, slot, v)
  {
    SumUpdate(Entries, slots, v, Vacant);
    SumUpdate(BaseCharge, slots, v, Vacant);
    assert Asked(slots);
    GreedyStep(choose, slots, gap, slot, v);
  }

  lemma {:induction false} PrefixAtMost(m: Measure, slots: seq<Entry>, i: nat)
    requires i <= |slots|
    ensures Sum(m, slots[..i]) <= Sum(m, slots)
    decreases |slots| - i
  {
    if i == |slots| {
      assert slots[..i] == slots;
    } else {
      SumPrefix(m, slots, i);
      PrefixAtMost(m, slots, i + 1);
    }
  }

  // ---- Creation -------------------------------------------------------------

  predicate PowerOfTwo(n: nat) {
    n == 1 || (n > 1 && n % 2 == 0 && PowerOfTwo(n / 2))
  }

  function Pow2(k: nat): nat {
    if k == 0 then 1 else 2 * Pow2(k - 1)
  }

  /** No power of two lies strictly between two consecutive ones. */
  lemma {:induction false} PowerGap(n: nat, k: nat)
    requires PowerOfTwo(n) && n < Pow2(k + 1)
    ensures n <= Pow2(k)
  {
    if n > 1 && k > 0 {
      PowerGap(n / 2, k - 1);
    }
  }

  lemma {:induction false} Pow2Five(k: nat)
    ensures Pow2(k + 5) == 32 * Pow2(k)
  {
    assert Pow2(k + 5) == 2 * Pow2(k + 4) && Pow2(k + 4) == 2 * Pow2(k + 3);
    assert Pow2(k + 3) == 2 * Pow2(k + 2) && Pow2(k + 2) == 2 * Pow2(k + 1);
  }

  lemma {:induction false} UpperHalf(n: nat)
    requires PowerOfTwo(n) && n <= 0x7FFF_FFFF
    ensures n <= 0x4000_0000
  {
    Pow2Five(0);
    Pow2Five(5);
    Pow2Five(10);
    Pow2Five(15);
    Pow2Five(20);
    Pow2Five(25);
    PowerGap(n, 30);
  }

  /** validate_config: the smallest power of two with room for twice the
      entries, unless it does not fit 32 bits. */
  method BucketCount(cfg: Config) returns (status: Status, n: nat)
    ensures status == Ok <==> 0 < cfg.alignment && 0 < cfg.maxEntries <= 0x4000_0000 && 0 < |cfg.floors|
    ensures status == Ok ==> PowerOfTwo(n) && 2 * cfg.maxEntries <= n < 4 * cfg.maxEntries && n <= U32_MAX
    ensures status == ErrSize <==> cfg.alignment == 0 || cfg.maxEntries == 0 || |cfg.floors| == 0
                                   || cfg.maxEntries >= U32_MAX - 1
    ensures status == Ok || status == ErrSize || status == ErrOverflow
  {
    if cfg.alignment == 0 || cfg.maxEntries == 0 || |cfg.floors| == 0 {
      return ErrSize, 0;
    }
    if cfg.maxEntries >= U32_MAX - 1 {
      return ErrSize, 0;
    }
    var wanted := cfg.maxEntries * 2;
    n := 1;
    while n < wanted
      invariant PowerOfTwo(n) && 0 < n <= 0x8000_0000 && n < 2 * wanted
      decreases wanted - n
    {
      if n > U32_MAX / 2 {
        return ErrOverflow, 0;
      }
      UpperHalf(n);
      n := n * 2;
    }
    return Ok, n;
  }

  /** ecache_init, after the workspace has been laid out. */
  method Create(cfg: Config, hash: Key -> nat) returns (status: Status, cache: Cache?)
    requires cfg.budget <= U64_MAX
    ensures status == Ok <==> cache != null
    ensures status == Ok <==> 0 < cfg.alignment && 0 < cfg.maxEntries <= 0x4000_0000 && 0 < |cfg.floors|
    ensures cache != null ==> fresh(cache) && fresh(cache.entries) && fresh(cache.layers) && fresh(cache.buckets)
                              && cache.Valid() && cache.Abs() == Initial(cfg) && cache.cfg == cfg
                              && PowerOfTwo(cache.buckets.Length)
  {
    var n;
    status, n := BucketCount(cfg);
    if status != Ok {
      return status, null;
    }
    cache := new Cache(cfg, hash, n);
  }
}
