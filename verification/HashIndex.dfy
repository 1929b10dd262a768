/** Open addressing with tombstones (src/expert_cache.c): linear probing from a
    key's home bucket, and when it refines the map from keys to slots. */
module HashIndex {
  import opened Basics
  import opened CacheTypes
  import opened CacheModel
  import opened CacheInvariant

  datatype Bucket = Empty | Tombstone | Slot(slot: nat)

  /** (home + k) & mask, for k below the number of buckets n. */
  function At(home: nat, k: nat, n: nat): nat
    requires home < n && k < n
  {
    if home + k < n then home + k else home + k - n
  }

  /** How many probes after its home a bucket is visited. */
  function Distance(home: nat, b: nat, n: nat): (d: nat)
    requires home < n && b < n
    ensures d < n && At(home, d, n) == b
  {
    if b >= home then b - home else b + n - home
  }

  function Home(hash: Key -> nat, key: Key, n: nat): (h: nat)
    requires n > 0
    ensures h < n
  {
    hash(key) % n
  }

  predicate Matches(slots: seq<Entry>, b: Bucket, key: Key) {
    b.Slot? && b.slot < |slots| && HasKey(slots[b.slot], key)
  }

  /** hash_find from probe k on: the bucket of the key, if the probing meets it
      before an empty bucket. */
  function Probe(buckets: seq<Bucket>, slots: seq<Entry>, key: Key, home: nat, k: nat): (r: Option<nat>)
    requires home < |buckets|
    ensures r.Some? ==> r.value < |buckets| && Matches(slots, buckets[r.value], key)
    decreases |buckets| - k
  {
    if k >= |buckets| then None
    else
      var b := At(home, k, |buckets|);
      if buckets[b].Empty? then None
      else if Matches(slots, buckets[b], key) then Some(b)
      else Probe(buckets, slots, key, home, k + 1)
  }

  /** No empty bucket between home and b. */
  ghost predicate Reach(buckets: seq<Bucket>, home: nat, b: nat)
    requires home < |buckets| && b < |buckets|
  {
    forall k :: 0 <= k < Distance(home, b, |buckets|) ==> !buckets[At(home, k, |buckets|)].Empty?
  }

  /** The buckets index exactly the resident slots below m, each once, and each
      within reach of its key's home. */
  ghost predicate Indexed(hash: Key -> nat, buckets: seq<Bucket>, slots: seq<Entry>, m: nat) {
    && 0 < |buckets| && m <= |slots|
    && (forall b :: 0 <= b < |buckets| && buckets[b].Slot? ==>
          && buckets[b].slot < m && slots[buckets[b].slot].Resident?
          && Reach(buckets, Home(hash, slots[buckets[b].slot].key, |buckets|), b))
    && (forall b, c ::
          0 <= b < |buckets| && 0 <= c < |buckets| && buckets[b].Slot? && buckets[b] == buckets[c] ==> b == c)
    && (forall i :: 0 <= i < m && slots[i].Resident? ==> exists b :: 0 <= b < |buckets| && buckets[b] == Slot(i))
  }

  // ---- Lookup -------------------------------------------------------------

  lemma {:induction false} ProbeMeets(buckets: seq<Bucket>, slots: seq<Entry>, key: Key, home: nat, b: nat, k: nat)
    requires home < |buckets| && b < |buckets|
    requires Matches(slots, buckets[b], key) && Reach(buckets, home, b)
    requires k <= Distance(home, b, |buckets|)
    ensures Probe(buckets, slots, key, home, k).Some?
    decreases Distance(home, b, |buckets|) - k
  {
    if k < Distance(home, b, |buckets|) {
      ProbeMeets(buckets, slots, key, home, b, k + 1);
    }
  }

  /** In an index of all slots, hash_find is the map from keys to slots. */
  lemma {:induction false} LookupRefinesMap(hash: Key -> nat, buckets: seq<Bucket>, slots: seq<Entry>, m: nat, key: Key)
    requires Indexed(hash, buckets, slots, m) && DistinctKeys(slots)
    ensures var r := Probe(buckets, slots, key, Home(hash, key, |buckets|), 0);
            && (r.Some? <==> exists i :: 0 <= i < m && HasKey(slots[i], key))
            && (r.Some? ==> forall i :: 0 <= i < |slots| && HasKey(slots[i], key) ==> buckets[r.value] == Slot(i))
  {
    var home := Home(hash, key, |buckets|);
    if exists i :: 0 <= i < m && HasKey(slots[i], key) {
      var i :| 0 <= i < m && HasKey(slots[i], key);
      var b :| 0 <= b < |buckets| && buckets[b] == Slot(i);
      ProbeMeets(buckets, slots, key, home, b, 0);
    }
  }

  // ---- Updates ------------------------------------------------------------

  lemma {:induction false} IndexInsert(hash: Key -> nat, buckets: seq<Bucket>, slots: seq<Entry>, m: nat, b: nat,
                                       i: nat, slots': seq<Entry>, m': nat)
    requires Indexed(hash, buckets, slots, m) && b < |buckets| && !buckets[b].Slot?
    requires |slots'| == |slots| && i < m' && m <= m' <= |slots|
    requires slots'[i].Resident? && (i < m ==> slots[i].Vacant?)
    requires forall j :: 0 <= j < |slots| && j != i ==> slots'[j] == slots[j]
    requires forall j :: m <= j < m' && j != i ==> slots[j].Vacant?
    requires Reach(buckets, Home(hash, slots'[i].key, |buckets|), b)
    ensures Indexed(hash, buckets[b := Slot(i)], slots', m')
  {
    var after := buckets[b := Slot(i)];
    forall j | 0 <= j < m' && slots'[j].Resident?
      ensures exists c :: 0 <= c < |after| && after[c] == Slot(j)
    {
      if j == i {
        assert after[b] == Slot(j);
      } else {
        var c :| 0 <= c < |buckets| && buckets[c] == Slot(j);
        assert after[c] == Slot(j);
      }
    }
  }

  lemma {:induction false} IndexErase(hash: Key -> nat, buckets: seq<Bucket>, slots: seq<Entry>, b: nat)
    requires Indexed(hash, buckets, slots, |slots|) && b < |buckets| && buckets[b].Slot?
    ensures Indexed(hash, buckets[b := Tombstone], slots[buckets[b].slot := Vacant], |slots|)
  {
    var i := buckets[b].slot;
    var after := buckets[b := Tombstone];
    forall j | 0 <= j < |slots| && slots[i := Vacant][j].Resident?
      ensures exists c :: 0 <= c < |after| && after[c] == Slot(j)
    {
      var c :| 0 <= c < |buckets| && buckets[c] == Slot(j);
      assert after[c] == Slot(j);
    }
  }

  /** The index looks at residency and keys only. */
  lemma IndexSameKeys(hash: Key -> nat, buckets: seq<Bucket>, slots: seq<Entry>, slots': seq<Entry>, m: nat)
    requires Indexed(hash, buckets, slots, m) && |slots'| == |slots|
    requires forall i :: 0 <= i < |slots| ==>
               slots[i].Vacant? == slots'[i].Vacant? && (slots[i].Resident? ==> slots[i].key == slots'[i].key)
    ensures Indexed(hash, buckets, slots', m)
  {
  }

  lemma IndexNothing(hash: Key -> nat, buckets: seq<Bucket>, slots: seq<Entry>)
    requires 0 < |buckets| && forall b :: 0 <= b < |buckets| ==> buckets[b].Empty?
    ensures Indexed(hash, buckets, slots, 0)
  {
  }

  // ---- Load ---------------------------------------------------------------

  datatype Kind = Empties | Tombstones | Slots

  predicate IsKind(b: Bucket, kind: Kind) {
    match kind
    case Empties => b.Empty?
    case Tombstones => b.Tombstone?
    case Slots => b.Slot?
  }

  function Tally(kind: Kind, buckets: seq<Bucket>): nat {
    if buckets == [] then 0
    else Tally(kind, buckets[..|buckets| - 1]) + (if IsKind(buckets[|buckets| - 1], kind) then 1 else 0)
  }

  lemma {:induction false} TallyUpdate(kind: Kind, buckets: seq<Bucket>, i: nat, b: Bucket)
    requires i < |buckets|
    ensures Tally(kind, buckets[i := b]) + (if IsKind(buckets[i], kind) then 1 else 0)
            == Tally(kind, buckets) + (if IsKind(b, kind) then 1 else 0)
  {
    var last := |buckets| - 1;
    if i == last {
      assert buckets[i := b][..last] == buckets[..last];
    } else {
      TallyUpdate(kind, buckets[..last], i, b);
      assert buckets[i := b][..last] == buckets[..last][i := b];
    }
  }

  lemma {:induction false} TallyTotal(buckets: seq<Bucket>)
    ensures Tally(Empties, buckets) + Tally(Tombstones, buckets) + Tally(Slots, buckets) == |buckets|
  {
    if buckets != [] {
      TallyTotal(buckets[..|buckets| - 1]);
    }
  }

  lemma {:induction false} TallyPositive(kind: Kind, buckets: seq<Bucket>) returns (b: nat)
    requires Tally(kind, buckets) > 0
    ensures b < |buckets| && IsKind(buckets[b], kind)
  {
    if IsKind(buckets[|buckets| - 1], kind) {
      b := |buckets| - 1;
    } else {
      b := TallyPositive(kind, buckets[..|buckets| - 1]);
    }
  }

  lemma {:induction false} TallyAllEmpty(buckets: seq<Bucket>)
    requires forall b :: 0 <= b < |buckets| ==> buckets[b].Empty?
    ensures Tally(Tombstones, buckets) == 0 && Tally(Slots, buckets) == 0
  {
    if buckets != [] {
      TallyAllEmpty(buckets[..|buckets| - 1]);
    }
  }

  /** With at most half the buckets in use and at most a quarter tombstones,
      some bucket is empty, so every probing for an absent key stops early. */
  lemma {:induction false} EmptyBucketExists(buckets: seq<Bucket>, maxEntries: nat) returns (b: nat)
    requires 0 < |buckets| && 2 * maxEntries <= |buckets|
    requires Tally(Slots, buckets) <= maxEntries && Tally(Tombstones, buckets) <= |buckets| / 4
    ensures b < |buckets| && buckets[b].Empty?
  {
    TallyTotal(buckets);
    b := TallyPositive(Empties, buckets);
  }
}
