/** The values the expert cache works with (src/expert_cache.h). */
module CacheTypes {
  import opened Basics

  datatype Status =
    | Ok | Partial | ErrArgument | ErrSize | ErrOverflow | ErrPolicy
    | ErrNotFound | ErrExists | ErrNoSpace | ErrCorrupt

  datatype Key = Key(layer: nat, expert: nat)

  /** An opaque payload pointer; 0 is NULL. */
  type Handle = nat

  datatype Policy = Lru | TwoQueue

  /** Both constraints bind automatic base eviction, never remove or destroy. */
  datatype Floor = Floor(minBytes: nat, minEntries: nat)

  /** layer_count is the number of floors. */
  datatype Config = Config(budget: nat, alignment: nat, maxEntries: nat, floors: seq<Floor>, policy: Policy)

  /** One independently fetchable plane of an expert. */
  datatype Plane = Plane(payload: Handle, logical: nat, charge: nat, read: nat, unusedPrefetch: bool)

  /** A slot: memset to zero is Vacant; an absent residual has no stale fields. */
  datatype Entry =
    | Vacant
    | Resident(key: Key, base: Plane, residual: Option<Plane>, lastAccess: nat, admissionOrder: nat,
               hot: bool, pins: nat, planned: bool)

  datatype PlaneKind = BasePlane | ResidualPlane

  datatype Reason = Demotion | Eviction | Explicit | PressureWarn | PressureCritical | DestroyAll

  /** What the release callback is told. */
  datatype Event = Event(key: Key, kind: PlaneKind, reason: Reason, plane: Plane)

  datatype Requirement = RequireBase | RequireFull
  datatype Lookup = NoLookup | Hit | BaseMiss | ResidualMiss
  datatype Pressure = Normal | Warn | Critical

  function Max(a: nat, b: nat): nat {
    if a < b then b else a
  }

  predicate ConfigOk(cfg: Config) {
    && 0 < cfg.alignment
    && 0 < cfg.maxEntries
    && 0 < |cfg.floors|
    && cfg.budget <= U64_MAX
  }

  /** payload_charge: logical bytes rounded up to the alignment, with the
      64-bit overflow check. */
  function PayloadCharge(cfg: Config, logical: nat): (r: (Status, nat))
    requires 0 < cfg.alignment
    ensures r.0 == if logical == 0 then ErrSize
                   else if Rounded(logical, cfg.alignment) > U64_MAX then ErrOverflow
                   else Ok
    ensures r.1 == if r.0 == Ok then Rounded(logical, cfg.alignment) else 0
  {
    if logical == 0 then (ErrSize, 0)
    else
      var remainder := logical % cfg.alignment;
      var extra := if remainder != 0 then cfg.alignment - remainder else 0;
      if logical > U64_MAX - extra then (ErrOverflow, 0) else (Ok, logical + extra)
  }

  /** The least multiple of the alignment `a` that is not below `x`. */
  function Rounded(x: nat, a: nat): (m: nat)
    requires 0 < a
    ensures x <= m < x + a && m % a == 0
  {
    RoundUp(x, a);
    x + (if x % a != 0 then a - x % a else 0)
  }

  /** There is no other multiple in its reach, so it is the least one. */
  lemma {:induction false} RoundedIsLeast(x: nat, a: nat, m: nat)
    requires 0 < a && x <= m && m % a == 0
    ensures Rounded(x, a) <= m
  {
    if m < Rounded(x, a) { NoneBetween(m, Rounded(x, a), a); }
  }

  /** Different multiples are at least `a` apart. */
  lemma {:induction false} NoneBetween(m: nat, n: nat, a: nat)
    requires 0 < a && m % a == 0 && n % a == 0 && m < n
    ensures m + a <= n
  {
    var p, q := m / a, n / a;
    assert m == p * a && n == q * a;
    if q <= p {
      MulMonotone(q, p, a);
    } else {
      MulMonotone(p + 1, q, a);
      assert (p + 1) * a == m + a;
    }
  }

  lemma {:induction false} RoundUp(x: nat, a: nat)
    requires 0 < a
    ensures (x + (if x % a != 0 then a - x % a else 0)) % a == 0
  {
    var q, r := x / a, x % a;
    if r != 0 {
      var y := x + (a - r);
      assert y == (q + 1) * a;
      DivUnique(y / a, y % a, q + 1, 0, a);
    }
  }

  lemma {:induction false} DivUnique(q1: nat, r1: nat, q2: nat, r2: nat, a: nat)
    requires r1 < a && r2 < a
    requires q1 * a + r1 == q2 * a + r2
    ensures q1 == q2 && r1 == r2
  {
    if q1 < q2 {
      MulMonotone(q1 + 1, q2, a);
    } else if q2 < q1 {
      MulMonotone(q2 + 1, q1, a);
    }
  }

  lemma {:induction false} MulMonotone(x: nat, y: nat, a: nat)
    requires x <= y
    ensures x * a <= y * a
  {
    if x < y {
      MulMonotone(x, y - 1, a);
    }
  }
}
