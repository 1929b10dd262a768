/** Stamped queues: each slot may hold an entry with a stamp, and every entry has its
    turn in the true order. A queue is exact when stamps, with ties broken by slot,
    follow the turns. */
module CacheOrder {
  import opened Basics
  import opened CacheModel

  datatype Rank = Rank(stamp: nat, turn: nat)

  type Queue = seq<Option<Rank>>

  predicate Ahead(a: Rank, i: nat, b: Rank, j: nat) {
    a.stamp < b.stamp || (a.stamp == b.stamp && i < j)
  }

  ghost predicate Exact(q: Queue) {
    forall i, j :: 0 <= i < |q| && 0 <= j < |q| && q[i].Some? && q[j].Some? && q[i].value.turn < q[j].value.turn
      ==> Ahead(q[i].value, i, q[j].value, j)
  }

  ghost predicate DistinctTurns(q: Queue) {
    forall i, j :: 0 <= i < j < |q| && q[i].Some? && q[j].Some? ==> q[i].value.turn != q[j].value.turn
  }

  /** Two entries whose stamps halving merges, the later one in the lower slot. */
  ghost predicate Merging(q: Queue) {
    exists i, j :: 0 <= i < j < |q| && q[i].Some? && q[j].Some?
      && q[j].value.stamp % 2 == 0 && q[i].value.stamp == q[j].value.stamp + 1
  }

  /** Every stamp halved. */
  function Halved(q: Queue): (r: Queue)
    ensures |r| == |q|
    ensures forall i :: 0 <= i < |q| ==>
              r[i] == if q[i].Some? then Some(Rank(Halve(q[i].value.stamp), q[i].value.turn)) else None
  {
    seq(|q|, (i: nat) requires i < |q| =>
      if q[i].Some? then Some(Rank(Halve(q[i].value.stamp), q[i].value.turn)) else None)
  }

  lemma {:induction false} HalvedBreaks(q: Queue)
    requires Exact(q) && DistinctTurns(q) && Merging(q)
    ensures !Exact(Halved(q))
  {
    var i, j :| 0 <= i < j < |q| && q[i].Some? && q[j].Some?
      && q[j].value.stamp % 2 == 0 && q[i].value.stamp == q[j].value.stamp + 1;
    assert q[j].value.turn < q[i].value.turn;
    assert !Ahead(Halved(q)[j].value, j, Halved(q)[i].value, i);
  }

  lemma {:induction false} HalvedKeeps(q: Queue)
    requires Exact(q) && !Merging(q)
    ensures Exact(Halved(q))
  {
    var r := Halved(q);
    forall i, j | 0 <= i < |r| && 0 <= j < |r| && r[i].Some? && r[j].Some? && r[i].value.turn < r[j].value.turn
      ensures Ahead(r[i].value, i, r[j].value, j)
    {
      assert Ahead(q[i].value, i, q[j].value, j);
    }
  }

  /** Halving keeps a queue exact if and only if it merges no such pair. */
  lemma {:induction false} HalvedExact(q: Queue)
    requires Exact(q) && DistinctTurns(q)
    ensures Exact(Halved(q)) <==> !Merging(q)
  {
    if Merging(q) { HalvedBreaks(q); } else { HalvedKeeps(q); }
  }

  /** A newcomer with the last turn and the highest stamp takes nothing away. */
  lemma {:induction false} StampedExact(q: Queue, i: nat, r: Rank)
    requires i < |q|
    requires forall j :: 0 <= j < |q| && j != i && q[j].Some? ==> q[j].value.stamp < r.stamp && q[j].value.turn < r.turn
    ensures Exact(q[i := Some(r)]) <==> Exact(q[i := None])
  {
    var with, without := q[i := Some(r)], q[i := None];
    if Exact(with) { FewerExact(with, without); }
    if Exact(without) {
      forall j, k | 0 <= j < |q| && 0 <= k < |q| && with[j].Some? && with[k].Some?
                    && with[j].value.turn < with[k].value.turn
        ensures Ahead(with[j].value, j, with[k].value, k)
      {
        if k != i {
          assert without[j] == with[j] && without[k] == with[k];
        }
      }
    }
  }

  /** An exact queue stays exact when entries leave. */
  lemma {:induction false} FewerExact(q: Queue, r: Queue)
    requires Exact(q) && |r| == |q| && forall i :: 0 <= i < |q| ==> r[i].None? || r[i] == q[i]
    ensures Exact(r)
  {
    forall i, j | 0 <= i < |r| && 0 <= j < |r| && r[i].Some? && r[j].Some? && r[i].value.turn < r[j].value.turn
      ensures Ahead(r[i].value, i, r[j].value, j)
    {
      assert r[i] == q[i] && r[j] == q[j];
    }
  }

  /** The queue after slot `i` is stamped or leaves, with or without halving. */
  function Advanced(q: Queue, i: nat, halve: bool, r: Option<Rank>): Queue
    requires i < |q|
  {
    (if halve then Halved(q) else q)[i := r]
  }

  lemma {:induction false} AdvancedExact(q: Queue, i: nat, halve: bool, r: Option<Rank>)
    requires i < |q| && Exact(q) && DistinctTurns(q)
    requires r.Some? ==> forall j :: 0 <= j < |q| && j != i && q[j].Some? ==>
               && (if halve then Halve(q[j].value.stamp) else q[j].value.stamp) < r.value.stamp
               && q[j].value.turn < r.value.turn
    ensures Exact(Advanced(q, i, halve, r)) <==> !(halve && Merging(q[i := None]))
  {
    var rest, moved := q[i := None], if halve then Halved(q) else q;
    FewerExact(q, rest);
    assert moved[i := None] == if halve then Halved(rest) else rest;
    if halve { HalvedExact(rest); }
    if r.Some? {
      StampedExact(moved, i, r.value);
    }
  }
}
