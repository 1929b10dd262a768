/** Which positions of a corpus carry full logits (teacher_is_calibration of
    src/qwen36b.c): `count` of them, spread evenly over `positions`. */
module Calibration {
  import opened Basics

  function Times(a: nat, b: nat): nat { a * b }

  function Quotient(a: nat, c: nat): (q: nat)
    requires c > 0
  {
    a / c
  }

  function Selected(k: nat, positions: nat, count: nat): nat
    requires count > 0
  {
    Quotient(Times(2 * k + 1, positions), 2 * count)
  }

  /** Plain membership among the selected ordinals. */
  ghost predicate Member(ordinal: nat, positions: nat, count: nat) {
    exists k :: 0 <= k < count && Selected(k, positions, count) == ordinal
  }

  lemma TimesGrows(a: nat, b: nat, c: nat)
    requires a <= b
    ensures Times(a, c) <= Times(b, c)
  {
  }

  /** A quotient is the number of whole times. */
  lemma {:induction false} QuotientIs(a: nat, c: nat)
    requires c > 0
    ensures Times(Quotient(a, c), c) <= a < Times(Quotient(a, c) + 1, c)
  {
    assert a == a / c * c + a % c;
  }

  lemma {:induction false} QuotientAtLeast(a: nat, c: nat, q: nat)
    requires c > 0 && Times(q, c) <= a
    ensures q <= Quotient(a, c)
  {
    QuotientIs(a, c);
    if Quotient(a, c) + 1 <= q { TimesGrows(Quotient(a, c) + 1, q, c); }
  }

  lemma {:induction false} QuotientBelow(a: nat, c: nat, q: nat)
    requires c > 0 && a < Times(q, c)
    ensures Quotient(a, c) < q
  {
    QuotientIs(a, c);
    if q <= Quotient(a, c) { TimesGrows(q, Quotient(a, c), c); }
  }

  /** The selected ordinals strictly increase, because there are no more of them than
      positions. */
  lemma {:induction false} SelectedNext(k: nat, positions: nat, count: nat)
    requires 0 < count <= positions
    ensures Selected(k, positions, count) < Selected(k + 1, positions, count)
  {
    var a, c := Times(2 * k + 1, positions), 2 * count;
    assert Times(2 * (k + 1) + 1, positions) == a + 2 * positions;
    QuotientIs(a, c);
    assert Times(Quotient(a, c) + 1, c) == Times(Quotient(a, c), c) + c;
    QuotientAtLeast(a + 2 * positions, c, Quotient(a, c) + 1);
  }

  lemma {:induction false} SelectedGrows(j: nat, k: nat, positions: nat, count: nat)
    requires 0 < count <= positions && j < k
    ensures Selected(j, positions, count) < Selected(k, positions, count)
    decreases k - j
  {
    SelectedNext(k - 1, positions, count);
    if j < k - 1 { SelectedGrows(j, k - 1, positions, count); }
  }

  lemma {:induction false} SelectedInside(k: nat, positions: nat, count: nat)
    requires 0 < count <= positions && k < count
    ensures Selected(k, positions, count) < positions
  {
    TimesGrows(2 * k + 1, 2 * count - 1, positions);
    assert Times(2 * count - 1, positions) == Times(positions, 2 * count) - positions;
    QuotientBelow(Times(2 * k + 1, positions), 2 * count, positions);
  }

  /** Cut into `count` equal parts, the positions have their selected ordinal in the middle
      of each part: at most one position before the middle, and never behind it. */
  lemma {:induction false} SelectedIsMiddle(k: nat, positions: nat, count: nat)
    requires 0 < count <= positions && k < count
    ensures var twice, middle := 2 * count * Selected(k, positions, count), k * positions + (k + 1) * positions;
            twice <= middle < twice + 2 * count
  {
    QuotientIs(Times(2 * k + 1, positions), 2 * count);
    var s := Selected(k, positions, count);
    assert Times(2 * k + 1, positions) == k * positions + (k + 1) * positions;
    assert Times(s, 2 * count) == 2 * count * s && Times(s + 1, 2 * count) == 2 * count * s + 2 * count;
  }

  lemma Between(c: nat, x: int, y: int, m: int, p: int)
    requires 2 * x <= m < 2 * x + 2 * c && 2 * y <= m + 2 * p < 2 * y + 2 * c
    ensures y - x - c < p < y - x + c
  {
  }

  lemma Spread(c: nat, a: int, b: int)
    ensures c * (b - a - 1) == c * b - c * a - c && c * (b - a + 1) == c * b - c * a + c
  {
  }

  /** Neighbours are as far apart as the parts are long, to within one position. */
  lemma {:induction false} EvenlySpread(k: nat, positions: nat, count: nat)
    requires 0 < count <= positions && k + 1 < count
    ensures var gap := Selected(k + 1, positions, count) - Selected(k, positions, count);
            count * (gap - 1) < positions < count * (gap + 1)
  {
    var a, b := Selected(k, positions, count), Selected(k + 1, positions, count);
    MiddleOf(k, positions, count, Times(2 * k + 1, positions));
    MiddleOf(k + 1, positions, count, Times(2 * k + 1, positions) + 2 * positions);
    Between(count, count * a, count * b, Times(2 * k + 1, positions), positions);
    Spread(count, a, b);
  }

  lemma {:induction false} MiddleOf(k: nat, positions: nat, count: nat, middle: nat)
    requires 0 < count && middle == Times(2 * k + 1, positions)
    ensures var s := Selected(k, positions, count); 2 * (count * s) <= middle < 2 * (count * s) + 2 * count
  {
    QuotientIs(middle, 2 * count);
    var s := Selected(k, positions, count);
    assert Times(s, 2 * count) == 2 * (count * s) && Times(s + 1, 2 * count) == 2 * (count * s) + 2 * count;
  }

  /** The ordinals selected by the first `k` indices. */
  ghost function Chosen(k: nat, positions: nat, count: nat): set<nat>
    requires count > 0
  {
    if k == 0 then {} else Chosen(k - 1, positions, count) + {Selected(k - 1, positions, count)}
  }

  lemma {:induction false} ChosenAre(k: nat, positions: nat, count: nat)
    requires 0 < count <= positions
    ensures |Chosen(k, positions, count)| == k
    ensures forall o :: o in Chosen(k, positions, count)
              <==> exists j :: 0 <= j < k && Selected(j, positions, count) == o
  {
    if k > 0 {
      ChosenAre(k - 1, positions, count);
      var last := Selected(k - 1, positions, count);
      if last in Chosen(k - 1, positions, count) {
        var j :| 0 <= j < k - 1 && Selected(j, positions, count) == last;
        SelectedGrows(j, k - 1, positions, count);
        assert false;
      }
      forall o
        ensures o in Chosen(k, positions, count) <==> exists j :: 0 <= j < k && Selected(j, positions, count) == o
      {
        if j :| 0 <= j < k && Selected(j, positions, count) == o {
          assert j < k - 1 || j == k - 1;
        }
      }
    }
  }

  /** Over all ordinals exactly `count` are members, and every member is an ordinal. */
  lemma {:induction false} ExactlyCount(positions: nat, count: nat)
    requires 0 < count <= positions
    ensures |set o: nat | 0 <= o < positions && Member(o, positions, count)| == count
    ensures forall o: nat :: Member(o, positions, count) ==> o < positions
  {
    ChosenAre(count, positions, count);
    assert forall o: nat :: o in Chosen(count, positions, count) <==> Member(o, positions, count);
    MembersInside(positions, count);
    SameSet((set o: nat | 0 <= o < positions && Member(o, positions, count)), Chosen(count, positions, count));
  }

  lemma SameSet(a: set<nat>, b: set<nat>)
    requires forall o :: o in a <==> o in b
    ensures a == b
  {
  }

  lemma {:induction false} MembersInside(positions: nat, count: nat)
    requires 0 < count <= positions
    ensures forall o: nat :: Member(o, positions, count) ==> o < positions
  {
    forall o: nat | Member(o, positions, count)
      ensures o < positions
    {
      var k :| 0 <= k < count && Selected(k, positions, count) == o;
      SelectedInside(k, positions, count);
    }
  }

  datatype Answer = Yes | No | Overflow

  lemma {:induction false} OverflowCheck(positions: nat, factor: nat)
    requires factor > 0
    ensures positions > Quotient(U64_MAX, factor) <==> Times(positions, factor) > U64_MAX
  {
    if Times(positions, factor) > U64_MAX {
      QuotientBelow(U64_MAX, factor, positions);
    } else {
      QuotientAtLeast(U64_MAX, factor, positions);
    }
  }

  lemma Swap(a: nat, b: nat)
    ensures Times(a, b) == Times(b, a)
  {
  }

  /** The product for index `j` does not fit 64 bits, and no earlier ordinal settles the answer. */
  ghost predicate Overflows(j: nat, ordinal: nat, positions: nat, count: nat)
    requires count > 0
  {
    Times(2 * j + 1, positions) > U64_MAX && forall k :: 0 <= k < j ==> Selected(k, positions, count) < ordinal
  }

  /** teacher_is_calibration: leaving early agrees with plain membership, and the
      overflow stop is taken exactly when a product really overflows that is needed. */
  method IsCalibration(ordinal: nat, positions: nat, count: nat) returns (r: Answer)
    requires 0 < count <= positions
    ensures r == Yes ==> Member(ordinal, positions, count)
    ensures r == No ==> !Member(ordinal, positions, count)
    ensures r == Overflow ==> Times(2 * count - 1, positions) > U64_MAX
    ensures r == Overflow <==> exists j :: 0 <= j < count && Overflows(j, ordinal, positions, count)
  {
    for index := 0 to count
      invariant forall k :: 0 <= k < index ==> Selected(k, positions, count) < ordinal
      invariant forall k :: 0 <= k < index ==> Times(2 * k + 1, positions) <= U64_MAX
    {
      var factor := 2 * index + 1;
      OverflowCheck(positions, factor);
      Swap(positions, factor);
      if positions > Quotient(U64_MAX, factor) {
        TimesGrows(factor, 2 * count - 1, positions);
        assert Overflows(index, ordinal, positions, count);
        return Overflow;
      }
      var selected := Quotient(Times(factor, positions), 2 * count);
      assert selected == Selected(index, positions, count);
      if selected == ordinal { return Yes; }
      if selected > ordinal {
        forall k | index <= k < count
          ensures Selected(k, positions, count) > ordinal
        {
          if index < k { SelectedGrows(index, k, positions, count); }
        }
        return No;
      }
    }
    r := No;
  }
}
