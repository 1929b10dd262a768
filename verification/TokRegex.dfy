/** Ordered regular expressions with greedy backtracking, over code points: the
    list of ends a backtracking matcher would try, in the order it tries them. */
module TokRegex {

  datatype Re =
    | One(p: nat -> bool)
    | Cat(a: Re, b: Re)
    | Or(a: Re, b: Re)
    | Opt(a: Re)
    | Star(a: Re)
    | NotNext(p: nat -> bool)

  /** Ends of matches of re at i, best first. */
  function Ends(re: Re, s: seq<nat>, i: nat): (r: seq<nat>)
    requires i <= |s|
    ensures forall k :: 0 <= k < |r| ==> i <= r[k] <= |s|
    decreases re, |s| - i, 1, 0
  {
    match re
    case One(p) => if i < |s| && p(s[i]) then [i + 1] else []
    case Cat(a, b) => Chain(b, s, Ends(a, s, i), i)
    case Or(a, b) => Ends(a, s, i) + Ends(b, s, i)
    case Opt(a) => Ends(a, s, i) + [i]
    case Star(a) => Again(a, s, Ends(a, s, i), i) + [i]
    case NotNext(p) => if i < |s| && p(s[i]) then [] else [i]
  }

  /** Continue with b after each of the given ends, in order. */
  function Chain(b: Re, s: seq<nat>, ends: seq<nat>, i: nat): (r: seq<nat>)
    requires forall k :: 0 <= k < |ends| ==> i <= ends[k] <= |s|
    ensures forall k :: 0 <= k < |r| ==> i <= r[k] <= |s|
    decreases b, |s| + 1, 0, |ends|
  {
    if ends == [] then [] else Ends(b, s, ends[0]) + Chain(b, s, ends[1..], i)
  }

  /** Repeat a* after each end that made progress. */
  function Again(a: Re, s: seq<nat>, ends: seq<nat>, i: nat): (r: seq<nat>)
    requires i <= |s| && forall k :: 0 <= k < |ends| ==> i <= ends[k] <= |s|
    ensures forall k :: 0 <= k < |r| ==> i <= r[k] <= |s|
    decreases Star(a), |s| - i, 0, |ends|
  {
    if ends == [] then []
    else (if ends[0] > i then Ends(Star(a), s, ends[0]) else []) + Again(a, s, ends[1..], i)
  }

  function Plus(a: Re): Re {
    Cat(a, Star(a))
  }

  lemma CatEnds(a: Re, b: Re, s: seq<nat>, i: nat)
    requires i <= |s|
    ensures Ends(Cat(a, b), s, i) == Chain(b, s, Ends(a, s, i), i)
  {
  }

  /** One class member, then b. */
  lemma {:induction false} OneThen(p: nat -> bool, b: Re, s: seq<nat>, i: nat)
    requires i <= |s|
    ensures Ends(Cat(One(p), b), s, i) == if i < |s| && p(s[i]) then Ends(b, s, i + 1) else []
  {
    if i < |s| && p(s[i]) {
      assert Ends(One(p), s, i) == [i + 1] && [i + 1][1..] == [];
      assert Chain(b, s, [i + 1], i) == Ends(b, s, i + 1) + Chain(b, s, [], i);
    } else {
      assert Ends(One(p), s, i) == [];
    }
  }

  // ---- Runs of a class ---------------------------------------------------------

  /** First position from i on where p fails. */
  function RunEnd(p: nat -> bool, s: seq<nat>, i: nat): (r: nat)
    requires i <= |s|
    ensures i <= r <= |s|
    ensures forall k :: i <= k < r ==> p(s[k])
    ensures r < |s| ==> !p(s[r])
    decreases |s| - i
  {
    if i < |s| && p(s[i]) then RunEnd(p, s, i + 1) else i
  }

  /** r, r - 1, ..., i. */
  function Down(r: nat, i: nat): (d: seq<nat>)
    requires i <= r
    ensures |d| == r - i + 1 && forall k :: 0 <= k < |d| ==> d[k] == r - k
  {
    seq(r - i + 1, k requires 0 <= k < r - i + 1 => (r - k) as nat)
  }

  lemma {:induction false} StarEnds(p: nat -> bool, s: seq<nat>, i: nat)
    requires i <= |s|
    ensures Ends(Star(One(p)), s, i) == Down(RunEnd(p, s, i), i)
    decreases |s| - i
  {
    if i < |s| && p(s[i]) {
      StarEnds(p, s, i + 1);
      assert Ends(One(p), s, i) == [i + 1];
      assert [i + 1][1..] == [];
      assert Again(One(p), s, [i + 1], i) == Ends(Star(One(p)), s, i + 1) + [];
    } else {
      assert Ends(One(p), s, i) == [];
    }
  }

  lemma {:induction false} PlusEnds(p: nat -> bool, s: seq<nat>, i: nat)
    requires i <= |s|
    ensures Ends(Plus(One(p)), s, i) == if i < |s| && p(s[i]) then Down(RunEnd(p, s, i), i + 1) else []
  {
    OneThen(p, Star(One(p)), s, i);
    if i < |s| && p(s[i]) {
      StarEnds(p, s, i + 1);
    }
  }

  // ---- First match ----------------------------------------------------------------

  /** The first end that can be continued decides. */
  lemma {:induction false} ChainFirst(b: Re, s: seq<nat>, ends: seq<nat>, i: nat, k: nat)
    requires forall j :: 0 <= j < |ends| ==> i <= ends[j] <= |s|
    requires k < |ends| && Ends(b, s, ends[k]) != []
    requires forall j :: 0 <= j < k ==> Ends(b, s, ends[j]) == []
    ensures Chain(b, s, ends, i) != [] && Chain(b, s, ends, i)[0] == Ends(b, s, ends[k])[0]
    decreases k
  {
    if k > 0 {
      assert Ends(b, s, ends[0]) == [];
      ChainFirst(b, s, ends[1..], i, k - 1);
    }
  }

  lemma {:induction false} ChainNone(b: Re, s: seq<nat>, ends: seq<nat>, i: nat)
    requires forall j :: 0 <= j < |ends| ==> i <= ends[j] <= |s|
    requires forall j :: 0 <= j < |ends| ==> Ends(b, s, ends[j]) == []
    ensures Chain(b, s, ends, i) == []
  {
    if ends != [] {
      ChainNone(b, s, ends[1..], i);
    }
  }

  /** The outcome of a first-match search: the end, if there is one. */
  predicate Finds(re: Re, s: seq<nat>, i: nat, end: nat)
    requires i <= |s|
  {
    Ends(re, s, i) != [] && Ends(re, s, i)[0] == end
  }

  predicate Fails(re: Re, s: seq<nat>, i: nat)
    requires i <= |s|
  {
    Ends(re, s, i) == []
  }

  lemma OrFinds(a: Re, b: Re, s: seq<nat>, i: nat, end: nat)
    requires i <= |s|
    ensures Finds(a, s, i, end) ==> Finds(Or(a, b), s, i, end)
    ensures Fails(a, s, i) ==>
              (Finds(b, s, i, end) <==> Finds(Or(a, b), s, i, end)) && (Fails(b, s, i) <==> Fails(Or(a, b), s, i))
  {
  }
}
