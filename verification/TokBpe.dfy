/** Byte-pair encoding of one piece (bpe_piece in src/tok.h). */
module TokBpe {
  import opened Basics
  import opened TokBytes

  datatype Special = Special(text: seq<byte>, id: nat)

  /** A loaded tokenizer. Merges are keyed by left, a zero byte, right. */
  datatype Tok = Tok(vocab: map<seq<byte>, nat>, merges: map<seq<byte>, nat>,
                     idText: map<nat, seq<byte>>, added: set<nat>,
                     specials: seq<Special>, ignoreMerges: bool)

  function PairKey(l: seq<byte>, r: seq<byte>): seq<byte> {
    l + [0] + r
  }

  // ---- The merge rule ---------------------------------------------------------

  predicate Mergeable(T: Tok, parts: seq<seq<byte>>, i: nat) {
    i + 1 < |parts| && PairKey(parts[i], parts[i + 1]) in T.merges
  }

  function Rank(T: Tok, parts: seq<seq<byte>>, i: nat): nat
    requires Mergeable(T, parts, i)
  {
    T.merges[PairKey(parts[i], parts[i + 1])]
  }

  /** The mergeable pair of lowest rank, leftmost among equals. */
  ghost predicate IsBest(T: Tok, parts: seq<seq<byte>>, p: nat) {
    && Mergeable(T, parts, p)
    && forall q: nat :: Mergeable(T, parts, q) ==>
         Rank(T, parts, p) < Rank(T, parts, q) || (Rank(T, parts, p) == Rank(T, parts, q) && p <= q)
  }

  function Merge(parts: seq<seq<byte>>, p: nat): (r: seq<seq<byte>>)
    requires p + 1 < |parts|
    ensures |r| == |parts| - 1
    ensures forall i :: 0 <= i < |r| ==>
              r[i] == if i < p then parts[i] else if i == p then parts[p] + parts[p + 1] else parts[i + 1]
  {
    parts[..p] + [parts[p] + parts[p + 1]] + parts[p + 2..]
  }

  /** Merge the best pair until none is mergeable. */
  ghost function Bpe(T: Tok, parts: seq<seq<byte>>): (r: seq<seq<byte>>)
    ensures |r| <= |parts|
    decreases |parts|
  {
    if exists p: nat :: IsBest(T, parts, p) then
      var p: nat :| IsBest(T, parts, p);
      Bpe(T, Merge(parts, p))
    else parts
  }

  lemma {:induction false} BpeStep(T: Tok, parts: seq<seq<byte>>, p: nat)
    requires IsBest(T, parts, p)
    ensures Bpe(T, parts) == Bpe(T, Merge(parts, p))
  {
    assert forall q: nat :: IsBest(T, parts, q) ==> q == p;
  }

  function Symbols(w: seq<byte>): (r: seq<seq<byte>>)
    ensures |r| == |w| && forall i :: 0 <= i < |w| ==> r[i] == Spelling(w[i])
  {
    seq(|w|, i requires 0 <= i < |w| => Spelling(w[i]))
  }

  /** Ids of the parts that are in the vocabulary; the others are dropped. */
  function Ids(T: Tok, parts: seq<seq<byte>>): (ids: seq<nat>)
    ensures |ids| <= |parts|
  {
    if parts == [] then []
    else
      var last := parts[|parts| - 1];
      Ids(T, parts[..|parts| - 1]) + (if last in T.vocab then [T.vocab[last]] else [])
  }

  ghost function PieceIds(T: Tok, w: seq<byte>): seq<nat> {
    if T.ignoreMerges && Spell(w) in T.vocab then [T.vocab[Spell(w)]]
    else Ids(T, Bpe(T, Symbols(w)))
  }

  // ---- Output buffers -----------------------------------------------------------

  /** What fits of a sequence into a buffer of max elements. */
  function Capped<X>(s: seq<X>, max: nat): seq<X> {
    if |s| <= max then s else s[..max]
  }

  lemma {:induction false} CappedAppend<X>(s: seq<X>, t: seq<X>, max: nat)
    ensures Capped(Capped(s, max) + t, max) == Capped(s + t, max)
  {
    if |s| > max {
      assert (s[..max] + t)[..max] == s[..max];
      assert (s + t)[..max] == s[..max];
    }
  }

  // ---- The slices of the working string ---------------------------------------

  ghost predicate Tiles(s: seq<byte>, offs: seq<nat>, lens: seq<nat>) {
    && |offs| == |lens|
    && (|offs| == 0 ==> |s| == 0)
    && (|offs| > 0 ==> offs[0] == 0)
    && forall i {:trigger lens[i]} :: 0 <= i < |offs| ==> offs[i] + lens[i] == Border(s, offs, i + 1)
  }

  /** Where tile i starts, or where the last one ends. */
  function Border(s: seq<byte>, offs: seq<nat>, i: nat): nat {
    if i < |offs| then offs[i] else |s|
  }

  lemma {:induction false} TilesWithin(s: seq<byte>, offs: seq<nat>, lens: seq<nat>, i: nat)
    requires Tiles(s, offs, lens) && i < |offs|
    ensures offs[i] + lens[i] <= |s|
    decreases |offs| - i
  {
    if i + 1 < |offs| {
      TilesWithin(s, offs, lens, i + 1);
    }
  }

  ghost function Slices(s: seq<byte>, offs: seq<nat>, lens: seq<nat>): (r: seq<seq<byte>>)
    requires Tiles(s, offs, lens)
    ensures |r| == |offs|
    ensures forall i {:trigger r[i]} :: 0 <= i < |offs| ==>
              offs[i] + lens[i] <= |s| && r[i] == s[offs[i]..offs[i] + lens[i]]
  {
    assert forall i :: 0 <= i < |offs| ==> offs[i] + lens[i] <= |s| by {
      forall i | 0 <= i < |offs|
        ensures offs[i] + lens[i] <= |s|
      {
        TilesWithin(s, offs, lens, i);
      }
    }
    seq(|offs|, i requires 0 <= i < |offs| => s[offs[i]..offs[i] + lens[i]])
  }

  function FusedOffs(offs: seq<nat>, p: nat): (r: seq<nat>)
    requires p + 1 < |offs|
    ensures |r| == |offs| - 1 && forall i :: 0 <= i < |r| ==> r[i] == offs[if i <= p then i else i + 1]
  {
    offs[..p + 1] + offs[p + 2..]
  }

  function FusedLens(lens: seq<nat>, p: nat, width: nat): (r: seq<nat>)
    requires p + 1 < |lens|
    ensures |r| == |lens| - 1
    ensures forall i :: 0 <= i < |r| ==> r[i] == if i == p then width else lens[if i < p then i else i + 1]
  {
    lens[..p] + [width] + lens[p + 2..]
  }

  /** Fusing tile p with its right neighbour is Merge on the slices. */
  lemma {:induction false} FuseTiles(s: seq<byte>, offs: seq<nat>, lens: seq<nat>, p: nat)
    requires Tiles(s, offs, lens) && p + 1 < |offs|
    ensures offs[p + 1] + lens[p + 1] >= offs[p]
    ensures var offs', lens' := FusedOffs(offs, p), FusedLens(lens, p, offs[p + 1] + lens[p + 1] - offs[p]);
            Tiles(s, offs', lens') && Slices(s, offs', lens') == Merge(Slices(s, offs, lens), p)
  {
    assert offs[p] + lens[p] == Border(s, offs, p + 1) == offs[p + 1];
    var offs', lens' := FusedOffs(offs, p), FusedLens(lens, p, offs[p + 1] + lens[p + 1] - offs[p]);
    forall i | 0 <= i < |offs'|
      ensures offs'[i] + lens'[i] == Border(s, offs', i + 1)
    {
      FuseBorder(s, offs, lens, p, i);
    }
    FuseSlices(s, offs, lens, p, offs', lens');
  }

  lemma {:induction false} FuseBorder(s: seq<byte>, offs: seq<nat>, lens: seq<nat>, p: nat, i: nat)
    requires Tiles(s, offs, lens) && p + 1 < |offs| && i < |offs| - 1 && offs[p + 1] + lens[p + 1] >= offs[p]
    ensures var offs', lens' := FusedOffs(offs, p), FusedLens(lens, p, offs[p + 1] + lens[p + 1] - offs[p]);
            offs'[i] + lens'[i] == Border(s, offs', i + 1)
  {
    if i < p {
      assert offs[i] + lens[i] == Border(s, offs, i + 1);
    } else {
      assert offs[i + 1] + lens[i + 1] == Border(s, offs, i + 2);
    }
  }

  lemma {:induction false} FuseSlices(s: seq<byte>, offs: seq<nat>, lens: seq<nat>, p: nat, offs': seq<nat>,
                                      lens': seq<nat>)
    requires Tiles(s, offs, lens) && p + 1 < |offs| && offs[p] + lens[p] == offs[p + 1]
    requires offs' == FusedOffs(offs, p) && lens' == FusedLens(lens, p, lens[p] + lens[p + 1])
    requires Tiles(s, offs', lens')
    ensures Slices(s, offs', lens') == Merge(Slices(s, offs, lens), p)
  {
    forall i | 0 <= i < |offs'|
      ensures Slices(s, offs', lens')[i] == Merge(Slices(s, offs, lens), p)[i]
    {
      FuseSliceAt(s, offs, lens, p, offs', lens', i);
    }
  }

  lemma {:induction false} FuseSliceAt(s: seq<byte>, offs: seq<nat>, lens: seq<nat>, p: nat, offs': seq<nat>,
                                       lens': seq<nat>, i: nat)
    requires Tiles(s, offs, lens) && p + 1 < |offs| && offs[p] + lens[p] == offs[p + 1]
    requires offs' == FusedOffs(offs, p) && lens' == FusedLens(lens, p, lens[p] + lens[p + 1])
    requires Tiles(s, offs', lens') && i < |offs'|
    ensures Slices(s, offs', lens')[i] == Merge(Slices(s, offs, lens), p)[i]
  {
    var before := Slices(s, offs, lens);
    if i < p {
      assert offs'[i] == offs[i] && lens'[i] == lens[i];
    } else if i == p {
      assert before[p] == s[offs[p]..offs[p] + lens[p]];
      assert before[p + 1] == s[offs[p + 1]..offs[p + 1] + lens[p + 1]];
      FuseOne(s, offs[p], lens[p], lens[p + 1], offs[p + 1] + lens[p + 1]);
    } else {
      assert offs'[i] == offs[i + 1] && lens'[i] == lens[i + 1];
    }
  }

  lemma FuseOne(s: seq<byte>, at: nat, l: nat, r: nat, end: nat)
    requires at + l + r == end <= |s|
    ensures s[at..at + l] + s[at + l..end] == s[at..end]
  {
  }

  // ---- bpe_piece ------------------------------------------------------------------

  lemma {:induction false} SliceAt(s: seq<byte>, offs: seq<nat>, lens: seq<nat>, i: nat)
    requires Tiles(s, offs, lens) && i < |offs|
    ensures offs[i] + lens[i] <= |s| && Slices(s, offs, lens)[i] == s[offs[i]..offs[i] + lens[i]]
  {
    TilesWithin(s, offs, lens, i);
  }

  /** The scan for the best adjacent pair. */
  method BestPair(T: Tok, s: seq<byte>, soff: array<nat>, slen: array<nat>, ns: nat, ghost offs: seq<nat>,
                  ghost lens: seq<nat>)
    returns (best: Option<nat>)
    requires ns <= soff.Length && ns <= slen.Length
    requires offs == soff[..ns] && lens == slen[..ns] && Tiles(s, offs, lens)
    ensures best.Some? ==> IsBest(T, Slices(s, offs, lens), best.value)
    ensures best.None? ==> forall p: nat :: !Mergeable(T, Slices(s, offs, lens), p)
  {
    ghost var parts := Slices(s, offs, lens);
    best := None;
    var rank := 0;
    var i := 0;
    while i + 1 < ns
      invariant 0 <= i && (i < ns || i == 0)
      invariant best.None? ==> forall q: nat :: q < i ==> !Mergeable(T, parts, q)
      invariant best.Some? ==> best.value < i && Mergeable(T, parts, best.value) && rank == Rank(T, parts, best.value)
      invariant best.Some? ==> forall q: nat :: q < i && Mergeable(T, parts, q) ==>
                  Rank(T, parts, best.value) < Rank(T, parts, q)
                  || (Rank(T, parts, best.value) == Rank(T, parts, q) && best.value <= q)
    {
      SliceAt(s, offs, lens, i);
      SliceAt(s, offs, lens, i + 1);
      var key := PairKey(s[soff[i]..soff[i] + slen[i]], s[soff[i + 1]..soff[i + 1] + slen[i + 1]]);
      if key in T.merges && (best.None? || T.merges[key] < rank) {
        best := Some(i);
        rank := T.merges[key];
      }
      i := i + 1;
    }
  }

  /** Fuse tiles p and p + 1 in place: widen p, shift the rest down. */
  method FuseAt(soff: array<nat>, slen: array<nat>, ns: nat, p: nat, ghost offs: seq<nat>, ghost lens: seq<nat>)
    requires soff != slen && ns <= soff.Length && ns <= slen.Length && p + 1 < ns
    requires offs == soff[..ns] && lens == slen[..ns] && offs[p + 1] + lens[p + 1] >= offs[p]
    modifies soff, slen
    ensures soff[..ns - 1] == FusedOffs(offs, p)
    ensures slen[..ns - 1] == FusedLens(lens, p, offs[p + 1] + lens[p + 1] - offs[p])
  {
    ghost var width := soff[p + 1] + slen[p + 1] - soff[p];
    slen[p] := soff[p + 1] + slen[p + 1] - soff[p];
    assert slen[..ns] == lens[p := width];
    ShiftStart(offs, lens, p, width);
    ShiftDown(soff, slen, ns, p, offs, lens);
    ShiftedAll(soff[..ns], slen[..ns], offs, lens, p);
    assert soff[..ns - 1] == soff[..ns][..ns - 1] && slen[..ns - 1] == slen[..ns][..ns - 1];
  }

  method ShiftDown(soff: array<nat>, slen: array<nat>, ns: nat, p: nat, ghost offs: seq<nat>, ghost lens: seq<nat>)
    requires soff != slen && ns <= soff.Length && ns <= slen.Length && p + 1 < ns
    requires Shifted(soff[..ns], offs, p, p + 1) && ShiftedPast(slen[..ns], lens, p, p + 1)
    modifies soff, slen
    ensures Shifted(soff[..ns], offs, p, ns - 1) && ShiftedPast(slen[..ns], lens, p, ns - 1)
    ensures slen[p] == old(slen[p])
  {
    var j := p + 1;
    while j < ns - 1
      invariant p + 1 <= j <= ns - 1 && slen[p] == old(slen[p])
      invariant Shifted(soff[..ns], offs, p, j) && ShiftedPast(slen[..ns], lens, p, j)
    {
      MoveDown(soff, ns, offs, p, j);
      MoveDownPast(slen, ns, lens, p, j);
      j := j + 1;
    }
  }

  method MoveDown(a: array<nat>, n: nat, ghost was: seq<nat>, p: nat, j: nat)
    requires p < j && j + 1 < n <= a.Length && Shifted(a[..n], was, p, j)
    modifies a
    ensures Shifted(a[..n], was, p, j + 1)
  {
    a[j] := a[j + 1];
  }

  method MoveDownPast(a: array<nat>, n: nat, ghost was: seq<nat>, p: nat, j: nat)
    requires p < j && j + 1 < n <= a.Length && ShiftedPast(a[..n], was, p, j)
    modifies a
    ensures ShiftedPast(a[..n], was, p, j + 1) && a[p] == old(a[p])
  {
    a[j] := a[j + 1];
  }

  /** Entries after `p` have moved down by one as far as `j`. */
  predicate Shifted(now: seq<nat>, was: seq<nat>, p: nat, j: nat) {
    && |now| == |was|
    && (forall k :: 0 <= k < |now| && (k <= p || j <= k) ==> now[k] == was[k])
    && (forall k :: p < k < j && k + 1 < |now| ==> now[k] == was[k + 1])
  }

  /** The same, with entry `p` itself left aside. */
  predicate ShiftedPast(now: seq<nat>, was: seq<nat>, p: nat, j: nat) {
    && |now| == |was|
    && (forall k :: 0 <= k < |now| && (k < p || j <= k) ==> now[k] == was[k])
    && (forall k :: p < k < j && k + 1 < |now| ==> now[k] == was[k + 1])
  }

  lemma ShiftStart(offs: seq<nat>, lens: seq<nat>, p: nat, width: nat)
    requires p < |lens|
    ensures Shifted(offs, offs, p, p + 1) && ShiftedPast(lens[p := width], lens, p, p + 1)
  {
  }

  lemma ShiftedAll(o: seq<nat>, l: seq<nat>, offs: seq<nat>, lens: seq<nat>, p: nat)
    requires p + 1 < |o| && |o| == |l|
    requires Shifted(o, offs, p, |o| - 1) && ShiftedPast(l, lens, p, |l| - 1)
    ensures o[..|o| - 1] == FusedOffs(offs, p) && l[..|l| - 1] == FusedLens(lens, p, l[p])
  {
  }

  /** One tile per code point of the byte-level string. */
  method SplitSymbols(w: seq<byte>, s: seq<byte>, soff: array<nat>, slen: array<nat>) returns (ns: nat)
    requires s == Spell(w) && soff != slen && soff.Length == slen.Length == |s| + 1
    modifies soff, slen
    ensures ns == |w| && Tiles(s, soff[..ns], slen[..ns])
    ensures Slices(s, soff[..ns], slen[..ns]) == Symbols(w)
  {
    ns := 0;
    var i := 0;
    ghost var offs: seq<nat>, lens: seq<nat> := [], [];
    while i < |s|
      invariant 0 <= ns <= |s| && offs == soff[..ns] && lens == slen[..ns]
      invariant SplitTo(w, s, i, ns, offs, lens)
      decreases |s| - i
    {
      SplitRound(w, s, i, ns, offs, lens);
      var (cp, k) := Next(s, i);
      AppendTile(soff, slen, ns, i, k, offs, lens);
      offs, lens := offs + [i], lens + [k];
      ns := ns + 1;
      i := i + k;
    }
    SplitDone(w, s, i, ns, offs, lens);
  }

  /** The first i bytes of s are tiled by the spellings of the first bytes of w. */
  ghost predicate SplitTo(w: seq<byte>, s: seq<byte>, i: nat, n: nat, offs: seq<nat>, lens: seq<nat>) {
    && |offs| == n <= |w| && i == |Spell(w[..n])| <= |s|
    && Tiles(s[..i], offs, lens) && Spelled(s, offs, lens, w)
  }

  lemma {:induction false} SplitRound(w: seq<byte>, s: seq<byte>, i: nat, n: nat, offs: seq<nat>, lens: seq<nat>)
    requires s == Spell(w) && i < |s| && SplitTo(w, s, i, n, offs, lens)
    ensures n < |w| <= |s|
    ensures var k := Next(s, i).1; SplitTo(w, s, i + k, n + 1, offs + [i], lens + [k])
  {
    NotYetSpelled(w, n);
    var k := NextAt(w, s, i, n);
    TileNext(s, i, offs, lens, w, k);
  }

  lemma {:induction false} NextAt(w: seq<byte>, s: seq<byte>, i: nat, n: nat) returns (k: nat)
    requires s == Spell(w) && n < |w| && i == |Spell(w[..n])| && i < |s|
    ensures k == Next(s, i).1 && k > 0 && i + k == |Spell(w[..n + 1])| <= |s| && s[i..i + k] == Spelling(w[n])
  {
    SpellAt(w, n);
    NextSpelling(s, i, w[n]);
    k := |Spelling(w[n])|;
  }

  lemma {:induction false} SplitDone(w: seq<byte>, s: seq<byte>, i: nat, n: nat, offs: seq<nat>, lens: seq<nat>)
    requires s == Spell(w) && i >= |s| && SplitTo(w, s, i, n, offs, lens)
    ensures |offs| == |w| && Tiles(s, offs, lens) && Slices(s, offs, lens) == Symbols(w)
  {
    FullSpelling(w, |offs|);
    assert i == |s| && s[..i] == s;
    TilesOf(s, offs, lens, w);
  }

  method AppendTile(soff: array<nat>, slen: array<nat>, ns: nat, i: nat, k: nat, ghost offs: seq<nat>,
                    ghost lens: seq<nat>)
    requires soff != slen && ns < soff.Length && ns < slen.Length && offs == soff[..ns] && lens == slen[..ns]
    modifies soff, slen
    ensures soff[..ns + 1] == offs + [i] && slen[..ns + 1] == lens + [k]
  {
    soff[ns] := i;
    slen[ns] := k;
  }

  ghost predicate Spelled(s: seq<byte>, offs: seq<nat>, lens: seq<nat>, w: seq<byte>) {
    && |offs| == |lens| <= |w|
    && forall k {:trigger lens[k]} :: 0 <= k < |lens| ==>
         offs[k] + lens[k] <= |s| && s[offs[k]..offs[k] + lens[k]] == Spelling(w[k])
  }

  lemma {:induction false} TileNext(s: seq<byte>, i: nat, offs: seq<nat>, lens: seq<nat>, w: seq<byte>, k: nat)
    requires i + k <= |s| && Tiles(s[..i], offs, lens) && Spelled(s, offs, lens, w)
    requires |offs| < |w| && s[i..i + k] == Spelling(w[|offs|]) && k > 0
    ensures Tiles(s[..i + k], offs + [i], lens + [k]) && Spelled(s, offs + [i], lens + [k], w)
  {
    var offs', lens' := offs + [i], lens + [k];
    forall j | 0 <= j < |offs'|
      ensures offs'[j] + lens'[j] == Border(s[..i + k], offs', j + 1)
    {
      if j < |offs| {
        assert offs[j] + lens[j] == Border(s[..i], offs, j + 1);
      }
    }
    SpelledNext(s, i, offs, lens, w, k);
  }

  lemma SpelledNext(s: seq<byte>, i: nat, offs: seq<nat>, lens: seq<nat>, w: seq<byte>, k: nat)
    requires i + k <= |s| && Spelled(s, offs, lens, w) && |offs| < |w| && s[i..i + k] == Spelling(w[|offs|])
    ensures Spelled(s, offs + [i], lens + [k], w)
  {
  }

  lemma {:induction false} SpellAt(w: seq<byte>, n: nat)
    requires n < |w|
    ensures var i := |Spell(w[..n])|; var k := |Spelling(w[n])|;
            && i + k == |Spell(w[..n + 1])| <= |Spell(w)|
            && Spell(w)[i..i + k] == Spelling(w[n])
  {
    assert w[..n + 1][..n] == w[..n];
    assert w == w[..n + 1] + w[n + 1..];
    SpellConcat(w[..n + 1], w[n + 1..]);
  }

  lemma {:induction false} NotYetSpelled(w: seq<byte>, n: nat)
    requires n <= |w| && |Spell(w[..n])| < |Spell(w)|
    ensures n < |w|
  {
    assert w[..|w|] == w;
  }

  lemma {:induction false} FullSpelling(w: seq<byte>, n: nat)
    requires n <= |w| && |Spell(w[..n])| >= |Spell(w)|
    ensures n == |w|
  {
    if n < |w| {
      SpellAt(w, n);
    }
  }

  lemma {:induction false} TilesOf(s: seq<byte>, offs: seq<nat>, lens: seq<nat>, w: seq<byte>)
    requires |offs| == |w| && Tiles(s, offs, lens) && Spelled(s, offs, lens, w)
    ensures Slices(s, offs, lens) == Symbols(w)
  {
    forall k | 0 <= k < |w|
      ensures Slices(s, offs, lens)[k] == Symbols(w)[k]
    {
      assert offs[k] + lens[k] <= |s|;
    }
  }

  /** The merging loop. */
  method MergeAll(T: Tok, s: seq<byte>, soff: array<nat>, slen: array<nat>, count: nat) returns (ns: nat)
    requires soff != slen && count <= soff.Length && count <= slen.Length && Tiles(s, soff[..count], slen[..count])
    modifies soff, slen
    ensures ns <= soff.Length && ns <= slen.Length && Tiles(s, soff[..ns], slen[..ns])
    ensures Slices(s, soff[..ns], slen[..ns]) == Bpe(T, old(Slices(s, soff[..count], slen[..count])))
  {
    ns := count;
    ghost var offs, lens := soff[..ns], slen[..ns];
    ghost var goal := Bpe(T, Slices(s, offs, lens));
    while true
      invariant ns <= soff.Length && ns <= slen.Length && offs == soff[..ns] && lens == slen[..ns]
      invariant Tiles(s, offs, lens) && goal == Bpe(T, Slices(s, offs, lens))
      decreases ns
    {
      var best := BestPair(T, s, soff, slen, ns, offs, lens);
      if best.None? {
        return;
      }
      var p := best.value;
      MergeRound(T, s, offs, lens, p);
      ghost var offs', lens' := FusedOffs(offs, p), FusedLens(lens, p, offs[p + 1] + lens[p + 1] - offs[p]);
      FuseAt(soff, slen, ns, p, offs, lens);
      offs, lens, ns := offs', lens', ns - 1;
    }
  }

  lemma {:induction false} MergeRound(T: Tok, s: seq<byte>, offs: seq<nat>, lens: seq<nat>, p: nat)
    requires Tiles(s, offs, lens) && IsBest(T, Slices(s, offs, lens), p)
    ensures offs[p + 1] + lens[p + 1] >= offs[p]
    ensures var offs', lens' := FusedOffs(offs, p), FusedLens(lens, p, offs[p + 1] + lens[p + 1] - offs[p]);
            Tiles(s, offs', lens') && Bpe(T, Slices(s, offs', lens')) == Bpe(T, Slices(s, offs, lens))
  {
    FuseTiles(s, offs, lens, p);
    BpeStep(T, Slices(s, offs, lens), p);
  }

  /** bpe_piece: the ids of bytes [a, b), as many as the output still holds. */
  method BpePiece(T: Tok, p: seq<byte>, a: nat, b: nat, out: array<nat>, no: nat) returns (n: nat)
    requires a <= b <= |p| && no <= out.Length
    modifies out
    ensures n <= out.Length && out[..n] == Capped(old(out[..no]) + PieceIds(T, p[a..b]), out.Length)
  {
    var w := p[a..b];
    var s := SpellOut(w);
    ghost var start := out[..no];
    if T.ignoreMerges && s in T.vocab {
      n := Emit(T.vocab[s], out, no);
      return;
    }
    var soff, slen := new nat[|s| + 1], new nat[|s| + 1];
    var ns := SplitSymbols(w, s, soff, slen);
    ns := MergeAll(T, s, soff, slen, ns);
    ghost var parts := Slices(s, soff[..ns], slen[..ns]);
    assert parts == Bpe(T, Symbols(w));
    n := EmitAll(T, s, soff, slen, ns, out, no, parts);
  }

  method SpellOut(w: seq<byte>) returns (s: seq<byte>)
    ensures s == Spell(w)
  {
    s := [];
    var i := 0;
    while i < |w|
      invariant 0 <= i <= |w| && s == Spell(w[..i])
    {
      assert w[..i + 1][..i] == w[..i];
      s := s + Spelling(w[i]);
      i := i + 1;
    }
    assert w[..|w|] == w;
  }

  /** Append one id if there is room. */
  method Emit(id: nat, out: array<nat>, no: nat) returns (n: nat)
    requires no <= out.Length
    modifies out
    ensures n <= out.Length && out[..n] == Capped(old(out[..no]) + [id], out.Length)
  {
    if no < out.Length {
      out[no] := id;
      return no + 1;
    }
    return no;
  }

  method EmitAll(T: Tok, s: seq<byte>, soff: array<nat>, slen: array<nat>, ns: nat, out: array<nat>, no: nat,
                 ghost parts: seq<seq<byte>>)
    returns (n: nat)
    requires ns <= soff.Length && ns <= slen.Length && out != soff && out != slen && no <= out.Length
    requires Tiles(s, soff[..ns], slen[..ns]) && parts == Slices(s, soff[..ns], slen[..ns])
    modifies out
    ensures n <= out.Length && out[..n] == Capped(old(out[..no]) + Ids(T, parts), out.Length)
  {
    ghost var start := out[..no];
    n := no;
    var i := 0;
    assert start + Ids(T, parts[..0]) == start;
    while i < ns
      invariant 0 <= i <= ns && n <= out.Length
      invariant out[..n] == Capped(start + Ids(T, parts[..i]), out.Length)
      invariant soff[..ns] == old(soff[..ns]) && slen[..ns] == old(slen[..ns])
    {
      SliceAt(s, soff[..ns], slen[..ns], i);
      n := EmitPart(T, s[soff[i]..soff[i] + slen[i]], out, n, parts, i, start);
      i := i + 1;
    }
    assert parts[..ns] == parts;
  }

  method EmitPart(T: Tok, part: seq<byte>, out: array<nat>, no: nat, ghost parts: seq<seq<byte>>, ghost i: nat,
                  ghost start: seq<nat>)
    returns (n: nat)
    requires i < |parts| && part == parts[i] && no <= out.Length
    requires out[..no] == Capped(start + Ids(T, parts[..i]), out.Length)
    modifies out
    ensures n <= out.Length && out[..n] == Capped(start + Ids(T, parts[..i + 1]), out.Length)
  {
    EmitNext(T, parts, i, start, out.Length);
    n := no;
    if part in T.vocab {
      n := Emit(T.vocab[part], out, n);
    }
  }

  lemma {:induction false} EmitNext(T: Tok, parts: seq<seq<byte>>, i: nat, start: seq<nat>, max: nat)
    requires i < |parts|
    ensures var more := if parts[i] in T.vocab then [T.vocab[parts[i]]] else [];
            && Capped(Capped(start + Ids(T, parts[..i]), max) + more, max)
              == Capped(start + Ids(T, parts[..i + 1]), max)
            && (more == [] ==> Capped(start + Ids(T, parts[..i]), max) == Capped(start + Ids(T, parts[..i + 1]), max))
  {
    var more := if parts[i] in T.vocab then [T.vocab[parts[i]]] else [];
    assert parts[..i + 1][..i] == parts[..i];
    CappedAppend(start + Ids(T, parts[..i]), more, max);
    assert start + Ids(T, parts[..i]) + more == start + Ids(T, parts[..i + 1]);
  }

  // ---- Nothing is lost -----------------------------------------------------------

  /** A vocabulary that spells every byte, contains what its merges produce, and
      whose ids read back as their own strings; added tokens read back literally. */
  ghost predicate WellFormed(T: Tok) {
    && (forall b: byte :: Spelling(b) in T.vocab)
    && (forall l, r :: PairKey(l, r) in T.merges ==> l + r in T.vocab)
    && (forall k :: k in T.vocab ==> T.vocab[k] in T.idText && T.idText[T.vocab[k]] == k && T.vocab[k] !in T.added)
    && (forall i :: 0 <= i < |T.specials| ==>
          T.specials[i].id in T.idText && T.idText[T.specials[i].id] == T.specials[i].text
            && T.specials[i].id in T.added)
  }

  /** What tok_decode appends for one id. */
  ghost function Text(T: Tok, id: nat): seq<byte> {
    if id !in T.idText then []
    else if id in T.added then T.idText[id]
    else Unspell(T.idText[id], 0)
  }

  function FlatMap(f: nat -> seq<byte>, ids: seq<nat>): seq<byte> {
    if ids == [] then [] else FlatMap(f, ids[..|ids| - 1]) + f(ids[|ids| - 1])
  }

  lemma {:induction false} FlatMapSnoc(f: nat -> seq<byte>, ids: seq<nat>, id: nat)
    ensures FlatMap(f, ids + [id]) == FlatMap(f, ids) + f(id)
  {
    assert (ids + [id])[..|ids|] == ids;
  }

  lemma {:induction false} FlatMapConcat(f: nat -> seq<byte>, a: seq<nat>, b: seq<nat>)
    ensures FlatMap(f, a + b) == FlatMap(f, a) + FlatMap(f, b)
  {
    if b == [] {
      assert a + b == a;
    } else {
      var init, last := b[..|b| - 1], f(b[|b| - 1]);
      FlatMapConcat(f, a, init);
      assert (a + b)[..|a + b| - 1] == a + init;
      assert FlatMap(f, a) + FlatMap(f, init) + last == FlatMap(f, a) + (FlatMap(f, init) + last);
    }
  }

  /** The bytes a list of ids decodes to. */
  ghost function TextOf(T: Tok, ids: seq<nat>): seq<byte> {
    FlatMap(id => Text(T, id), ids)
  }

  lemma {:induction false} TextOfConcat(T: Tok, a: seq<nat>, b: seq<nat>)
    ensures TextOf(T, a + b) == TextOf(T, a) + TextOf(T, b)
  {
    FlatMapConcat(id => Text(T, id), a, b);
  }

  lemma {:induction false} TextOfSnoc(T: Tok, ids: seq<nat>, id: nat)
    ensures TextOf(T, ids + [id]) == TextOf(T, ids) + Text(T, id)
  {
    FlatMapSnoc(id => Text(T, id), ids, id);
  }

  function Concat(words: seq<seq<byte>>): seq<byte> {
    if words == [] then [] else Concat(words[..|words| - 1]) + words[|words| - 1]
  }

  function SpellAll(words: seq<seq<byte>>): (r: seq<seq<byte>>)
    ensures |r| == |words| && forall i :: 0 <= i < |words| ==> r[i] == Spell(words[i])
  {
    seq(|words|, i requires 0 <= i < |words| => Spell(words[i]))
  }

  ghost predicate Known(T: Tok, words: seq<seq<byte>>) {
    forall i :: 0 <= i < |words| ==> Spell(words[i]) in T.vocab
  }

  lemma {:induction false} ConcatMerge(words: seq<seq<byte>>, p: nat)
    requires p + 1 < |words|
    ensures Concat(Merge(words, p)) == Concat(words)
    decreases |words|
  {
    var n := |words|;
    var init, last := words[..n - 1], words[n - 1];
    assert words == init + [last];
    ConcatSnoc(init, last);
    if p + 2 == n {
      MergeLast(words, p);
    } else {
      ConcatMerge(init, p);
      MergeBefore(init, last, p);
      ConcatSnoc(Merge(init, p), last);
    }
  }

  lemma {:induction false} MergeLast(words: seq<seq<byte>>, p: nat)
    requires p + 2 == |words|
    ensures Concat(Merge(words, p)) == Concat(words[..p + 1]) + words[p + 1]
  {
    var front, w, last := words[..p], words[p], words[p + 1];
    assert words[..p + 1] == front + [w] && Merge(words, p) == front + [w + last];
    ConcatSnoc(front, w);
    ConcatSnoc(front, w + last);
    Assoc(Concat(front), w, last);
  }

  lemma {:induction false} MergeBefore(init: seq<seq<byte>>, last: seq<byte>, p: nat)
    requires p + 1 < |init|
    ensures Merge(init + [last], p) == Merge(init, p) + [last]
  {
    var left, right := Merge(init + [last], p), Merge(init, p) + [last];
    assert forall i :: 0 <= i < |init| ==> left[i] == right[i];
  }

  lemma {:induction false} ConcatSnoc(words: seq<seq<byte>>, w: seq<byte>)
    ensures Concat(words + [w]) == Concat(words) + w
  {
    assert (words + [w])[..|words|] == words;
  }

  /** Merging regroups the bytes and stays within the vocabulary. */
  lemma {:induction false} BpeRegroups(T: Tok, words: seq<seq<byte>>) returns (groups: seq<seq<byte>>)
    requires WellFormed(T) && Known(T, words)
    ensures Bpe(T, SpellAll(words)) == SpellAll(groups)
    ensures Concat(groups) == Concat(words) && Known(T, groups) && |groups| <= |words|
    decreases |words|
  {
    var parts := SpellAll(words);
    if p: nat :| IsBest(T, parts, p) {
      BpeStep(T, parts, p);
      ConcatMerge(words, p);
      MergeKnown(T, words, p);
      groups := BpeRegroups(T, Merge(words, p));
    } else {
      groups := words;
    }
  }

  lemma {:induction false} MergeKnown(T: Tok, words: seq<seq<byte>>, p: nat)
    requires WellFormed(T) && Known(T, words) && Mergeable(T, SpellAll(words), p)
    ensures Known(T, Merge(words, p))
    ensures Merge(SpellAll(words), p) == SpellAll(Merge(words, p))
  {
    SpellConcat(words[p], words[p + 1]);
    assert PairKey(Spell(words[p]), Spell(words[p + 1])) in T.merges;
    SpellMerge(words, p);
    forall i | 0 <= i < |words| - 1
      ensures Spell(Merge(words, p)[i]) in T.vocab
    {
      assert i != p ==> Merge(words, p)[i] == words[if i < p then i else i + 1];
    }
  }

  lemma {:induction false} SpellMerge(words: seq<seq<byte>>, p: nat)
    requires p + 1 < |words|
    ensures Merge(SpellAll(words), p) == SpellAll(Merge(words, p))
  {
    SpellConcat(words[p], words[p + 1]);
    var left, right := Merge(SpellAll(words), p), SpellAll(Merge(words, p));
    forall i | 0 <= i < |words| - 1
      ensures left[i] == right[i]
    {
    }
  }

  lemma {:induction false} KnownText(T: Tok, w: seq<byte>)
    requires WellFormed(T) && Spell(w) in T.vocab
    ensures Text(T, T.vocab[Spell(w)]) == w
  {
    UnspellSpell([], w);
    assert [] + Spell(w) == Spell(w);
  }

  lemma {:induction false} IdsText(T: Tok, words: seq<seq<byte>>)
    requires WellFormed(T) && Known(T, words)
    ensures TextOf(T, Ids(T, SpellAll(words))) == Concat(words)
  {
    if words != [] {
      var n := |words| - 1;
      IdsText(T, words[..n]);
      KnownText(T, words[n]);
      IdsSnoc(T, words, n);
      TextOfSnoc(T, Ids(T, SpellAll(words[..n])), T.vocab[Spell(words[n])]);
    }
  }

  lemma {:induction false} IdsSnoc(T: Tok, words: seq<seq<byte>>, n: nat)
    requires WellFormed(T) && Known(T, words) && |words| == n + 1
    ensures Ids(T, SpellAll(words)) == Ids(T, SpellAll(words[..n])) + [T.vocab[Spell(words[n])]]
  {
    assert SpellAll(words)[..n] == SpellAll(words[..n]);
  }

  function Singletons(w: seq<byte>): (r: seq<seq<byte>>)
    ensures |r| == |w| && forall i :: 0 <= i < |w| ==> r[i] == [w[i]]
  {
    seq(|w|, i requires 0 <= i < |w| => [w[i]])
  }

  lemma {:induction false} ConcatSingletons(w: seq<byte>)
    ensures Concat(Singletons(w)) == w
  {
    if w != [] {
      var n := |w| - 1;
      ConcatSingletons(w[..n]);
      assert Singletons(w)[..n] == Singletons(w[..n]);
      assert w == w[..n] + [w[n]];
    }
  }

  /** A piece reads back as its bytes, and costs at most one token a byte. */
  lemma {:induction false} PieceRoundTrip(T: Tok, w: seq<byte>)
    requires WellFormed(T)
    ensures TextOf(T, PieceIds(T, w)) == w
    ensures w != [] ==> |PieceIds(T, w)| <= |w|
  {
    if T.ignoreMerges && Spell(w) in T.vocab {
      KnownText(T, w);
      TextOfSnoc(T, [], T.vocab[Spell(w)]);
      assert [] + [T.vocab[Spell(w)]] == [T.vocab[Spell(w)]];
    } else {
      var ones := Singletons(w);
      assert forall i :: 0 <= i < |w| ==> Spell(ones[i]) == Spelling(w[i]) by {
        forall i | 0 <= i < |w|
          ensures Spell(ones[i]) == Spelling(w[i])
        {
          SpellCons(w[i], []);
          assert [w[i]] + [] == [w[i]];
        }
      }
      assert SpellAll(ones) == Symbols(w);
      ConcatSingletons(w);
      var groups := BpeRegroups(T, ones);
      IdsText(T, groups);
    }
  }
}
