/** What an encoding is made of. Untrusted text never yields an added token; trusted text
    is cut at the leftmost occurrences of added tokens, and what lies between is encoded
    as if it were untrusted text of its own. A stretch of plain text is cut at the matches
    of the pattern, and each piece is what best-first merging leaves of its bytes. */
module TokTrust {
  import opened Basics
  import Utf8
  import opened TokBytes
  import opened TokBpe
  import opened TokRegex
  import opened TokPretok
  import opened TokCodec

  // ---- No added token in plain text -------------------------------------------------

  ghost predicate NoneAdded(T: Tok, ids: seq<nat>) {
    forall id :: id in ids ==> id !in T.added
  }

  lemma {:induction false} IdsPlain(T: Tok, parts: seq<seq<byte>>)
    requires WellFormed(T)
    ensures NoneAdded(T, Ids(T, parts))
  {
    if parts != [] {
      IdsPlain(T, parts[..|parts| - 1]);
      var last := parts[|parts| - 1];
      assert last in T.vocab ==> T.vocab[last] !in T.added;
    }
  }

  lemma {:induction false} PiecesPlain(T: Tok, k: Classes, text: seq<byte>, offs: seq<nat>, points: seq<nat>, i: nat)
    requires WellFormed(T) && |offs| == |points| + 1 && i <= |points| && Rising(offs, |text|)
    ensures NoneAdded(T, PiecesIds(T, k, text, offs, points, i))
    decreases |points| - i
  {
    if i < |points| {
      var e := PieceEnd(k, points, i);
      var w := text[offs[i]..offs[e]];
      PiecesPlain(T, k, text, offs, points, e);
      IdsPlain(T, Bpe(T, Symbols(w)));
      assert Spell(w) in T.vocab ==> T.vocab[Spell(w)] !in T.added;
    }
  }

  /** Without leave no added token is recognised: untrusted text cannot bring in a control
      token. */
  lemma {:induction false} UntrustedIsPlain(T: Tok, k: Classes, text: seq<byte>)
    requires WellFormed(T)
    ensures NoneAdded(T, Encode(T, k, text, false))
  {
    OffsetsRise(text, 0);
    PiecesPlain(T, k, text, Offsets(text, 0), Points(text, 0), 0);
  }

  // ---- A chunk does not depend on what precedes it -------------------------------------

  /** The last bytes of `all` are `s`. */
  predicate EndsIn(all: seq<byte>, s: seq<byte>) {
    |s| <= |all| && all[|all| - |s|..] == s
  }

  lemma NextBehind(all: seq<byte>, s: seq<byte>, i: nat, r: (nat, nat))
    requires EndsIn(all, s) && i < |s| && Next(s, i) == r
    ensures Next(all, |all| - |s| + i) == r
  {
    var n := |all| - |s|;
    assert forall j :: 0 <= j < |s| ==> all[n + j] == s[j];
  }

  function Shifted(offs: seq<nat>, n: nat): (r: seq<nat>)
    ensures |r| == |offs| && forall i :: 0 <= i < |r| ==> r[i] == offs[i] + n
  {
    seq(|offs|, (i: nat) requires i < |offs| => offs[i] + n)
  }

  lemma {:induction false} OffsetsBehind(all: seq<byte>, s: seq<byte>, i: nat)
    requires EndsIn(all, s) && i <= |s|
    ensures var n := |all| - |s|;
            Offsets(all, n + i) == Shifted(Offsets(s, i), n) && Points(all, n + i) == Points(s, i)
    decreases |s| - i
  {
    if i < |s| {
      var n := |all| - |s|;
      var (c, w) := Next(s, i);
      NextBehind(all, s, i, (c, w));
      OffsetsBehind(all, s, i + w);
      FirstPoint(all, n + i, c, w);
      FirstPoint(s, i, c, w);
      ShiftedCons(i, Offsets(s, i + w), n);
    }
  }

  lemma FirstPoint(text: seq<byte>, i: nat, c: nat, w: nat)
    requires i < |text| && Next(text, i) == (c, w)
    ensures i + w <= |text|
    ensures Offsets(text, i) == [i] + Offsets(text, i + w) && Points(text, i) == [c] + Points(text, i + w)
  {
  }

  lemma ShiftedCons(i: nat, offs: seq<nat>, n: nat)
    ensures Shifted([i] + offs, n) == [i + n] + Shifted(offs, n)
  {
  }

  /** The pieces between `i` and the end of the points, by where each ends. */
  function PieceEnds(k: Classes, points: seq<nat>, i: nat): seq<nat>
    requires i <= |points|
    decreases |points| - i
  {
    if i == |points| then [] else [PieceEnd(k, points, i)] + PieceEnds(k, points, PieceEnd(k, points, i))
  }

  /** How one piece becomes ids. */
  type Emitter = seq<byte> -> seq<nat>

  ghost function Emits(T: Tok): Emitter { w => PieceIds(T, w) }

  /** The ids of pieces that end there. */
  function CutIds(g: Emitter, text: seq<byte>, offs: seq<nat>, i: nat, ends: seq<nat>): seq<nat>
    decreases |ends|
  {
    if ends == [] || !(i < ends[0] < |offs| && offs[i] <= offs[ends[0]] <= |text|) then []
    else g(text[offs[i]..offs[ends[0]]]) + CutIds(g, text, offs, ends[0], ends[1..])
  }

  lemma PiecesNext(T: Tok, k: Classes, text: seq<byte>, offs: seq<nat>, points: seq<nat>, i: nat, e: nat)
    requires |offs| == |points| + 1 && i < |points| && Rising(offs, |text|) && e == PieceEnd(k, points, i)
    ensures offs[i] <= offs[e] <= |text|
    ensures PiecesIds(T, k, text, offs, points, i)
            == Emits(T)(text[offs[i]..offs[e]]) + PiecesIds(T, k, text, offs, points, e)
  {
  }

  lemma CutNext(g: Emitter, text: seq<byte>, offs: seq<nat>, i: nat, ends: seq<nat>)
    requires ends != [] && i < ends[0] < |offs| && offs[i] <= offs[ends[0]] <= |text|
    ensures CutIds(g, text, offs, i, ends)
            == g(text[offs[i]..offs[ends[0]]]) + CutIds(g, text, offs, ends[0], ends[1..])
  {
  }

  lemma EndsNext(k: Classes, points: seq<nat>, i: nat)
    requires i < |points|
    ensures var ends := PieceEnds(k, points, i);
            ends != [] && ends[0] == PieceEnd(k, points, i) && ends[1..] == PieceEnds(k, points, ends[0])
  {
  }

  lemma {:induction false} PiecesByEnds(T: Tok, k: Classes, text: seq<byte>, offs: seq<nat>, points: seq<nat>, i: nat)
    requires |offs| == |points| + 1 && i <= |points| && Rising(offs, |text|)
    ensures PiecesIds(T, k, text, offs, points, i) == CutIds(Emits(T), text, offs, i, PieceEnds(k, points, i))
    decreases |points| - i
  {
    if i < |points| {
      var e := PieceEnd(k, points, i);
      PiecesByEnds(T, k, text, offs, points, e);
      PiecesNext(T, k, text, offs, points, i, e);
      EndsNext(k, points, i);
      CutNext(Emits(T), text, offs, i, PieceEnds(k, points, i));
    }
  }

  lemma {:induction false} CutBehind(g: Emitter, p: seq<byte>, s: seq<byte>, offs: seq<nat>, i: nat, ends: seq<nat>)
    requires i < |offs| && forall j :: 0 <= j < |offs| ==> offs[j] <= |s|
    ensures CutIds(g, p + s, Shifted(offs, |p|), i, ends) == CutIds(g, s, offs, i, ends)
    decreases |ends|
  {
    if ends != [] && i < ends[0] < |offs| && offs[i] <= offs[ends[0]] {
      CutBehind(g, p, s, offs, ends[0], ends[1..]);
      SliceBehind(p, s, offs[i], offs[ends[0]]);
      CutNext(g, s, offs, i, ends);
      CutNext(g, p + s, Shifted(offs, |p|), i, ends);
    }
  }

  lemma SliceBehind(p: seq<byte>, s: seq<byte>, a: nat, b: nat)
    requires a <= b <= |s|
    ensures (p + s)[a + |p|..b + |p|] == s[a..b]
  {
  }

  lemma {:induction false} ChunkByEnds(T: Tok, k: Classes, text: seq<byte>, a: nat)
    requires a <= |text|
    ensures ChunkIds(T, k, text, a)
            == CutIds(Emits(T), text, Offsets(text, a), 0, PieceEnds(k, Points(text, a), 0))
  {
    OffsetsRise(text, a);
    PiecesByEnds(T, k, text, Offsets(text, a), Points(text, a), 0);
  }

  lemma {:induction false} ChunkBehind(T: Tok, k: Classes, p: seq<byte>, s: seq<byte>)
    ensures ChunkIds(T, k, p + s, |p|) == ChunkIds(T, k, s, 0)
  {
    ChunkByEnds(T, k, p + s, |p|);
    ChunkByEnds(T, k, s, 0);
    assert EndsIn(p + s, s);
    OffsetsBehind(p + s, s, 0);
    OffsetsRise(s, 0);
    CutBehind(Emits(T), p, s, Offsets(s, 0), 0, PieceEnds(k, Points(s, 0), 0));
  }

  /** How plain text becomes ids. */
  ghost function Plainly(T: Tok, k: Classes): Emitter { w => Encode(T, k, w, false) }

  /** The ids of a chunk depend on its own bytes alone. */
  ghost predicate Local(f: Chunker, plain: Emitter) {
    forall text, i {:trigger Wanted(text, i)} :: 0 <= i <= |text| && Wanted(text, i) ==> f(text, i) == plain(text[i..])
  }

  lemma PlainlyIs(T: Tok, k: Classes, w: seq<byte>, ids: seq<nat>)
    requires ids == ChunkIds(T, k, w, 0)
    ensures Plainly(T, k)(w) == ids
  {
  }

  lemma ChunkOfIs(T: Tok, k: Classes, text: seq<byte>, i: nat, ids: seq<nat>)
    requires i <= |text| && ids == ChunkIds(T, k, text, i)
    ensures ChunkOf(T, k)(text, i) == ids
  {
  }

  lemma {:induction false} ChunkIsLocal(T: Tok, k: Classes, text: seq<byte>, i: nat)
    requires i <= |text|
    ensures ChunkOf(T, k)(text, i) == Plainly(T, k)(text[i..])
  {
    ChunkBehind(T, k, text[..i], text[i..]);
    assert text[..i] + text[i..] == text;
    var ids := ChunkIds(T, k, text[i..], 0);
    PlainlyIs(T, k, text[i..], ids);
    ChunkOfIs(T, k, text, i, ids);
  }

  lemma {:induction false} ChunksAreLocal(T: Tok, k: Classes)
    ensures Local(ChunkOf(T, k), Plainly(T, k))
  {
    forall text: seq<byte>, i | 0 <= i <= |text|
      ensures ChunkOf(T, k)(text, i) == Plainly(T, k)(text[i..])
    {
      ChunkIsLocal(T, k, text, i);
    }
  }

  // ---- Occurrences of added tokens -------------------------------------------------------

  /** The text of added token `n` stands at `j`. */
  predicate Stands(T: Tok, text: seq<byte>, j: nat, n: nat) {
    && n < |T.specials| && T.specials[n].text != []
    && j + |T.specials[n].text| <= |text| && text[j..j + |T.specials[n].text|] == T.specials[n].text
  }

  ghost predicate NoneStands(T: Tok, text: seq<byte>, i: nat, end: nat) {
    forall j: nat, n: nat :: i <= j < end ==> !Stands(T, text, j, n)
  }

  /** The leftmost occurrences from `i` on that do not overlap, the first in the table
      winning where several start. */
  ghost predicate Leftmost(T: Tok, text: seq<byte>, i: nat, hits: seq<(nat, nat)>)
    decreases |hits|
  {
    if hits == [] then NoneStands(T, text, i, |text|)
    else
      var (pos, n) := hits[0];
      && i <= pos && Stands(T, text, pos, n) && NoneStands(T, text, i, pos)
      && (forall m: nat :: m < n ==> !Stands(T, text, pos, m))
      && Leftmost(T, text, pos + |T.specials[n].text|, hits[1..])
  }

  lemma NoHitIs(T: Tok, text: seq<byte>, j: nat)
    ensures NoHit(T, text, j) <==> forall n: nat :: !Stands(T, text, j, n)
  {
    assert forall n: nat :: Stands(T, text, j, n) <==> n < |T.specials| && MatchesAt(T, text, j, n);
  }

  lemma HitIs(T: Tok, text: seq<byte>, j: nat, n: nat)
    ensures HitAt(T, text, j, n) <==> Stands(T, text, j, n) && forall m: nat :: m < n ==> !Stands(T, text, j, m)
  {
    assert forall m: nat :: Stands(T, text, j, m) <==> m < |T.specials| && MatchesAt(T, text, j, m);
  }

  lemma {:induction false} NextIsFirst(T: Tok, text: seq<byte>, i: nat, hits: seq<(nat, nat)>)
    requires i <= |text| && Leftmost(T, text, i, hits)
    ensures NextHit(T, text, i) == if hits == [] then None else Some(hits[0])
  {
    var next := NextHit(T, text, i);
    forall j | i <= j < |text|
      ensures NoHit(T, text, j) <==> forall n: nat :: !Stands(T, text, j, n)
    {
      NoHitIs(T, text, j);
    }
    if next.Some? {
      HitIs(T, text, next.value.0, next.value.1);
      assert hits != [];
      SameHit(T, text, i, next.value.0, next.value.1, hits[0].0, hits[0].1);
    } else if hits != [] {
      NoHitIs(T, text, hits[0].0);
      assert false;
    }
  }

  lemma {:induction false} SameHit(T: Tok, text: seq<byte>, i: nat, a: nat, n: nat, b: nat, m: nat)
    requires i <= a && HitAt(T, text, a, n) && forall j :: i <= j < a ==> NoHit(T, text, j)
    requires i <= b && Stands(T, text, b, m) && NoneStands(T, text, i, b)
    requires forall l: nat :: l < m ==> !Stands(T, text, b, l)
    ensures a == b && n == m
  {
    HitIs(T, text, a, n);
    if b < a {
      NoHitIs(T, text, b);
      assert false;
    }
    assert a == b;
  }

  /** Every text has such occurrences. */
  lemma {:induction false} LeftmostExists(T: Tok, text: seq<byte>, i: nat) returns (hits: seq<(nat, nat)>)
    requires i <= |text|
    ensures Leftmost(T, text, i, hits)
    decreases |text| - i
  {
    var next := NextHit(T, text, i);
    var end := if next.Some? then next.value.0 else |text|;
    forall j: nat, m: nat | i <= j < end
      ensures !Stands(T, text, j, m)
    {
      assert NoHit(T, text, j);
      NoHitIs(T, text, j);
    }
    hits := [];
    if next.Some? {
      var (pos, n) := next.value;
      HitIs(T, text, pos, n);
      var rest := LeftmostExists(T, text, pos + |T.specials[n].text|);
      hits := [(pos, n)] + rest;
      assert hits[1..] == rest;
    }
  }

  // ---- Trusted text ------------------------------------------------------------------------

  predicate Within(T: Tok, text: seq<byte>, i: nat, hit: (nat, nat)) {
    i <= hit.0 && hit.1 < |T.specials| && hit.0 + |T.specials[hit.1].text| <= |text|
  }

  /** Plain encodings of the gaps, with the added tokens between them. */
  function Woven(T: Tok, plain: Emitter, text: seq<byte>, i: nat, hits: seq<(nat, nat)>): seq<nat>
    requires i <= |text|
    decreases |hits|
  {
    if hits == [] || !Within(T, text, i, hits[0]) then plain(text[i..])
    else
      plain(text[i..hits[0].0]) + [T.specials[hits[0].1].id]
      + Woven(T, plain, text, hits[0].0 + |T.specials[hits[0].1].text|, hits[1..])
  }

  lemma {:induction false} LeftmostHits(T: Tok, text: seq<byte>, i: nat, hits: seq<(nat, nat)>)
    requires hits != [] && Leftmost(T, text, i, hits)
    ensures Within(T, text, i, hits[0]) && i < |text|
    ensures Leftmost(T, text, hits[0].0 + |T.specials[hits[0].1].text|, hits[1..])
  {
  }

  lemma {:induction false} BeforeIs(f: Chunker, plain: Emitter, text: seq<byte>, i: nat, pos: nat)
    requires Local(f, plain) && plain([]) == [] && i <= pos <= |text|
    ensures Before(f, text, i, pos) == plain(text[i..pos])
  {
    if pos == i {
      assert text[i..pos] == [];
    } else {
      assert Wanted(text[..pos], i);
      assert text[..pos][i..] == text[i..pos];
    }
  }

  lemma {:induction false} WovenFrom(T: Tok, f: Chunker, plain: Emitter, text: seq<byte>, i: nat,
                                     hits: seq<(nat, nat)>)
    requires Local(f, plain) && plain([]) == [] && i <= |text| && Leftmost(T, text, i, hits)
    ensures EncodeFrom(T, f, text, i) == Woven(T, plain, text, i, hits)
    decreases |hits|
  {
    NextIsFirst(T, text, i, hits);
    if hits == [] {
      assert Wanted(text, i);
      assert i == |text| ==> text[i..] == [];
    } else {
      LeftmostHits(T, text, i, hits);
      BeforeIs(f, plain, text, i, hits[0].0);
      WovenFrom(T, f, plain, text, hits[0].0 + |T.specials[hits[0].1].text|, hits[1..]);
    }
  }

  lemma EmptyEncoding(T: Tok, k: Classes)
    ensures Encode(T, k, [], false) == []
  {
  }

  /** With leave, text is cut at the leftmost occurrences of added tokens, and each gap is
      encoded as untrusted text of its own. */
  lemma {:induction false} TrustedIsWoven(T: Tok, k: Classes, text: seq<byte>, hits: seq<(nat, nat)>)
    requires Leftmost(T, text, 0, hits)
    ensures Encode(T, k, text, true) == Woven(T, Plainly(T, k), text, 0, hits)
  {
    ChunksAreLocal(T, k);
    EmptyEncoding(T, k);
    WovenFrom(T, ChunkOf(T, k), Plainly(T, k), text, 0, hits);
  }

  /** The added tokens among the ids, in order. */
  function AddedOnly(T: Tok, ids: seq<nat>): seq<nat> {
    if ids == [] then []
    else
      var front, last := AddedOnly(T, ids[..|ids| - 1]), ids[|ids| - 1];
      if last in T.added then front + [last] else front
  }

  lemma {:induction false} AddedConcat(T: Tok, a: seq<nat>, b: seq<nat>)
    ensures AddedOnly(T, a + b) == AddedOnly(T, a) + AddedOnly(T, b)
  {
    if b == [] {
      assert a + b == a;
    } else {
      AddedConcat(T, a, b[..|b| - 1]);
      assert (a + b)[..|a + b| - 1] == a + b[..|b| - 1];
    }
  }

  lemma {:induction false} AddedNone(T: Tok, ids: seq<nat>)
    requires NoneAdded(T, ids)
    ensures AddedOnly(T, ids) == []
  {
    if ids != [] { AddedNone(T, ids[..|ids| - 1]); }
  }

  function HitIds(T: Tok, hits: seq<(nat, nat)>): seq<nat>
    requires forall h :: h in hits ==> h.1 < |T.specials|
  {
    if hits == [] then [] else [T.specials[hits[0].1].id] + HitIds(T, hits[1..])
  }

  lemma {:induction false} HitsKnown(T: Tok, text: seq<byte>, i: nat, hits: seq<(nat, nat)>)
    requires Leftmost(T, text, i, hits)
    ensures forall h :: h in hits ==> h.1 < |T.specials|
    decreases |hits|
  {
    if hits != [] { HitsKnown(T, text, hits[0].0 + |T.specials[hits[0].1].text|, hits[1..]); }
  }

  lemma {:induction false} WovenAdds(T: Tok, plain: Emitter, text: seq<byte>, i: nat, hits: seq<(nat, nat)>)
    requires WellFormed(T) && i <= |text| && Leftmost(T, text, i, hits)
    requires forall w :: NoneAdded(T, plain(w))
    requires forall h :: h in hits ==> h.1 < |T.specials|
    ensures AddedOnly(T, Woven(T, plain, text, i, hits)) == HitIds(T, hits)
    decreases |hits|
  {
    if hits == [] {
      AddedNone(T, plain(text[i..]));
    } else {
      LeftmostHits(T, text, i, hits);
      var rest := hits[0].0 + |T.specials[hits[0].1].text|;
      WovenAdds(T, plain, text, rest, hits[1..]);
      GapAdds(T, plain(text[i..hits[0].0]), T.specials[hits[0].1].id, Woven(T, plain, text, rest, hits[1..]));
    }
  }

  lemma {:induction false} GapAdds(T: Tok, gap: seq<nat>, id: nat, rest: seq<nat>)
    requires NoneAdded(T, gap) && id in T.added
    ensures AddedOnly(T, gap + [id] + rest) == [id] + AddedOnly(T, rest)
  {
    AddedNone(T, gap);
    AddedConcat(T, gap, [id]);
    AddedConcat(T, gap + [id], rest);
    AddedOne(T, id);
  }

  lemma AddedOne(T: Tok, id: nat)
    requires id in T.added
    ensures AddedOnly(T, [id]) == [id]
  {
    assert [id][..0] == [];
  }

  /** The added tokens of a trusted encoding are exactly the leftmost occurrences in the
      text, in order; of an untrusted one there are none. */
  lemma {:induction false} AddedExactly(T: Tok, k: Classes, text: seq<byte>) returns (hits: seq<(nat, nat)>)
    requires WellFormed(T)
    ensures Leftmost(T, text, 0, hits) && forall h :: h in hits ==> h.1 < |T.specials|
    ensures AddedOnly(T, Encode(T, k, text, true)) == HitIds(T, hits)
    ensures AddedOnly(T, Encode(T, k, text, false)) == []
  {
    hits := LeftmostExists(T, text, 0);
    HitsKnown(T, text, 0, hits);
    TrustedIsWoven(T, k, text, hits);
    forall w
      ensures NoneAdded(T, Plainly(T, k)(w))
    {
      UntrustedIsPlain(T, k, w);
    }
    WovenAdds(T, Plainly(T, k), text, 0, hits);
    UntrustedIsPlain(T, k, text);
    AddedNone(T, Encode(T, k, text, false));
  }

  /** Reading a character of valid text gives the scalar value it spells. */
  lemma {:induction false} NextReadsCharacter(text: seq<byte>, i: nat, n: nat)
    requires i + n <= |text| && Utf8.Char(text[i..i + n])
    ensures i < |text| && Next(text, i) == (Utf8.Code(text[i..i + n]), n)
  {
    var c := text[i..i + n];
    Utf8.CodeOf(c);
    assert forall j :: 0 <= j < n ==> c[j] == text[i + j];
  }

  // ---- Plain text ----------------------------------------------------------------------------

  /** One after the other, first matches of the pattern end there, the last one at the end. */
  ghost predicate Matches(k: Classes, points: seq<nat>, i: nat, ends: seq<nat>)
    requires i <= |points|
    decreases |ends|
  {
    if ends == [] then i == |points|
    else
      && i < ends[0] <= |points| && Finds(Pattern(k, UpToThree(k)), points, i, ends[0])
      && Matches(k, points, ends[0], ends[1..])
  }

  lemma {:induction false} EndsMatch(k: Classes, points: seq<nat>, i: nat)
    requires NewlinesAreSpaces(k) && i <= |points|
    ensures Matches(k, points, i, PieceEnds(k, points, i))
    decreases |points| - i
  {
    if i < |points| {
      MatcherIsPattern(k, points, i);
      EndsMatch(k, points, PieceEnd(k, points, i));
      EndsNext(k, points, i);
    }
  }

  /** Untrusted text is cut where first matches of the pattern end, one after the other,
      and its ids are those of the pieces. */
  lemma {:induction false} PlainIsPieces(T: Tok, k: Classes, text: seq<byte>) returns (ends: seq<nat>)
    requires NewlinesAreSpaces(k)
    ensures Matches(k, Points(text, 0), 0, ends)
    ensures Encode(T, k, text, false) == CutIds(Emits(T), text, Offsets(text, 0), 0, ends)
  {
    ends := PieceEnds(k, Points(text, 0), 0);
    EndsMatch(k, Points(text, 0), 0);
    ChunkByEnds(T, k, text, 0);
  }

  // ---- One piece -------------------------------------------------------------------------------

  predicate Pair(T: Tok, parts: seq<seq<byte>>, p: nat) {
    p + 1 < |parts| && parts[p] + [0] + parts[p + 1] in T.merges
  }

  /** One merge: of all neighbours that may be merged, those of least rank, the leftmost
      among equals. */
  ghost predicate Fuses(T: Tok, a: seq<seq<byte>>, b: seq<seq<byte>>) {
    exists p: nat :: BestFuses(T, a, b, p)
  }

  ghost predicate BestFuses(T: Tok, a: seq<seq<byte>>, b: seq<seq<byte>>, p: nat) {
    && Pair(T, a, p) && b == a[..p] + [a[p] + a[p + 1]] + a[p + 2..]
    && forall q: nat :: Pair(T, a, q) ==>
         var best, other := T.merges[a[p] + [0] + a[p + 1]], T.merges[a[q] + [0] + a[q + 1]];
         best < other || (best == other && p <= q)
  }

  /** Merging from `parts` to `last`, one merge after the other, until none is left. */
  ghost predicate Merges(T: Tok, steps: seq<seq<seq<byte>>>, parts: seq<seq<byte>>, last: seq<seq<byte>>) {
    && steps != [] && steps[0] == parts && steps[|steps| - 1] == last
    && (forall i :: 0 <= i < |steps| - 1 ==> Fuses(T, steps[i], steps[i + 1]))
    && forall p: nat :: !Pair(T, last, p)
  }

  lemma {:induction false} BpeMerges(T: Tok, parts: seq<seq<byte>>) returns (steps: seq<seq<seq<byte>>>)
    ensures Merges(T, steps, parts, Bpe(T, parts))
    decreases |parts|
  {
    if p: nat :| IsBest(T, parts, p) {
      BpeStep(T, parts, p);
      BestIsFused(T, parts, p);
      var rest := BpeMerges(T, Merge(parts, p));
      steps := [parts] + rest;
      MergesCons(T, parts, rest, Merge(parts, p), Bpe(T, parts));
    } else {
      steps := [parts];
      NothingMerges(T, parts);
    }
  }

  lemma {:induction false} MergesCons(T: Tok, parts: seq<seq<byte>>, rest: seq<seq<seq<byte>>>,
                                      next: seq<seq<byte>>, last: seq<seq<byte>>)
    requires Fuses(T, parts, next) && Merges(T, rest, next, last)
    ensures Merges(T, [parts] + rest, parts, last)
  {
    var steps := [parts] + rest;
    forall i | 0 <= i < |steps| - 1
      ensures Fuses(T, steps[i], steps[i + 1])
    {
      if i > 0 { assert Fuses(T, rest[i - 1], rest[i]); }
    }
  }

  lemma {:induction false} NothingMerges(T: Tok, parts: seq<seq<byte>>)
    requires forall p: nat :: !IsBest(T, parts, p)
    ensures Merges(T, [parts], parts, parts)
  {
    forall p: nat
      ensures !Pair(T, parts, p)
    {
      if Pair(T, parts, p) { var q := BestExists(T, parts, p); }
    }
  }

  lemma BestIsFused(T: Tok, parts: seq<seq<byte>>, p: nat)
    requires IsBest(T, parts, p)
    ensures Fuses(T, parts, Merge(parts, p))
  {
    assert forall q: nat :: Pair(T, parts, q) ==> Mergeable(T, parts, q);
    assert BestFuses(T, parts, Merge(parts, p), p);
  }

  lemma {:induction false} BestExists(T: Tok, parts: seq<seq<byte>>, p: nat) returns (q: nat)
    requires Mergeable(T, parts, p)
    ensures IsBest(T, parts, q)
    decreases Rank(T, parts, p), p
  {
    if r: nat :| Mergeable(T, parts, r) && (Rank(T, parts, r) < Rank(T, parts, p)
                                            || (Rank(T, parts, r) == Rank(T, parts, p) && r < p)) {
      q := BestExists(T, parts, r);
    } else {
      q := p;
    }
  }

  /** A piece found whole in the vocabulary is one id when merges are to be ignored there;
      any other is what best-first merging leaves of its bytes, each part by its id. */
  lemma {:induction false} PieceExactly(T: Tok, w: seq<byte>)
    returns (steps: seq<seq<seq<byte>>>, parts: seq<seq<byte>>)
    ensures T.ignoreMerges && Spell(w) in T.vocab ==> PieceIds(T, w) == [T.vocab[Spell(w)]]
    ensures !(T.ignoreMerges && Spell(w) in T.vocab) ==> PieceIds(T, w) == Ids(T, parts)
    ensures |steps| > 0 && |steps[0]| == |w| && (forall i :: 0 <= i < |w| ==> steps[0][i] == Spelling(w[i]))
    ensures Merges(T, steps, steps[0], parts)
  {
    parts := Bpe(T, Symbols(w));
    steps := BpeMerges(T, Symbols(w));
  }
}
