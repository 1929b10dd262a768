/** Encoding text to ids and decoding it back (tok_encode_policy and tok_decode
    in src/tok.h): nothing is lost, whatever the bytes. */
module TokCodec {
  import opened Basics
  import opened TokBytes
  import opened TokBpe
  import opened TokPretok

  // ---- A chunk: code points, pieces, ids ---------------------------------------

  /** Start offsets of the code points of text from i on, and its end. */
  function Offsets(text: seq<byte>, i: nat): (r: seq<nat>)
    requires i <= |text|
    ensures |r| > 0
    decreases |text| - i
  {
    if i == |text| then [i] else [i] + Offsets(text, i + Next(text, i).1)
  }

  /** Offsets rise from i to the end of the text. */
  ghost predicate Rising(offs: seq<nat>, n: nat) {
    && |offs| > 0 && offs[|offs| - 1] == n
    && (forall j :: 0 <= j < |offs| ==> offs[j] <= n)
    && (forall j, l :: 0 <= j < l < |offs| ==> offs[j] < offs[l])
  }

  lemma {:induction false} OffsetsRise(text: seq<byte>, i: nat)
    requires i <= |text|
    ensures Rising(Offsets(text, i), |text|) && Offsets(text, i)[0] == i
    decreases |text| - i
  {
    if i < |text| {
      OffsetsRise(text, i + Next(text, i).1);
    }
  }

  function Points(text: seq<byte>, i: nat): (r: seq<nat>)
    requires i <= |text|
    ensures |r| == |Offsets(text, i)| - 1
    decreases |text| - i
  {
    if i == |text| then [] else [Next(text, i).0] + Points(text, i + Next(text, i).1)
  }

  /** Ids of the pieces from code point i on. */
  ghost function PiecesIds(T: Tok, k: Classes, text: seq<byte>, offs: seq<nat>, points: seq<nat>, i: nat): seq<nat>
    requires |offs| == |points| + 1 && i <= |points| && Rising(offs, |text|)
    decreases |points| - i
  {
    if i == |points| then []
    else
      var e := PieceEnd(k, points, i);
      PieceIds(T, text[offs[i]..offs[e]]) + PiecesIds(T, k, text, offs, points, e)
  }

  /** pretok_chunk on text from a on; the chunk ends where text does. */
  ghost function ChunkIds(T: Tok, k: Classes, text: seq<byte>, a: nat): seq<nat>
    requires a <= |text|
  {
    OffsetsRise(text, a);
    PiecesIds(T, k, text, Offsets(text, a), Points(text, a), 0)
  }

  /** The ids decode to w and are no more than its bytes. */
  ghost predicate Reads(T: Tok, ids: seq<nat>, w: seq<byte>) {
    TextOf(T, ids) == w && |ids| <= |w|
  }

  lemma {:induction false} ReadsConcat(T: Tok, a: seq<nat>, u: seq<byte>, b: seq<nat>, w: seq<byte>)
    requires Reads(T, a, u) && Reads(T, b, w)
    ensures Reads(T, a + b, u + w)
  {
    TextOfConcat(T, a, b);
  }

  lemma Cut(text: seq<byte>, a: nat, b: nat)
    requires a <= b <= |text|
    ensures text[a..] == text[a..b] + text[b..]
  {
  }

  lemma CutTwice(text: seq<byte>, a: nat, b: nat, c: nat)
    requires a <= b <= c <= |text|
    ensures text[a..] == text[a..b] + text[b..c] + text[c..]
  {
  }

  lemma ReadsNothing(T: Tok)
    ensures Reads(T, [], [])
  {
  }

  lemma {:induction false} PiecesRoundTrip(T: Tok, k: Classes, text: seq<byte>, offs: seq<nat>, points: seq<nat>,
                                           i: nat)
    requires WellFormed(T)
    requires |offs| == |points| + 1 && i <= |points| && Rising(offs, |text|)
    ensures Reads(T, PiecesIds(T, k, text, offs, points, i), text[offs[i]..])
    decreases |points| - i
  {
    if i < |points| {
      var e := PieceEnd(k, points, i);
      var w, rest := text[offs[i]..offs[e]], PiecesIds(T, k, text, offs, points, e);
      PieceReads(T, w);
      PiecesRoundTrip(T, k, text, offs, points, e);
      ReadsConcat(T, PieceIds(T, w), w, rest, text[offs[e]..]);
      Cut(text, offs[i], offs[e]);
    } else {
      ReadsNothing(T);
      assert text[offs[i]..] == [];
    }
  }

  lemma {:induction false} PieceReads(T: Tok, w: seq<byte>)
    requires WellFormed(T) && w != []
    ensures Reads(T, PieceIds(T, w), w)
  {
    PieceRoundTrip(T, w);
  }

  /** The pieces of a chunk cover it: decoding its ids gives it back. */
  lemma {:induction false} ChunkRoundTrip(T: Tok, k: Classes, text: seq<byte>, a: nat)
    requires WellFormed(T) && a <= |text|
    ensures Reads(T, ChunkIds(T, k, text, a), text[a..])
  {
    OffsetsRise(text, a);
    PiecesRoundTrip(T, k, text, Offsets(text, a), Points(text, a), 0);
  }

  // ---- Added tokens -----------------------------------------------------------------

  predicate MatchesAt(T: Tok, text: seq<byte>, j: nat, n: nat)
    requires n < |T.specials|
  {
    var t := T.specials[n].text;
    t != [] && j + |t| <= |text| && text[j..j + |t|] == t
  }

  /** The first added token, in list order, that matches at j. */
  ghost predicate HitAt(T: Tok, text: seq<byte>, j: nat, n: nat) {
    && n < |T.specials| && MatchesAt(T, text, j, n)
    && forall m: nat :: m < n ==> !MatchesAt(T, text, j, m)
  }

  ghost predicate NoHit(T: Tok, text: seq<byte>, j: nat) {
    forall m: nat :: m < |T.specials| ==> !MatchesAt(T, text, j, m)
  }

  /** The next occurrence of an added token from i on: where, and which. */
  ghost function NextHit(T: Tok, text: seq<byte>, i: nat): (r: Option<(nat, nat)>)
    requires i <= |text|
    ensures r.Some? ==> i <= r.value.0 && HitAt(T, text, r.value.0, r.value.1)
                        && forall j :: i <= j < r.value.0 ==> NoHit(T, text, j)
    ensures r.None? ==> forall j :: i <= j < |text| ==> NoHit(T, text, j)
    decreases |text| - i
  {
    if i == |text| then None
    else if NoHit(T, text, i) then NextHit(T, text, i + 1)
    else
      assert exists n: nat :: HitAt(T, text, i, n) by {
        var m: nat :| m < |T.specials| && MatchesAt(T, text, i, m);
        var n := LeastHit(T, text, i, m);
      }
      var n: nat :| HitAt(T, text, i, n);
      Some((i, n))
  }

  lemma {:induction false} LeastHit(T: Tok, text: seq<byte>, j: nat, m: nat) returns (n: nat)
    requires m < |T.specials| && MatchesAt(T, text, j, m)
    ensures HitAt(T, text, j, n)
    decreases m
  {
    if exists l: nat :: l < m && MatchesAt(T, text, j, l) {
      var l: nat :| l < m && MatchesAt(T, text, j, l);
      n := LeastHit(T, text, j, l);
    } else {
      n := m;
    }
  }

  // ---- Encoding ------------------------------------------------------------------------

  /** How a chunk of plain text becomes ids: text, from where. */
  type Chunker = (seq<byte>, nat) -> seq<nat>

  ghost function ChunkOf(T: Tok, k: Classes): Chunker {
    (text: seq<byte>, i: nat) => if i <= |text| then ChunkIds(T, k, text, i) else []
  }

  /** What precedes an added token, if anything. */
  function Before(f: Chunker, text: seq<byte>, i: nat, pos: nat): seq<nat>
    requires i <= pos <= |text|
  {
    if pos > i then f(text[..pos], i) else []
  }

  ghost function EncodeFrom(T: Tok, f: Chunker, text: seq<byte>, i: nat): seq<nat>
    requires i <= |text|
    decreases |text| - i
  {
    if i == |text| then []
    else
      var hit := NextHit(T, text, i);
      if hit.None? then f(text, i)
      else
        Before(f, text, i, hit.value.0) + [T.specials[hit.value.1].id]
        + EncodeFrom(T, f, text, hit.value.0 + |T.specials[hit.value.1].text|)
  }

  ghost function Encode(T: Tok, k: Classes, text: seq<byte>, allowAdded: bool): seq<nat> {
    if allowAdded then EncodeFrom(T, ChunkOf(T, k), text, 0) else ChunkIds(T, k, text, 0)
  }

  /** Marks the chunks about which a chunker is to be unfolded. */
  predicate Wanted(text: seq<byte>, i: nat) {
    true
  }

  /** Every chunk reads back. */
  ghost predicate Lossless(T: Tok, f: Chunker) {
    forall text, i {:trigger Wanted(text, i)} :: 0 <= i <= |text| && Wanted(text, i) ==> Reads(T, f(text, i), text[i..])
  }

  lemma {:induction false} SpecialReads(T: Tok, n: nat)
    requires WellFormed(T) && n < |T.specials| && T.specials[n].text != []
    ensures Reads(T, [T.specials[n].id], T.specials[n].text)
  {
    TextOfSnoc(T, [], T.specials[n].id);
    assert [] + [T.specials[n].id] == [T.specials[n].id];
  }

  lemma {:induction false} BeforeReads(T: Tok, f: Chunker, text: seq<byte>, i: nat, pos: nat)
    requires Lossless(T, f) && i <= pos <= |text|
    ensures Reads(T, Before(f, text, i, pos), text[i..pos])
  {
    if pos > i {
      assert Wanted(text[..pos], i);
      assert text[..pos][i..] == text[i..pos];
    } else {
      ReadsNothing(T);
      assert text[i..pos] == [];
    }
  }

  /** Chunk, added token, rest. */
  lemma {:induction false} HitReads(T: Tok, f: Chunker, text: seq<byte>, i: nat, pos: nat, n: nat, rest: seq<nat>)
    requires WellFormed(T) && Lossless(T, f) && i <= pos <= |text| && HitAt(T, text, pos, n)
    requires Reads(T, rest, text[pos + |T.specials[n].text|..])
    ensures Reads(T, Before(f, text, i, pos) + [T.specials[n].id] + rest, text[i..])
  {
    var special := T.specials[n];
    var end, before := pos + |special.text|, Before(f, text, i, pos);
    BeforeReads(T, f, text, i, pos);
    SpecialReads(T, n);
    CutTwice(text, i, pos, end);
    ReadsThree(T, before, text[i..pos], [special.id], special.text, rest, text[end..]);
  }

  lemma {:induction false} ReadsThree(T: Tok, a: seq<nat>, u: seq<byte>, b: seq<nat>, w: seq<byte>, c: seq<nat>,
                                      z: seq<byte>)
    requires Reads(T, a, u) && Reads(T, b, w) && Reads(T, c, z)
    ensures Reads(T, a + b + c, u + w + z)
  {
    ReadsConcat(T, a, u, b, w);
    ReadsConcat(T, a + b, u + w, c, z);
  }

  lemma {:induction false} EncodeFromRoundTrip(T: Tok, f: Chunker, text: seq<byte>, i: nat)
    requires WellFormed(T) && Lossless(T, f) && i <= |text|
    ensures Reads(T, EncodeFrom(T, f, text, i), text[i..])
    decreases |text| - i
  {
    if i == |text| {
      ReadsNothing(T);
      assert text[i..] == [];
    } else {
      var hit := NextHit(T, text, i);
      if hit.Some? {
        var end := hit.value.0 + |T.specials[hit.value.1].text|;
        EncodeFromRoundTrip(T, f, text, end);
        HitReads(T, f, text, i, hit.value.0, hit.value.1, EncodeFrom(T, f, text, end));
      } else {
        assert Wanted(text, i);
      }
    }
  }

  /** Decoding an encoding gives back the bytes, under either policy, and an
      encoding is never longer than its text. */
  lemma {:induction false} RoundTrip(T: Tok, k: Classes, text: seq<byte>, allowAdded: bool)
    requires WellFormed(T)
    ensures TextOf(T, Encode(T, k, text, allowAdded)) == text
    ensures |Encode(T, k, text, allowAdded)| <= |text|
  {
    if allowAdded {
      forall text: seq<byte>, i: nat | i <= |text|
        ensures Reads(T, ChunkOf(T, k)(text, i), text[i..])
      {
        ChunkRoundTrip(T, k, text, i);
      }
      EncodeFromRoundTrip(T, ChunkOf(T, k), text, 0);
    } else {
      ChunkRoundTrip(T, k, text, 0);
    }
    assert text[0..] == text;
  }

  // ---- As it runs ---------------------------------------------------------------------

  lemma PointsStep(text: seq<byte>, i: nat)
    requires i < |text|
    ensures Offsets(text, i) == [i] + Offsets(text, i + Next(text, i).1)
    ensures Points(text, i) == [Next(text, i).0] + Points(text, i + Next(text, i).1)
  {
  }

  /** The decoding loop at the start of pretok_chunk. */
  method SplitPoints(text: seq<byte>, a: nat) returns (offs: seq<nat>, points: seq<nat>)
    requires a <= |text|
    ensures offs == Offsets(text, a) && points == Points(text, a)
  {
    offs, points := [], [];
    var i := a;
    ghost var moreOffs, morePoints := Offsets(text, a), Points(text, a);
    while i < |text|
      invariant a <= i <= |text|
      invariant moreOffs == Offsets(text, i) && Offsets(text, a) == offs + moreOffs
      invariant morePoints == Points(text, i) && Points(text, a) == points + morePoints
    {
      var (c, k) := Next(text, i);
      PointsStep(text, i);
      Assoc(offs, [i], Offsets(text, i + k));
      Assoc(points, [c], Points(text, i + k));
      offs, points := offs + [i], points + [c];
      i := i + k;
      moreOffs, morePoints := Offsets(text, i), Points(text, i);
    }
    offs := offs + [i];
  }

  /** pretok_chunk: the ids of [a, b) appended to the output, as far as it has room. */
  method PretokChunk(T: Tok, k: Classes, p: seq<byte>, a: nat, b: nat, out: array<nat>, no: nat) returns (n: nat)
    requires a <= b <= |p| && no <= out.Length
    modifies out
    ensures n <= out.Length && out[..n] == Capped(old(out[..no]) + ChunkIds(T, k, p[..b], a), out.Length)
  {
    var text := p[..b];
    var offs, points := SplitPoints(text, a);
    OffsetsRise(text, a);
    n := EmitPieces(T, k, text, offs, points, out, no);
  }

  /** The piece loop. */
  method EmitPieces(T: Tok, k: Classes, text: seq<byte>, offs: seq<nat>, points: seq<nat>, out: array<nat>, no: nat)
    returns (n: nat)
    requires |offs| == |points| + 1 && Rising(offs, |text|) && no <= out.Length
    modifies out
    ensures n <= out.Length && out[..n] == Capped(old(out[..no]) + PiecesIds(T, k, text, offs, points, 0), out.Length)
  {
    ghost var goal := out[..no] + PiecesIds(T, k, text, offs, points, 0);
    ghost var sofar := out[..no];
    n := no;
    var i := 0;
    while i < |points|
      invariant 0 <= i <= |points| && n <= out.Length
      invariant goal == sofar + PiecesIds(T, k, text, offs, points, i)
      invariant out[..n] == Capped(sofar, out.Length)
    {
      var e := NextPiece(k, points, i);
      ghost var ids := PieceIds(T, text[offs[i]..offs[e]]);
      Assoc(sofar, ids, PiecesIds(T, k, text, offs, points, e));
      n := BpePiece(T, text, offs[i], offs[e], out, n);
      CappedAppend(sofar, ids, out.Length);
      sofar := sofar + ids;
      i := e;
    }
  }

  /** The search for the next added token. */
  method FindHit(T: Tok, text: seq<byte>, i: nat) returns (hit: Option<(nat, nat)>)
    requires i <= |text|
    ensures hit == NextHit(T, text, i)
  {
    var j := i;
    while j < |text|
      invariant i <= j <= |text| && NextHit(T, text, i) == NextHit(T, text, j)
    {
      var n := 0;
      while n < |T.specials|
        invariant 0 <= n <= |T.specials|
        invariant forall m: nat :: m < n ==> !MatchesAt(T, text, j, m)
      {
        if MatchesAt(T, text, j, n) {
          assert HitAt(T, text, j, n);
          assert forall m: nat :: HitAt(T, text, j, m) ==> m == n;
          return Some((j, n));
        }
        n := n + 1;
      }
      assert NoHit(T, text, j);
      j := j + 1;
    }
    return None;
  }

  /** tok_encode_policy: writes what fits of the encoding. */
  method EncodePolicy(T: Tok, k: Classes, text: seq<byte>, allowAdded: bool, out: array<nat>) returns (n: nat)
    modifies out
    ensures n <= out.Length && out[..n] == Capped(Encode(T, k, text, allowAdded), out.Length)
  {
    assert out[..0] == [];
    if !allowAdded {
      assert text[..|text|] == text;
      n := PretokChunk(T, k, text, 0, |text|, out, 0);
      assert [] + ChunkIds(T, k, text, 0) == ChunkIds(T, k, text, 0);
      return;
    }
    n := EncodeLoop(T, k, text, out, ChunkOf(T, k));
  }

  ghost predicate Chunks(f: Chunker, T: Tok, k: Classes) {
    forall text, i {:trigger Wanted(text, i)} :: 0 <= i <= |text| && Wanted(text, i)
      ==> f(text, i) == ChunkIds(T, k, text, i)
  }

  method EncodeLoop(T: Tok, k: Classes, text: seq<byte>, out: array<nat>, ghost f: Chunker) returns (n: nat)
    requires Chunks(f, T, k)
    modifies out
    ensures n <= out.Length && out[..n] == Capped(EncodeFrom(T, f, text, 0), out.Length)
  {
    n := 0;
    var i := 0;
    ghost var goal, sofar := EncodeFrom(T, f, text, 0), [];
    while i < |text|
      invariant 0 <= i <= |text| && n <= out.Length
      invariant goal == sofar + EncodeFrom(T, f, text, i)
      invariant out[..n] == Capped(sofar, out.Length)
    {
      var hit := FindHit(T, text, i);
      if hit.None? {
        n := EncodeTail(T, k, text, i, out, n, f, sofar);
        return;
      }
      var (pos, m) := hit.value;
      n := EncodeHit(T, k, text, i, pos, T.specials[m].id, out, n, f, sofar);
      EncodeStep(T, f, text, i, pos, m, sofar);
      sofar := sofar + Before(f, text, i, pos) + [T.specials[m].id];
      i := pos + |T.specials[m].text|;
    }
  }

  /** No added token is left: the rest is one chunk. */
  method EncodeTail(T: Tok, k: Classes, text: seq<byte>, i: nat, out: array<nat>, no: nat, ghost f: Chunker,
                    ghost sofar: seq<nat>)
    returns (n: nat)
    requires Chunks(f, T, k)
    requires i < |text| && NextHit(T, text, i).None? && no <= out.Length && out[..no] == Capped(sofar, out.Length)
    modifies out
    ensures n <= out.Length && out[..n] == Capped(sofar + EncodeFrom(T, f, text, i), out.Length)
  {
    assert text[..|text|] == text;
    assert Wanted(text, i);
    n := PretokChunk(T, k, text, i, |text|, out, no);
    CappedAppend(sofar, ChunkIds(T, k, text, i), out.Length);
  }

  /** The chunk before an added token, then its id. */
  method EncodeHit(T: Tok, k: Classes, text: seq<byte>, i: nat, pos: nat, id: nat, out: array<nat>, no: nat,
                   ghost f: Chunker, ghost done: seq<nat>)
    returns (n: nat)
    requires Chunks(f, T, k)
    requires i <= pos <= |text| && no <= out.Length && out[..no] == Capped(done, out.Length)
    modifies out
    ensures n <= out.Length && out[..n] == Capped(done + Before(f, text, i, pos) + [id], out.Length)
  {
    n := no;
    ghost var before := Before(f, text, i, pos);
    if pos > i {
      assert Wanted(text[..pos], i);
      n := PretokChunk(T, k, text, i, pos, out, n);
      CappedAppend(done, before, out.Length);
    } else {
      assert done + before == done;
    }
    n := Emit(id, out, n);
    CappedAppend(done + before, [id], out.Length);
  }

  lemma Assoc3<X>(a: seq<X>, b: seq<X>, c: seq<X>, d: seq<X>)
    ensures a + (b + c + d) == a + b + c + d
  {
  }

  lemma {:induction false} EncodeStep(T: Tok, f: Chunker, text: seq<byte>, i: nat, pos: nat, m: nat, done: seq<nat>)
    requires i < |text| && NextHit(T, text, i) == Some((pos, m))
    ensures done + EncodeFrom(T, f, text, i)
            == done + Before(f, text, i, pos) + [T.specials[m].id] + EncodeFrom(T, f, text, pos + |T.specials[m].text|)
  {
    Assoc3(done, Before(f, text, i, pos), [T.specials[m].id], EncodeFrom(T, f, text, pos + |T.specials[m].text|));
  }

  /** The characters one id decodes to, appended as far as there is room. */
  method DecodeOne(T: Tok, cpToByte: array<int>, ghost to: seq<nat>, id: nat, out: array<byte>, no: nat)
    returns (n: nat)
    requires Tables(to, cpToByte[..], 256) && no <= out.Length
    modifies out
    ensures n <= out.Length && out[..n] == Capped(old(out[..no]) + Text(T, id), out.Length)
  {
    if id !in T.idText {
      assert out[..no] + [] == out[..no];
      return no;
    }
    if id in T.added {
      n := PutLiteral(T.idText[id], out, no);
    } else {
      n := PutUnspelled(T.idText[id], cpToByte, to, out, no);
    }
  }

  /** An added token is copied as it stands. */
  method PutLiteral(s: seq<byte>, out: array<byte>, no: nat) returns (n: nat)
    requires no <= out.Length
    modifies out
    ensures n <= out.Length && out[..n] == Capped(old(out[..no]) + s, out.Length)
  {
    ghost var start := out[..no];
    n := no;
    var j := 0;
    assert start + s[..0] == start;
    while j < |s|
      invariant 0 <= j <= |s| && n <= out.Length
      invariant out[..n] == Capped(start + s[..j], out.Length)
    {
      CappedAppend(start + s[..j], [s[j]], out.Length);
      assert start + s[..j] + [s[j]] == start + s[..j + 1];
      n := PutByte(s[j], out, n);
      j := j + 1;
    }
    assert s[..|s|] == s;
  }

  /** A vocabulary string is read back through the inverse table. */
  method PutUnspelled(s: seq<byte>, cpToByte: array<int>, ghost to: seq<nat>, out: array<byte>, no: nat)
    returns (n: nat)
    requires Tables(to, cpToByte[..], 256) && no <= out.Length
    modifies out
    ensures n <= out.Length && out[..n] == Capped(old(out[..no]) + Unspell(s, 0), out.Length)
  {
    n := no;
    var j := 0;
    ghost var goal, sofar := out[..no] + Unspell(s, 0), out[..no];
    while j < |s|
      invariant 0 <= j <= |s| && n <= out.Length
      invariant goal == sofar + Unspell(s, j)
      invariant out[..n] == Capped(sofar, out.Length)
    {
      var (c, k) := Next(s, j);
      TableByte(to, cpToByte[..], c);
      ghost var more: seq<byte> := if ByteOf(c).Some? then [ByteOf(c).value] else [];
      Assoc(sofar, more, Unspell(s, j + k));
      CappedAppend(sofar, more, out.Length);
      if c < 1024 && cpToByte[c] >= 0 {
        n := PutByte(cpToByte[c], out, n);
      } else {
        assert sofar + more == sofar;
      }
      sofar := sofar + more;
      j := j + k;
    }
  }

  /** The inverse table answers the byte a code point stands for. */
  lemma {:induction false} TableByte(to: seq<nat>, from: seq<int>, c: nat)
    requires Tables(to, from, 256)
    ensures ByteOf(c).Some? <==> c < 1024 && from[c] >= 0
    ensures ByteOf(c).Some? ==> from[c] == ByteOf(c).value
  {
    if c < 1024 && from[c] >= 0 {
      SymbolInjective(from[c], ByteOf(c).value);
    }
  }

  method PutByte(b: byte, out: array<byte>, no: nat) returns (n: nat)
    requires no <= out.Length
    modifies out
    ensures n <= out.Length && out[..n] == Capped(old(out[..no]) + [b], out.Length)
  {
    if no < out.Length {
      out[no] := b;
      return no + 1;
    }
    return no;
  }

  /** tok_decode. */
  method Decode(T: Tok, ids: seq<nat>, out: array<byte>) returns (n: nat)
    modifies out
    ensures n <= out.Length && out[..n] == Capped(TextOf(T, ids), out.Length)
  {
    var to, from := BuildByteMap();
    ghost var symbols := to[..];
    n := 0;
    var i := 0;
    assert out[..0] == [];
    while i < |ids|
      invariant 0 <= i <= |ids| && n <= out.Length
      invariant Tables(symbols, from[..], 256)
      invariant out[..n] == Capped(TextOf(T, ids[..i]), out.Length)
    {
      n := DecodeOne(T, from, symbols, ids[i], out, n);
      CappedAppend(TextOf(T, ids[..i]), Text(T, ids[i]), out.Length);
      TextOfSnoc(T, ids[..i], ids[i]);
      assert ids[..i] + [ids[i]] == ids[..i + 1];
      i := i + 1;
    }
    assert ids[..|ids|] == ids;
  }

  /** Encode into a buffer of one id a byte, decode into a buffer of the text's
      size: the text comes back. */
  method EncodeThenDecode(T: Tok, k: Classes, text: seq<byte>, allowAdded: bool) returns (back: seq<byte>)
    requires WellFormed(T)
    ensures back == text
  {
    RoundTrip(T, k, text, allowAdded);
    var ids := new nat[|text|];
    var n := EncodePolicy(T, k, text, allowAdded, ids);
    var bytes := new byte[|text|];
    var m := Decode(T, ids[..n], bytes);
    back := bytes[..m];
  }
}
