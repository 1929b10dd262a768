/** The sealed session file (QWSESS01): header, transcript, each layer's stepped
    words, and a digest of everything before it. One word stands for one written
    number, whatever its width in bytes. */
module SessionFile {
  import opened Basics
  import opened KvPlane
  import opened SessionSpec

  type Hash = seq<Word> -> seq<Word>

  ghost predicate HashShaped(hash: Hash) {
    forall s: seq<Word> :: |hash(s)| == 32
  }

  // ---- Writing --------------------------------------------------------------------

  function Magic(): seq<Word> { [81, 87, 83, 69, 83, 83, 48, 49] }

  function Joined(parts: seq<seq<Word>>): seq<Word> {
    if parts == [] then [] else Joined(parts[..|parts| - 1]) + parts[|parts| - 1]
  }

  function MemoryWords(m: Memory): seq<Word> {
    match m
    case Rows(k, v) => Joined(k) + Joined(v)
    case Recurrent(conv, state) => conv + state
  }

  function MindWords(mind: Mind): seq<Word> {
    if mind == [] then [] else MindWords(mind[..|mind| - 1]) + MemoryWords(mind[|mind| - 1])
  }

  function Types(attention: seq<bool>): (r: seq<Word>)
    ensures |r| == |attention|
  {
    seq(|attention|, (i: nat) requires i < |attention| => if attention[i] then 1 else 0)
  }

  /** Everything the digest covers. */
  function Body(geo: Geometry, tokens: seq<Token>, mind: Mind): seq<Word> {
    Magic() + (geo.numbers + ([|tokens|, |tokens| - 1] + (Types(geo.attention) + (tokens + MindWords(mind)))))
  }

  function Sealed(geo: Geometry, hash: Hash, tokens: seq<Token>, mind: Mind): seq<Word> {
    Body(geo, tokens, mind) + hash(Body(geo, tokens, mind))
  }

  // ---- Reading ----------------------------------------------------------------------

  function Take(s: seq<Word>, n: nat): Read<Word, seq<Word>> {
    if n <= |s| then Got(s[..n], s[n..]) else Bad
  }

  function ReadParts(s: seq<Word>, count: nat, size: nat): Read<Word, seq<seq<Word>>> {
    if count == 0 then Got([], s)
    else match ReadParts(s, count - 1, size)
      case Bad => Bad
      case Got(parts, rest) =>
        match Take(rest, size)
        case Bad => Bad
        case Got(part, more) => Got(parts + [part], more)
  }

  function ReadPair(s: seq<Word>, a: nat, b: nat): Read<Word, (seq<Word>, seq<Word>)> {
    match Take(s, a)
    case Bad => Bad
    case Got(x, rest) =>
      match Take(rest, b)
      case Bad => Bad
      case Got(y, more) => Got((x, y), more)
  }

  function ReadRows(s: seq<Word>, heads: nat, size: nat): Read<Word, Memory> {
    match ReadParts(s, heads, size)
    case Bad => Bad
    case Got(k, rest) =>
      match ReadParts(rest, heads, size)
      case Bad => Bad
      case Got(v, more) => Got(Rows(k, v), more)
  }

  function ReadMemory(geo: Geometry, attention: bool, n: nat, s: seq<Word>): Read<Word, Memory> {
    if attention then ReadRows(s, geo.heads, Base(geo.dim, n))
    else match ReadPair(s, geo.convWords, geo.recurrentWords)
      case Bad => Bad
      case Got(pair, rest) => Got(Recurrent(pair.0, pair.1), rest)
  }

  /** The first `count` layers. */
  function ReadMind(geo: Geometry, n: nat, s: seq<Word>, count: nat): Read<Word, Mind>
    requires count <= |geo.attention|
  {
    if count == 0 then Got([], s)
    else match ReadMind(geo, n, s, count - 1)
      case Bad => Bad
      case Got(mind, rest) =>
        match ReadMemory(geo, geo.attention[count - 1], n, rest)
        case Bad => Bad
        case Got(m, more) => Got(mind + [m], more)
  }

  /** The header and the transcript, with every check resuming makes. */
  function ReadTokens(geo: Geometry, limit: nat, reserve: nat, s: seq<Word>): Read<Word, seq<Token>> {
    match ReadPair(s, 8, |geo.numbers|)
    case Bad => Bad
    case Got(head, rest) =>
      match Take(rest, 2)
      case Bad => Bad
      case Got(counts, rest2) =>
        if !(head.0 == Magic() && head.1 == geo.numbers && counts[0] >= 2 && counts[1] == counts[0] - 1
             && ContextFits(limit, counts[0], 0, reserve)) then Bad
        else match ReadPair(rest2, |geo.attention|, counts[0])
          case Bad => Bad
          case Got(pair, more) => if pair.0 == Types(geo.attention) then Got(pair.1, more) else Bad
  }

  // ---- Reading undoes writing and accepts nothing else ---------------------------------

  lemma TakeJoined(part: seq<Word>, rest: seq<Word>)
    ensures Take(part + rest, |part|) == Got(part, rest)
  {
  }

  lemma {:induction false} PartsComplete(parts: seq<seq<Word>>, count: nat, size: nat, rest: seq<Word>)
    requires Uniform(parts, count, size)
    ensures ReadParts(Joined(parts) + rest, count, size) == Got(parts, rest)
    decreases count
  {
    if count > 0 {
      var front, last := parts[..count - 1], parts[count - 1];
      Assoc(Joined(front), last, rest);
      PartsComplete(front, count - 1, size, last + rest);
      TakeJoined(last, rest);
      assert front + [last] == parts;
    } else {
      assert [] + rest == rest;
    }
  }

  lemma {:induction false} PartsSound(s: seq<Word>, count: nat, size: nat)
    requires ReadParts(s, count, size).Got?
    ensures var r := ReadParts(s, count, size);
            Uniform(r.value, count, size) && s == Joined(r.value) + r.rest
  {
    if count > 0 {
      PartsSound(s, count - 1, size);
      var r := ReadParts(s, count - 1, size);
      var part, more := r.rest[..size], r.rest[size..];
      assert r.rest == part + more;
      Assoc(Joined(r.value), part, more);
      assert (r.value + [part])[..count - 1] == r.value;
    }
  }

  lemma {:induction false} PairComplete(a: seq<Word>, b: seq<Word>, rest: seq<Word>)
    ensures ReadPair(a + b + rest, |a|, |b|) == Got((a, b), rest)
  {
    Assoc(a, b, rest);
    TakeJoined(a, b + rest);
    TakeJoined(b, rest);
  }

  lemma PairSound(s: seq<Word>, a: nat, b: nat)
    requires ReadPair(s, a, b).Got?
    ensures var r := ReadPair(s, a, b);
            |r.value.0| == a && |r.value.1| == b && s == r.value.0 + r.value.1 + r.rest
  {
  }

  lemma {:induction false} MemoryComplete(geo: Geometry, attention: bool, n: nat, m: Memory, rest: seq<Word>)
    requires MemoryShaped(geo, attention, n, m)
    ensures ReadMemory(geo, attention, n, MemoryWords(m) + rest) == Got(m, rest)
  {
    if attention {
      Assoc(Joined(m.k), Joined(m.v), rest);
      PartsComplete(m.k, geo.heads, Base(geo.dim, n), Joined(m.v) + rest);
      PartsComplete(m.v, geo.heads, Base(geo.dim, n), rest);
    } else {
      PairComplete(m.conv, m.state, rest);
    }
  }

  lemma {:induction false} MemorySound(geo: Geometry, attention: bool, n: nat, s: seq<Word>)
    requires ReadMemory(geo, attention, n, s).Got?
    ensures var r := ReadMemory(geo, attention, n, s);
            MemoryShaped(geo, attention, n, r.value) && s == MemoryWords(r.value) + r.rest
  {
    if attention {
      var size := Base(geo.dim, n);
      PartsSound(s, geo.heads, size);
      var k := ReadParts(s, geo.heads, size);
      PartsSound(k.rest, geo.heads, size);
      var v := ReadParts(k.rest, geo.heads, size);
      Assoc(Joined(k.value), Joined(v.value), v.rest);
    } else {
      PairSound(s, geo.convWords, geo.recurrentWords);
    }
  }

  lemma {:induction false} MindComplete(geo: Geometry, n: nat, mind: Mind, count: nat, rest: seq<Word>)
    requires |mind| == count <= |geo.attention|
    requires forall i :: 0 <= i < count ==> MemoryShaped(geo, geo.attention[i], n, mind[i])
    ensures ReadMind(geo, n, MindWords(mind) + rest, count) == Got(mind, rest)
    decreases count
  {
    if count > 0 {
      var front, last := mind[..count - 1], mind[count - 1];
      Assoc(MindWords(front), MemoryWords(last), rest);
      MindComplete(geo, n, front, count - 1, MemoryWords(last) + rest);
      MemoryComplete(geo, geo.attention[count - 1], n, last, rest);
      assert front + [last] == mind;
    } else {
      assert [] + rest == rest;
    }
  }

  ghost predicate MindReads(geo: Geometry, n: nat, s: seq<Word>, count: nat, mind: Mind, rest: seq<Word>)
    requires count <= |geo.attention|
  {
    && |mind| == count && s == MindWords(mind) + rest
    && forall i :: 0 <= i < count ==> MemoryShaped(geo, geo.attention[i], n, mind[i])
  }

  lemma {:induction false} MindReadsSnoc(geo: Geometry, n: nat, s: seq<Word>, count: nat, mind: Mind, rest: seq<Word>,
                                         m: Memory, more: seq<Word>)
    requires count < |geo.attention| && MindReads(geo, n, s, count, mind, rest)
    requires MemoryShaped(geo, geo.attention[count], n, m) && rest == MemoryWords(m) + more
    ensures MindReads(geo, n, s, count + 1, mind + [m], more)
  {
    Assoc(MindWords(mind), MemoryWords(m), more);
    assert (mind + [m])[..count] == mind;
  }

  lemma {:induction false} MindSound(geo: Geometry, n: nat, s: seq<Word>, count: nat)
    requires count <= |geo.attention| && ReadMind(geo, n, s, count).Got?
    ensures var r := ReadMind(geo, n, s, count); MindReads(geo, n, s, count, r.value, r.rest)
  {
    if count > 0 {
      ReadMindStep(geo, n, s, count - 1);
      MindSound(geo, n, s, count - 1);
      var r := ReadMind(geo, n, s, count - 1);
      MemorySound(geo, geo.attention[count - 1], n, r.rest);
      var m := ReadMemory(geo, geo.attention[count - 1], n, r.rest);
      MindReadsSnoc(geo, n, s, count - 1, r.value, r.rest, m.value, m.rest);
    } else {
      assert s == [] + s;
    }
  }

  /** Everything before the layers' words. */
  function Header(geo: Geometry, tokens: seq<Token>): seq<Word> {
    Magic() + (geo.numbers + ([|tokens|, |tokens| - 1] + (Types(geo.attention) + tokens)))
  }

  lemma BodySplits(geo: Geometry, tokens: seq<Token>, mind: Mind)
    ensures Body(geo, tokens, mind) == Header(geo, tokens) + MindWords(mind)
  {
  }

  lemma {:induction false} TokensComplete(geo: Geometry, limit: nat, reserve: nat, tokens: seq<Token>, rest: seq<Word>)
    requires |tokens| >= 2 && ContextFits(limit, |tokens|, 0, reserve)
    ensures ReadTokens(geo, limit, reserve, Header(geo, tokens) + rest) == Got(tokens, rest)
  {
    var counts, types := [|tokens|, |tokens| - 1], Types(geo.attention);
    var tail := types + tokens + rest;
    HeaderShape(geo, tokens, rest);
    PairComplete(Magic(), geo.numbers, counts + tail);
    TakeJoined(counts, tail);
    PairComplete(types, tokens, rest);
  }

  lemma HeaderShape(geo: Geometry, tokens: seq<Token>, rest: seq<Word>)
    ensures Header(geo, tokens) + rest
            == Magic() + geo.numbers + ([|tokens|, |tokens| - 1] + (Types(geo.attention) + tokens + rest))
  {
  }

  lemma {:induction false} TokensSound(geo: Geometry, limit: nat, reserve: nat, s: seq<Word>)
    requires ReadTokens(geo, limit, reserve, s).Got?
    ensures var r := ReadTokens(geo, limit, reserve, s);
            && |r.value| >= 2 && ContextFits(limit, |r.value|, 0, reserve)
            && s == Header(geo, r.value) + r.rest
  {
    PairSound(s, 8, |geo.numbers|);
    var head := ReadPair(s, 8, |geo.numbers|);
    var counts := Take(head.rest, 2);
    PairSound(counts.rest, |geo.attention|, counts.value[0]);
    var r := ReadTokens(geo, limit, reserve, s);
    assert counts.value == [|r.value|, |r.value| - 1];
    assert head.rest == counts.value + counts.rest;
    HeaderShape(geo, r.value, r.rest);
  }

  /** The layers and the digest. What follows the digest is not read. */
  function ReadRest(geo: Geometry, hash: Hash, tokens: seq<Token>, s: seq<Word>): Read<Word, (seq<Token>, Mind)>
    requires |tokens| >= 2
  {
    match ReadMind(geo, |tokens| - 1, s, |geo.attention|)
    case Bad => Bad
    case Got(mind, more) =>
      match Take(more, 32)
      case Bad => Bad
      case Got(digest, tail) => if digest == hash(Body(geo, tokens, mind)) then Got((tokens, mind), tail) else Bad
  }

  function ReadFile(geo: Geometry, hash: Hash, limit: nat, reserve: nat, s: seq<Word>): Read<Word, (seq<Token>, Mind)> {
    match ReadTokens(geo, limit, reserve, s)
    case Bad => Bad
    case Got(tokens, rest) => if |tokens| < 2 then Bad else ReadRest(geo, hash, tokens, rest)
  }

  predicate Acceptable(geo: Geometry, limit: nat, reserve: nat, tokens: seq<Token>, mind: Mind) {
    |tokens| >= 2 && |tokens| + reserve <= limit && Shaped(geo, |tokens| - 1, mind)
  }

  /** A sealed session reads back as itself, whatever follows it. */
  lemma {:induction false} ReadFileComplete(geo: Geometry, hash: Hash, limit: nat, reserve: nat, tokens: seq<Token>,
                                            mind: Mind, tail: seq<Word>)
    requires HashShaped(hash) && Acceptable(geo, limit, reserve, tokens, mind)
    ensures ReadFile(geo, hash, limit, reserve, Sealed(geo, hash, tokens, mind) + tail) == Got((tokens, mind), tail)
  {
    var digest := hash(Body(geo, tokens, mind));
    BodySplits(geo, tokens, mind);
    Assoc4(Header(geo, tokens), MindWords(mind), digest, tail);
    TokensComplete(geo, limit, reserve, tokens, MindWords(mind) + (digest + tail));
    RestComplete(geo, hash, tokens, mind, tail);
  }

  lemma {:induction false} RestComplete(geo: Geometry, hash: Hash, tokens: seq<Token>, mind: Mind, tail: seq<Word>)
    requires HashShaped(hash) && |tokens| >= 2 && Shaped(geo, |tokens| - 1, mind)
    ensures ReadRest(geo, hash, tokens, MindWords(mind) + (hash(Body(geo, tokens, mind)) + tail))
      == Got((tokens, mind), tail)
  {
    var digest := hash(Body(geo, tokens, mind));
    MindComplete(geo, |tokens| - 1, mind, |mind|, digest + tail);
    TakeJoined(digest, tail);
  }

  lemma Assoc4(a: seq<Word>, b: seq<Word>, c: seq<Word>, d: seq<Word>)
    ensures a + b + c + d == a + (b + (c + d))
  {
  }

  /** Whatever reads is a sealed session. */
  lemma {:induction false} ReadFileSound(geo: Geometry, hash: Hash, limit: nat, reserve: nat, s: seq<Word>)
    requires HashShaped(hash) && ReadFile(geo, hash, limit, reserve, s).Got?
    ensures var r := ReadFile(geo, hash, limit, reserve, s);
            && Acceptable(geo, limit, reserve, r.value.0, r.value.1)
            && s == Sealed(geo, hash, r.value.0, r.value.1) + r.rest
  {
    TokensSound(geo, limit, reserve, s);
    var t := ReadTokens(geo, limit, reserve, s);
    RestSound(geo, hash, t.value, t.rest);
    var r := ReadRest(geo, hash, t.value, t.rest);
    BodySplits(geo, t.value, r.value.1);
    Assoc4(Header(geo, t.value), MindWords(r.value.1), hash(Body(geo, t.value, r.value.1)), r.rest);
  }

  lemma {:induction false} RestSound(geo: Geometry, hash: Hash, tokens: seq<Token>, s: seq<Word>)
    requires |tokens| >= 2 && ReadRest(geo, hash, tokens, s).Got?
    ensures var r := ReadRest(geo, hash, tokens, s);
            && r.value.0 == tokens && Shaped(geo, |tokens| - 1, r.value.1)
            && s == MindWords(r.value.1) + (hash(Body(geo, tokens, r.value.1)) + r.rest)
  {
    MindSound(geo, |tokens| - 1, s, |geo.attention|);
    var m := ReadMind(geo, |tokens| - 1, s, |geo.attention|);
    var d := Take(m.rest, 32);
    assert m.rest == d.value + d.rest;
  }

  lemma {:induction false} RefusedRight(geo: Geometry, hash: Hash, limit: nat, reserve: nat, s: seq<Word>)
    requires HashShaped(hash) && ReadFile(geo, hash, limit, reserve, s).Bad?
    ensures forall tokens: seq<Token>, mind: Mind :: Acceptable(geo, limit, reserve, tokens, mind)
              ==> !(Sealed(geo, hash, tokens, mind) <= s)
  {
    forall tokens: seq<Token>, mind: Mind | Acceptable(geo, limit, reserve, tokens, mind)
      ensures !(Sealed(geo, hash, tokens, mind) <= s)
    {
      var file := Sealed(geo, hash, tokens, mind);
      if file <= s {
        assert s == file + s[|file|..];
        ReadFileComplete(geo, hash, limit, reserve, tokens, mind, s[|file|..]);
      }
    }
  }

  lemma ReadMindStep(geo: Geometry, n: nat, s: seq<Word>, k: nat)
    requires k < |geo.attention| && ReadMind(geo, n, s, k + 1).Got?
    ensures ReadMind(geo, n, s, k).Got?
    ensures var r := ReadMind(geo, n, s, k);
            var m := ReadMemory(geo, geo.attention[k], n, r.rest);
            m.Got? && ReadMind(geo, n, s, k + 1) == Got(r.value + [m.value], m.rest)
  {
  }
}
