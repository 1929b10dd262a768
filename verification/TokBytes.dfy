/** Bytes, lenient UTF-8 and the byte-level alphabet of src/tok.h. */
module TokBytes {
  import opened Basics

  /** u8_next: the code point at i and how many bytes it takes; a byte that
      starts nothing complete stands for itself. */
  function Next(s: seq<byte>, i: nat): (r: (nat, nat))
    requires i < |s|
    ensures 1 <= r.1 <= 4 && i + r.1 <= |s|
  {
    var c: nat := s[i];
    if c < 0x80 then (c, 1)
    else if 0xC0 <= c < 0xE0 && i + 1 < |s| then (c % 32 * 64 + Low6(s[i + 1]), 2)
    else if 0xE0 <= c < 0xF0 && i + 2 < |s| then (c % 16 * 4096 + Low6(s[i + 1]) * 64 + Low6(s[i + 2]), 3)
    else if 0xF0 <= c < 0xF8 && i + 3 < |s| then
      (c % 8 * 262144 + Low6(s[i + 1]) * 4096 + Low6(s[i + 2]) * 64 + Low6(s[i + 3]), 4)
    else (c, 1)
  }

  /** u8_put, for the one- and two-byte code points the alphabet uses. */
  function Put(cp: nat): (s: seq<byte>)
    requires cp < 0x800
    ensures 1 <= |s| <= 2
  {
    if cp < 0x80 then [cp] else [0xC0 + cp / 64, 0x80 + cp % 64]
  }

  predicate Direct(b: int) {
    33 <= b <= 126 || 161 <= b <= 172 || 174 <= b <= 255
  }

  /** How many bytes below b have no printable symbol of their own. */
  function Shifted(b: nat): (n: nat)
    ensures n <= b
  {
    if b == 0 then 0 else Shifted(b - 1) + (if Direct(b - 1) then 0 else 1)
  }

  /** The code point that stands for a byte: itself, or the next one from 256 up. */
  function Symbol(b: byte): (cp: nat)
    ensures 0 < cp < 512
  {
    if Direct(b) then b else 256 + Shifted(b)
  }

  lemma {:induction false} ShiftedGrows(a: nat, b: nat)
    requires a < b && !Direct(a)
    ensures Shifted(a) < Shifted(b)
    decreases b
  {
    if a < b - 1 {
      ShiftedGrows(a, b - 1);
    }
  }

  /** Different bytes have different symbols. */
  lemma {:induction false} SymbolInjective(a: byte, b: byte)
    requires Symbol(a) == Symbol(b)
    ensures a == b
  {
    if !Direct(a) && !Direct(b) {
      if a < b {
        ShiftedGrows(a, b);
      } else if b < a {
        ShiftedGrows(b, a);
      }
    }
  }

  lemma {:induction false} ShiftedIs(b: nat)
    requires b <= 256
    ensures Shifted(b) == if b <= 33 then b else if b <= 127 then 33 else if b <= 161 then b - 94
                          else if b <= 173 then 67 else 68
  {
    if b > 0 { ShiftedIs(b - 1); }
  }

  /** The alphabet in full: printable bytes stand for themselves, the other 68 for the code
      points from 256 to 323, in order. */
  lemma {:induction false} SymbolIs(b: byte)
    ensures Symbol(b) == if b <= 32 then 256 + b else if b <= 126 then b else if b <= 160 then 162 + b
                         else if b == 173 then 323 else b
  {
    ShiftedIs(b);
  }

  lemma {:induction false} SymbolFresh(b: byte)
    ensures forall k :: 0 <= k < b ==> Symbol(k) != Symbol(b)
  {
    forall k | 0 <= k < b
      ensures Symbol(k) != Symbol(b)
    {
      if Symbol(k) == Symbol(b) {
        SymbolInjective(k, b);
      }
    }
  }

  /** Both directions of the alphabet, for the bytes below n. */
  ghost predicate Tables(to: seq<nat>, from: seq<int>, n: nat) {
    && |to| == 256 && |from| == 1024 && n <= 256
    && (forall b :: 0 <= b < n ==> to[b] == Symbol(b) && from[Symbol(b)] == b)
    && (forall c :: 0 <= c < 1024 && from[c] != -1 ==> 0 <= from[c] < n && Symbol(from[c]) == c)
  }

  lemma {:induction false} TablesNext(to: seq<nat>, from: seq<int>, n: nat)
    requires Tables(to, from, n) && n < 256
    ensures Tables(to[n := Symbol(n)], from[Symbol(n) := n], n + 1)
  {
    SymbolFresh(n);
  }

  /** tk_build_bytemap: the two tables, built with one running counter. */
  method BuildByteMap() returns (byteToCp: array<nat>, cpToByte: array<int>)
    ensures Tables(byteToCp[..], cpToByte[..], 256)
  {
    byteToCp := new nat[256](_ => 0);
    cpToByte := new int[1024](_ => -1);
    var n := 0;
    var b := 0;
    while b < byteToCp.Length
      invariant 0 <= b <= 256
      invariant n == Shifted(b)
      invariant Tables(byteToCp[..], cpToByte[..], b)
    {
      var cp := if Direct(b) then b else 256 + n;
      ghost var to, from := byteToCp[..], cpToByte[..];
      TablesNext(to, from, b);
      if !Direct(b) {
        n := n + 1;
      }
      byteToCp[b] := cp;
      if cp < 1024 {
        cpToByte[cp] := b;
      }
      assert byteToCp[..] == to[b := Symbol(b)] && cpToByte[..] == from[Symbol(b) := b];
      b := b + 1;
    }
  }

  // ---- Spelling and reading back ---------------------------------------------

  function Spelling(b: byte): (s: seq<byte>)
    ensures 1 <= |s| <= 2
  {
    Put(Symbol(b))
  }

  /** The byte-level string of a run of bytes. */
  function Spell(w: seq<byte>): (s: seq<byte>)
    ensures |w| <= |s| <= 2 * |w|
  {
    if w == [] then [] else Spell(w[..|w| - 1]) + Spelling(w[|w| - 1])
  }

  /** The byte a code point stands for, as the inverse table answers. */
  ghost function ByteOf(cp: nat): (r: Option<byte>)
    ensures r.Some? ==> Symbol(r.value) == cp
    ensures r.None? ==> forall b: byte :: Symbol(b) != cp
  {
    if exists b: byte :: Symbol(b) == cp then
      var b: byte :| Symbol(b) == cp;
      Some(b)
    else None
  }

  /** Reading a byte-level string back from position j: code points that stand
      for no byte are dropped. */
  ghost function Unspell(s: seq<byte>, j: nat): seq<byte>
    requires j <= |s|
    decreases |s| - j
  {
    if j == |s| then []
    else
      var (cp, k) := Next(s, j);
      (if ByteOf(cp).Some? then [ByteOf(cp).value] else []) + Unspell(s, j + k)
  }

  /** A spelled byte reads back as its symbol wherever it stands. */
  lemma {:induction false} NextSpelling(s: seq<byte>, i: nat, b: byte)
    requires i + |Spelling(b)| <= |s| && s[i..i + |Spelling(b)|] == Spelling(b)
    ensures Next(s, i) == (Symbol(b), |Spelling(b)|)
  {
    var t := s[i..i + |Spelling(b)|];
    assert t[0] == s[i];
    if Symbol(b) >= 0x80 {
      assert t[1] == s[i + 1];
    }
  }

  lemma {:induction false} SpellCons(b: byte, w: seq<byte>)
    ensures Spell([b] + w) == Spelling(b) + Spell(w)
  {
    if w == [] {
      SpellSnoc([], b);
      assert [b] + w == [] + [b] && [] + Spelling(b) == Spelling(b) + [];
    } else {
      var init, last := w[..|w| - 1], w[|w| - 1];
      SpellCons(b, init);
      SpellSnoc([b] + init, last);
      SpellSnoc(init, last);
      Assoc([b], init, [last]);
      Assoc(Spelling(b), Spell(init), Spelling(last));
      assert w == init + [last];
    }
  }

  lemma {:induction false} SpellSnoc(w: seq<byte>, b: byte)
    ensures Spell(w + [b]) == Spell(w) + Spelling(b)
  {
    assert (w + [b])[..|w|] == w;
  }

  lemma {:induction false} SpellConcat(u: seq<byte>, w: seq<byte>)
    ensures Spell(u + w) == Spell(u) + Spell(w)
  {
    if w == [] {
      assert u + w == u;
    } else {
      var init, last := w[..|w| - 1], Spelling(w[|w| - 1]);
      SpellConcat(u, init);
      assert (u + w)[..|u + w| - 1] == u + init;
      assert Spell(u) + Spell(init) + last == Spell(u) + (Spell(init) + last);
    }
  }

  /** Spelling is lossless: reading back gives the bytes. */
  lemma {:induction false} UnspellSpell(prefix: seq<byte>, w: seq<byte>)
    ensures Unspell(prefix + Spell(w), |prefix|) == w
    decreases |w|
  {
    var s := prefix + Spell(w);
    if w != [] {
      var b, rest := w[0], w[1..];
      assert w == [b] + rest;
      SpellCons(b, rest);
      Spread(prefix, Spelling(b), Spell(rest));
      UnspellSpell(prefix + Spelling(b), rest);
      UnspellOne(s, |prefix|, b);
    }
  }

  lemma {:induction false} UnspellOne(s: seq<byte>, j: nat, b: byte)
    requires j + |Spelling(b)| <= |s| && s[j..j + |Spelling(b)|] == Spelling(b)
    ensures Unspell(s, j) == [b] + Unspell(s, j + |Spelling(b)|)
  {
    NextSpelling(s, j, b);
    SymbolInjective(ByteOf(Symbol(b)).value, b);
  }

  lemma Spread(a: seq<byte>, b: seq<byte>, c: seq<byte>)
    ensures a + (b + c) == a + b + c && (a + (b + c))[|a|..|a| + |b|] == b
  {
  }
}
