/** UTF-8 as section 4 of RFC 3629 defines it, and the two checkers of
    src/samosa_html.c, which are written differently and must agree. */
module Utf8 {
  import opened Basics

  // ---- The grammar ----------------------------------------------------------------

  predicate Tail(b: byte) { 0x80 <= b <= 0xBF }

  /** The grammar's UTF8-char. */
  predicate Char(s: seq<byte>) {
    if |s| == 1 then s[0] <= 0x7F
    else if |s| == 2 then 0xC2 <= s[0] <= 0xDF && Tail(s[1])
    else if |s| == 3 then
      || (s[0] == 0xE0 && 0xA0 <= s[1] <= 0xBF && Tail(s[2]))
      || (0xE1 <= s[0] <= 0xEC && Tail(s[1]) && Tail(s[2]))
      || (s[0] == 0xED && 0x80 <= s[1] <= 0x9F && Tail(s[2]))
      || (0xEE <= s[0] <= 0xEF && Tail(s[1]) && Tail(s[2]))
    else if |s| == 4 then
      || (s[0] == 0xF0 && 0x90 <= s[1] <= 0xBF && Tail(s[2]) && Tail(s[3]))
      || (0xF1 <= s[0] <= 0xF3 && Tail(s[1]) && Tail(s[2]) && Tail(s[3]))
      || (s[0] == 0xF4 && 0x80 <= s[1] <= 0x8F && Tail(s[2]) && Tail(s[3]))
    else false
  }

  /** How many bytes a first byte announces, 0 for none. */
  function Announced(c: byte): (n: nat)
    ensures n <= 4
  {
    if c < 0x80 then 1
    else if 0xC2 <= c <= 0xDF then 2
    else if 0xE0 <= c <= 0xEF then 3
    else if 0xF0 <= c <= 0xF4 then 4
    else 0
  }

  /** The width of the character at `at`, 0 where there is none. */
  function WidthAt(s: seq<byte>, at: nat): (n: nat)
    requires at < |s|
    ensures n <= 4 && at + n <= |s|
    ensures n > 0 ==> Char(s[at..at + n])
  {
    var n := Announced(s[at]);
    if n > 0 && at + n <= |s| && Char(s[at..at + n]) then n else 0
  }

  /** No other width makes a character. */
  lemma {:induction false} WidthIsTheOnlyOne(s: seq<byte>, at: nat, k: nat)
    requires at < |s| && at + k <= |s| && Char(s[at..at + k])
    ensures WidthAt(s, at) == k
  {
    assert s[at..at + k][0] == s[at];
  }

  /** The grammar's *( UTF8-char ), read from the front. */
  predicate Valid(s: seq<byte>) { ValidAt(s, 0) }

  predicate ValidAt(s: seq<byte>, i: nat)
    requires i <= |s|
    decreases |s| - i
  {
    i == |s| || (WidthAt(s, i) > 0 && ValidAt(s, i + WidthAt(s, i)))
  }

  lemma {:induction false} WidthBehind(p: seq<byte>, s: seq<byte>, i: nat)
    requires i < |s|
    ensures WidthAt(p + s, |p| + i) == WidthAt(s, i)
  {
    var n := Announced(s[i]);
    if i + n <= |s| {
      assert (p + s)[|p| + i..|p| + i + n] == s[i..i + n];
    }
  }

  /** What is valid does not depend on what stands in front. */
  lemma {:induction false} ValidBehind(p: seq<byte>, s: seq<byte>, i: nat)
    requires i <= |s|
    ensures ValidAt(p + s, |p| + i) <==> ValidAt(s, i)
    decreases |s| - i
  {
    if i < |s| {
      WidthBehind(p, s, i);
      if WidthAt(s, i) > 0 { ValidBehind(p, s, i + WidthAt(s, i)); }
    }
  }

  ghost function Flat(chars: seq<seq<byte>>): seq<byte> {
    if chars == [] then [] else chars[0] + Flat(chars[1..])
  }

  ghost predicate AllChars(chars: seq<seq<byte>>) { forall c :: c in chars ==> Char(c) }

  lemma {:induction false} ValidSplits(s: seq<byte>, i: nat) returns (chars: seq<seq<byte>>)
    requires i <= |s| && ValidAt(s, i)
    ensures AllChars(chars) && Flat(chars) == s[i..]
    decreases |s| - i
  {
    if i == |s| { return []; }
    var n := WidthAt(s, i);
    var rest := ValidSplits(s, i + n);
    chars := [s[i..i + n]] + rest;
    assert chars[1..] == rest && s[i..] == s[i..i + n] + s[i + n..];
  }

  lemma {:induction false} CharsAreValid(chars: seq<seq<byte>>)
    requires AllChars(chars)
    ensures Valid(Flat(chars))
  {
    if chars != [] {
      assert chars[0] in chars;
      CharsAreValid(chars[1..]);
      CharFront(chars[0], Flat(chars[1..]));
    }
  }

  lemma {:induction false} CharFront(c: seq<byte>, rest: seq<byte>)
    requires Char(c) && Valid(rest)
    ensures Valid(c + rest)
  {
    assert (c + rest)[0..0 + |c|] == c;
    WidthIsTheOnlyOne(c + rest, 0, |c|);
    ValidBehind(c, rest, 0);
  }

  /** Valid text is exactly a run of characters of the grammar. */
  lemma {:induction false} ValidIsCharacters(s: seq<byte>)
    ensures Valid(s) <==> exists chars :: AllChars(chars) && Flat(chars) == s
  {
    assert s[0..] == s;
    if Valid(s) { var chars := ValidSplits(s, 0); }
    if chars :| AllChars(chars) && Flat(chars) == s { CharsAreValid(chars); }
  }

  // ---- Characters are the scalar values -----------------------------------------------

  predicate Scalar(code: nat) { code <= 0x10FFFF && !(0xD800 <= code <= 0xDFFF) }

  /** utf8_encode; empty where it reports failure. Each shift by six is one division. */
  function Encode(code: nat): (s: seq<byte>) {
    var hi, lo := code / 64, code % 64;
    if code <= 0x7F then [code]
    else if code <= 0x7FF then [0xC0 + hi, 0x80 + lo]
    else if code <= 0xFFFF && !(0xD800 <= code <= 0xDFFF) then [0xE0 + hi / 64, 0x80 + hi % 64, 0x80 + lo]
    else if code <= 0x10FFFF then [0xF0 + hi / 64 / 64, 0x80 + hi / 64 % 64, 0x80 + hi % 64, 0x80 + lo]
    else []
  }

  function Lead(c: byte): nat {
    if c < 0x80 then c else if c < 0xE0 then c % 32 else if c < 0xF0 then c % 16 else c % 8
  }

  function Push(code: nat, b: byte): nat { code * 64 + Low6(b) }

  /** The number the bytes of a sequence spell: the first byte's low bits, then six
      from each of the others. */
  function Code(s: seq<byte>): nat
    requires s != []
  {
    if |s| == 1 then Lead(s[0]) else Push(Code(s[..|s| - 1]), s[|s| - 1])
  }

  lemma {:induction false} CodeOf(s: seq<byte>)
    requires 1 <= |s| <= 4
    ensures |s| == 1 ==> Code(s) == Lead(s[0])
    ensures |s| == 2 ==> Code(s) == Push(Lead(s[0]), s[1])
    ensures |s| == 3 ==> Code(s) == Push(Push(Lead(s[0]), s[1]), s[2])
    ensures |s| == 4 ==> Code(s) == Push(Push(Push(Lead(s[0]), s[1]), s[2]), s[3])
    decreases |s|
  {
    if |s| > 1 {
      var front := s[..|s| - 1];
      CodeOf(front);
      assert Code(s) == Push(Code(front), s[|s| - 1]);
    }
  }

  lemma {:induction false} Digits(a: nat, b: byte)
    requires Tail(b)
    ensures Push(a, b) / 64 == a && 0x80 + Push(a, b) % 64 == b && Push(a, b) == a * 64 + (b - 0x80)
  {
    assert Low6(b) == b - 0x80;
  }

  lemma Undigits(code: nat)
    ensures Push(code / 64, 0x80 + code % 64) == code
  {
  }

  lemma LeadOf(n: nat)
    ensures 2 <= n < 32 ==> Lead(0xC0 + n) == n
    ensures n < 16 ==> Lead(0xE0 + n) == n
    ensures n < 8 ==> Lead(0xF0 + n) == n
  {
  }

  lemma {:induction false} EncodeSpells(code: nat)
    requires Scalar(code)
    ensures Code(Encode(code)) == code
  {
    var hi, s := code / 64, Encode(code);
    CodeOf(s);
    Undigits(code);
    if code <= 0x7F {
    } else if code <= 0x7FF {
      LeadOf(hi);
    } else if code <= 0xFFFF {
      Spells3(code, hi);
    } else {
      Spells4(code, hi);
    }
  }

  lemma {:induction false} Spells3(code: nat, hi: nat)
    requires hi == code / 64 && code <= 0xFFFF
    ensures Push(Push(Lead(0xE0 + hi / 64), 0x80 + hi % 64), 0x80 + code % 64) == code
  {
    Undigits(code);
    Undigits(hi);
    LeadOf(hi / 64);
  }

  lemma {:induction false} Spells4(code: nat, hi: nat)
    requires hi == code / 64 && code <= 0x10FFFF
    ensures Push(Push(Push(Lead(0xF0 + hi / 64 / 64), 0x80 + hi / 64 % 64), 0x80 + hi % 64), 0x80 + code % 64) == code
  {
    Undigits(code);
    Undigits(hi);
    Undigits(hi / 64);
    LeadOf(hi / 64 / 64);
  }

  /** A scalar value encodes to a character that spells it. */
  lemma {:induction false} EncodeIsChar(code: nat)
    requires Scalar(code)
    ensures Char(Encode(code)) && Code(Encode(code)) == code
  {
    EncodeSpells(code);
  }

  lemma {:induction false} CharIsEncoded3(a: byte, b: byte, c: byte)
    requires Char([a, b, c])
    ensures var code := Push(Push(Lead(a), b), c); Scalar(code) && Encode(code) == [a, b, c]
  {
    Digits(Lead(a), b);
    Digits(Push(Lead(a), b), c);
    assert Lead(a) == a - 0xE0;
  }

  lemma {:induction false} CharIsEncoded4(a: byte, b: byte, c: byte, d: byte)
    requires Char([a, b, c, d])
    ensures var code := Push(Push(Push(Lead(a), b), c), d); Scalar(code) && Encode(code) == [a, b, c, d]
  {
    Digits(Lead(a), b);
    Digits(Push(Lead(a), b), c);
    Digits(Push(Push(Lead(a), b), c), d);
    assert Lead(a) == a - 0xF0;
  }

  /** A character spells a scalar value that encodes to it. */
  lemma {:induction false} CharIsEncoded(s: seq<byte>)
    requires Char(s)
    ensures Scalar(Code(s)) && Encode(Code(s)) == s
  {
    CodeOf(s);
    if |s| == 2 {
      Digits(Lead(s[0]), s[1]);
    } else if |s| == 3 {
      assert s == [s[0], s[1], s[2]];
      CharIsEncoded3(s[0], s[1], s[2]);
    } else if |s| == 4 {
      assert s == [s[0], s[1], s[2], s[3]];
      CharIsEncoded4(s[0], s[1], s[2], s[3]);
    }
  }

  // ---- utf8_sequence_width ----------------------------------------------------------------

  predicate InRange(width: nat, code: nat) {
    !( (width == 2 && code < 0x80)
    || (width == 3 && (code < 0x800 || (0xD800 <= code <= 0xDFFF)))
    || (width == 4 && (code < 0x10000 || code > 0x10FFFF)))
  }

  /** Ranges on the number spelled and ranges on the second byte say the same. */
  lemma {:induction false} RangeIsChar(s: seq<byte>)
    requires s != [] && Announced(s[0]) == |s| && forall i :: 1 <= i < |s| ==> Tail(s[i])
    ensures InRange(|s|, Code(s)) <==> Char(s)
  {
    CodeOf(s);
    if |s| == 2 { Range2(s[0], s[1]); assert s == [s[0], s[1]]; }
    if |s| == 3 { Range3(s[0], s[1], s[2]); assert s == [s[0], s[1], s[2]]; }
    if |s| == 4 { Range4(s[0], s[1], s[2], s[3]); assert s == [s[0], s[1], s[2], s[3]]; }
  }

  lemma {:induction false} Range2(a: byte, b: byte)
    requires Announced(a) == 2 && Tail(b)
    ensures InRange(2, Push(Lead(a), b)) <==> Char([a, b])
  {
    Digits(Lead(a), b);
  }

  lemma {:induction false} Range3(a: byte, b: byte, c: byte)
    requires Announced(a) == 3 && Tail(b) && Tail(c)
    ensures InRange(3, Push(Push(Lead(a), b), c)) <==> Char([a, b, c])
  {
    Digits(Lead(a), b);
    Digits(Push(Lead(a), b), c);
  }

  lemma {:induction false} Range4(a: byte, b: byte, c: byte, d: byte)
    requires Announced(a) == 4 && Tail(b) && Tail(c) && Tail(d)
    ensures InRange(4, Push(Push(Push(Lead(a), b), c), d)) <==> Char([a, b, c, d])
  {
    Digits(Lead(a), b);
    Digits(Push(Lead(a), b), c);
    Digits(Push(Push(Lead(a), b), c), d);
  }

  /** utf8_sequence_width. */
  method SequenceWidth(data: seq<byte>, at: nat) returns (width: nat)
    requires at < |data|
    ensures width == WidthAt(data, at)
  {
    var c := data[at];
    if c < 0x80 { return 1; }
    width := Announced(c);
    if width == 0 || width > |data| - at { return 0; }
    var code := Lead(c);
    ghost var s := data[at..at + width];
    assert s[..1] == [c];
    for i := 1 to width
      invariant code == Code(s[..i])
      invariant forall j :: 1 <= j < i ==> Tail(s[j])
    {
      assert s[i] == data[at + i];
      if !Tail(data[at + i]) { return 0; }
      assert s[..i + 1][..i] == s[..i];
      code := Push(code, data[at + i]);
    }
    assert s[..width] == s;
    RangeIsChar(s);
    if !InRange(width, code) { return 0; }
  }

  // ---- valid_utf8 -------------------------------------------------------------------------

  predicate SecondOk(c: byte, second: byte) {
    !(c == 0xE0 && second < 0xA0) && !(c == 0xED && second >= 0xA0)
    && !(c == 0xF0 && second < 0x90) && !(c == 0xF4 && second >= 0x90)
  }

  lemma SecondIsChar(s: seq<byte>)
    requires |s| > 1 && Announced(s[0]) == |s| && SecondOk(s[0], s[1]) && forall i :: 1 <= i < |s| ==> Tail(s[i])
    ensures Char(s)
  {
  }

  method AllTails(s: seq<byte>) returns (ok: bool)
    requires s != []
    ensures ok <==> forall k :: 1 <= k < |s| ==> Tail(s[k])
  {
    for k := 1 to |s|
      invariant forall j :: 1 <= j < k ==> Tail(s[j])
    {
      if !Tail(s[k]) { return false; }
    }
    ok := true;
  }

  /** valid_utf8. */
  method ValidUtf8(data: seq<byte>) returns (ok: bool)
    ensures ok <==> Valid(data)
  {
    var i := 0;
    while i < |data|
      invariant 0 <= i <= |data| && (Valid(data) <==> ValidAt(data, i))
    {
      var c := data[i];
      var width := Announced(c);
      if width == 1 { i := i + 1; continue; }
      if width == 0 || width - 1 > |data| - (i + 1) { return false; }
      ghost var s := data[i..i + width];
      assert s[1] == data[i + 1];
      if !SecondOk(c, data[i + 1]) { return false; }
      var tails := AllTails(data[i..i + width]);
      if !tails { return false; }
      SecondIsChar(s);
      i := i + width;
    }
    ok := true;
  }

  // ---- A byte at a time -----------------------------------------------------------------

  /** Where a reader stands inside a character. */
  datatype Place = Start | Tail1 | Tail2 | Tail3 | AfterE0 | AfterED | AfterF0 | AfterF4 | Dead

  function Move(q: Place, b: byte): Place {
    match q
    case Start =>
      if b < 0x80 then Start
      else if 0xC2 <= b <= 0xDF then Tail1
      else if b == 0xE0 then AfterE0
      else if b == 0xED then AfterED
      else if 0xE1 <= b <= 0xEF then Tail2
      else if b == 0xF0 then AfterF0
      else if 0xF1 <= b <= 0xF3 then Tail3
      else if b == 0xF4 then AfterF4
      else Dead
    case Tail1 => if Tail(b) then Start else Dead
    case Tail2 => if Tail(b) then Tail1 else Dead
    case Tail3 => if Tail(b) then Tail2 else Dead
    case AfterE0 => if 0xA0 <= b <= 0xBF then Tail1 else Dead
    case AfterED => if 0x80 <= b <= 0x9F then Tail1 else Dead
    case AfterF0 => if 0x90 <= b <= 0xBF then Tail2 else Dead
    case AfterF4 => if 0x80 <= b <= 0x8F then Tail2 else Dead
    case Dead => Dead
  }

  function Scan(q: Place, s: seq<byte>): Place {
    if s == [] then q else Move(Scan(q, s[..|s| - 1]), s[|s| - 1])
  }

  lemma {:induction false} ScanAppend(q: Place, a: seq<byte>, b: seq<byte>)
    ensures Scan(q, a + b) == Scan(Scan(q, a), b)
  {
    if b == [] {
      assert a + b == a;
    } else {
      var front := b[..|b| - 1];
      ScanAppend(q, a, front);
      assert (a + b)[..|a + b| - 1] == a + front;
    }
  }

  lemma {:induction false} ScanOne(q: Place, b: byte)
    ensures Scan(q, [b]) == Move(q, b)
  {
    assert [b][..0] == [];
  }

  lemma {:induction false} ScanCons(q: Place, s: seq<byte>)
    requires s != []
    ensures Scan(q, s) == Scan(Move(q, s[0]), s[1..])
  {
    assert s == [s[0]] + s[1..];
    ScanAppend(q, [s[0]], s[1..]);
    ScanOne(q, s[0]);
  }

  lemma {:induction false} DeadStays(s: seq<byte>)
    ensures Scan(Dead, s) == Dead
  {
    if s != [] { DeadStays(s[..|s| - 1]); }
  }

  lemma {:induction false} ScanFour(q: Place, s: seq<byte>)
    ensures |s| >= 1 ==> Scan(q, s) == Scan(Move(q, s[0]), s[1..])
    ensures |s| >= 2 ==> Scan(q, s) == Scan(Move(Move(q, s[0]), s[1]), s[2..])
    ensures |s| >= 3 ==> Scan(q, s) == Scan(Move(Move(Move(q, s[0]), s[1]), s[2]), s[3..])
    ensures |s| >= 4 ==> Scan(q, s) == Scan(Move(Move(Move(Move(q, s[0]), s[1]), s[2]), s[3]), s[4..])
  {
    if |s| >= 1 { ScanCons(q, s); }
    if |s| >= 2 { ScanCons(Move(q, s[0]), s[1..]); assert s[1..][1..] == s[2..]; }
    if |s| >= 3 { ScanCons(Move(Move(q, s[0]), s[1]), s[2..]); assert s[2..][1..] == s[3..]; }
    if |s| >= 4 { ScanCons(Move(Move(Move(q, s[0]), s[1]), s[2]), s[3..]); assert s[3..][1..] == s[4..]; }
  }

  /** Reading a character returns to the start. */
  lemma {:induction false} CharScans(c: seq<byte>)
    requires Char(c)
    ensures Scan(Start, c) == Start
  {
    ScanFour(Start, c);
    assert c[|c|..] == [];
  }

  /** What a first byte leads to, if it does not die, is a whole character. */
  lemma {:induction false} ScanNeedsChar(s: seq<byte>)
    requires s != [] && Scan(Start, s) == Start
    ensures WidthAt(s, 0) > 0
  {
    ScanFour(Start, s);
    DeadStays(s[1..]);
    if |s| >= 2 { DeadStays(s[2..]); }
    if |s| >= 3 { DeadStays(s[3..]); }
    if |s| >= 4 { DeadStays(s[4..]); }
    var n := Announced(s[0]);
    if n <= |s| {
      var c := s[0..0 + n];
      assert n >= 2 ==> c[1] == s[1];
      assert n >= 3 ==> c[2] == s[2];
      assert n >= 4 ==> c[3] == s[3];
    }
  }

  /** Reading byte by byte from the start ends at the start exactly on valid text. */
  lemma {:induction false} ScanIsValid(s: seq<byte>)
    ensures Scan(Start, s) == Start <==> Valid(s)
  {
    assert s[0..] == s;
    ScanFrom(s, 0);
  }

  lemma {:induction false} ScanFrom(s: seq<byte>, i: nat)
    requires i <= |s|
    ensures Scan(Start, s[i..]) == Start <==> ValidAt(s, i)
    decreases |s| - i
  {
    if i < |s| {
      var n := WidthAt(s, i);
      WidthFrom(s, i);
      if Scan(Start, s[i..]) == Start { ScanNeedsChar(s[i..]); }
      if n > 0 {
        CharScans(s[i..i + n]);
        ScanSplit(s, i, n);
        ScanFrom(s, i + n);
      }
    }
  }

  lemma {:induction false} WidthFrom(s: seq<byte>, i: nat)
    requires i < |s|
    ensures WidthAt(s[i..], 0) == WidthAt(s, i)
  {
    assert s == s[..i] + s[i..];
    WidthBehind(s[..i], s[i..], 0);
  }

  lemma {:induction false} ScanSplit(s: seq<byte>, i: nat, n: nat)
    requires i + n <= |s|
    ensures Scan(Start, s[i..]) == Scan(Scan(Start, s[i..i + n]), s[i + n..])
  {
    ScanAppend(Start, s[i..i + n], s[i + n..]);
    assert s[i..] == s[i..i + n] + s[i + n..];
  }

  lemma {:induction false} PrefixAlive(s: seq<byte>, i: nat)
    requires i <= |s| && Scan(Start, s) != Dead
    ensures Scan(Start, s[..i]) != Dead
  {
    ScanAppend(Start, s[..i], s[i..]);
    assert s == s[..i] + s[i..];
    DeadStays(s[i..]);
  }

  /** In valid text an ASCII byte stands between characters. */
  lemma {:induction false} AsciiBoundary(s: seq<byte>, i: nat)
    requires Valid(s) && i < |s| && s[i] < 0x80
    ensures Scan(Start, s[..i]) == Start && Scan(Start, s[..i + 1]) == Start
  {
    ScanIsValid(s);
    PrefixAlive(s, i + 1);
    assert s[..i + 1][..i] == s[..i];
  }
}
