/** JSON strings as section 7 of RFC 8259 writes them, against the decoding of src/json.h:
    every item of a string reads as what it stands for, in UTF-8. */
module JsonStrings {
  import opened Basics
  import Utf8
  import opened JsonCache

  /** A byte that stands for itself, a two-character escape, a code point, and a code point
      beyond the first plane as a surrogate pair. */
  datatype Item = Itself(b: byte) | Short(letter: byte) | Unit(code: nat, digits: seq<byte>)
    | Pair(code: nat, high: seq<byte>, low: seq<byte>)

  function HexOf(c: byte): (r: Option<nat>)
    ensures r.Some? ==> r.value < 16
  {
    if 48 <= c <= 57 then Some(c - 48)
    else if 97 <= c <= 102 then Some(c - 87)
    else if 65 <= c <= 70 then Some(c - 55)
    else None
  }

  /** Four hexadecimal digits, in either case, that write a number. */
  predicate Writes(digits: seq<byte>, n: nat) {
    && |digits| == 4 && (forall i :: 0 <= i < 4 ==> HexOf(digits[i]).Some?)
    && n == ((HexOf(digits[0]).value * 16 + HexOf(digits[1]).value) * 16 + HexOf(digits[2]).value) * 16
            + HexOf(digits[3]).value
  }

  /** strtoul reads four hexadecimal digits. */
  ghost predicate ReadsHex(lib: Library) {
    forall digits, n {:trigger Writes(digits, n)} :: Writes(digits, n) ==> lib.hex(digits) == n
  }

  predicate WellWritten(item: Item) {
    match item
    case Itself(b) => b != 34 && b != 92
    case Short(letter) => letter in {34, 92, 47, 98, 102, 110, 114, 116}
    case Unit(code, digits) => Writes(digits, code) && Utf8.Scalar(code)
    case Pair(code, high, low) =>
      && 0x1_0000 <= code <= 0x10_FFFF
      && Writes(high, 0xD800 + (code - 0x1_0000) / 1024) && Writes(low, 0xDC00 + (code - 0x1_0000) % 1024)
  }

  function Spelled(item: Item): seq<byte> {
    match item
    case Itself(b) => [b]
    case Short(letter) => [92, letter]
    case Unit(_, digits) => [92, 117] + digits
    case Pair(_, high, low) => [92, 117] + (high + ([92, 117] + low))
  }

  function Meant(item: Item): seq<byte> {
    match item
    case Itself(b) => [b]
    case Short(letter) =>
      [if letter == 98 then 8 else if letter == 102 then 12 else if letter == 110 then 10
       else if letter == 114 then 13 else if letter == 116 then 9 else letter]
    case Unit(code, _) => Utf8.Encode(code)
    case Pair(code, _, _) => Utf8.Encode(code)
  }

  function AllSpelled(items: seq<Item>): seq<byte> {
    if items == [] then [] else Spelled(items[0]) + AllSpelled(items[1..])
  }

  function AllMeant(items: seq<Item>): seq<byte> {
    if items == [] then [] else Meant(items[0]) + AllMeant(items[1..])
  }

  // ---- Code points ------------------------------------------------------------------------

  lemma {:induction false} Quotients(cp: nat)
    ensures cp / 64 / 64 == cp / 4096 && cp / 64 / 64 / 64 == cp / 262144
    ensures cp < 0x800 ==> cp / 64 < 32
    ensures cp < 0x1_0000 ==> cp / 4096 < 16
    ensures cp <= 0x10_FFFF ==> cp / 262144 < 8
  {
  }

  lemma {:induction false} ScalarBytes(cp: nat)
    requires Utf8.Scalar(cp)
    ensures CodeBytes(cp) == Utf8.Encode(cp)
  {
    Quotients(cp);
    var hi := cp / 64;
    assert hi / 64 == cp / 4096 && hi / 64 / 64 == cp / 262144;
  }

  lemma {:induction false} HalfBytes(cp: nat)
    requires 0xD800 <= cp <= 0xDFFF
    ensures |CodeBytes(cp)| == 3 && !Utf8.Char(CodeBytes(cp))
  {
    assert cp / 4096 == 13 && 32 <= cp / 64 % 64;
  }

  /** A scalar value becomes its UTF-8 character; half a surrogate pair becomes three bytes
      that are none. */
  lemma {:induction false} CodeBytesExactly(cp: nat)
    requires cp <= 0x10_FFFF
    ensures if Utf8.Scalar(cp) then CodeBytes(cp) == Utf8.Encode(cp) && Utf8.Char(CodeBytes(cp))
            else !Utf8.Char(CodeBytes(cp))
  {
    if Utf8.Scalar(cp) {
      ScalarBytes(cp);
      Utf8.EncodeIsChar(cp);
    } else {
      HalfBytes(cp);
    }
  }

  // ---- Reading ----------------------------------------------------------------------------

  lemma {:induction false} UnitReads(lib: Library, code: nat, digits: seq<byte>, rest: seq<byte>)
    requires ReadsHex(lib) && Writes(digits, code) && Utf8.Scalar(code)
    ensures Unicode(lib, digits + rest) == Got(Utf8.Encode(code), rest)
  {
    assert (digits + rest)[..4] == digits && (digits + rest)[4..] == rest;
    ScalarBytes(code);
  }

  lemma {:induction false} PairReads(lib: Library, code: nat, high: seq<byte>, low: seq<byte>, rest: seq<byte>)
    requires ReadsHex(lib) && WellWritten(Pair(code, high, low))
    ensures Unicode(lib, high + ([92, 117] + low) + rest) == Got(Utf8.Encode(code), rest)
  {
    var s := high + ([92, 117] + low) + rest;
    assert s[..4] == high && s[6..10] == low && s[10..] == rest && s[4] == 92 && s[5] == 117;
    ScalarBytes(code);
  }

  /** One pass of the loop at an escape for a code point. */
  lemma {:induction false} EscapePasses(lib: Library, body: seq<byte>, text: seq<byte>, rest: seq<byte>)
    requires Unicode(lib, body + rest) == Got(text, rest)
    ensures var s := [92, 117] + body + rest; s[0] != 34 && Piece(lib, s) == Got(text, rest)
  {
    var s := [92, 117] + body + rest;
    assert s[2..] == body + rest;
  }

  lemma {:induction false} ShortReads(lib: Library, item: Item, rest: seq<byte>)
    requires WellWritten(item) && (item.Itself? || item.Short?)
    ensures var s := Spelled(item) + rest; s[0] != 34 && Piece(lib, s) == Got(Meant(item), rest)
  {
    assert (Spelled(item) + rest)[|Spelled(item)|..] == rest;
  }

  lemma {:induction false} ItemReads(lib: Library, item: Item, rest: seq<byte>)
    requires ReadsHex(lib) && WellWritten(item)
    ensures var s := Spelled(item) + rest; s[0] != 34 && Piece(lib, s) == Got(Meant(item), rest)
  {
    match item {
      case Unit(code, digits) =>
        UnitReads(lib, code, digits, rest);
        EscapePasses(lib, digits, Utf8.Encode(code), rest);
      case Pair(code, high, low) =>
        PairReads(lib, code, high, low, rest);
        EscapePasses(lib, high + ([92, 117] + low), Utf8.Encode(code), rest);
      case _ => ShortReads(lib, item, rest);
    }
  }

  /** Any string so written reads as what its items stand for, whatever follows it. */
  lemma {:induction false} StringReads(lib: Library, items: seq<Item>, tail: seq<byte>)
    requires ReadsHex(lib) && forall i :: 0 <= i < |items| ==> WellWritten(items[i])
    ensures Str(lib, AllSpelled(items) + ([34] + tail)) == Got(AllMeant(items), tail)
  {
    var end := [34] + tail;
    if items == [] {
      assert [] + end == end && end[1..] == tail;
    } else {
      StringReads(lib, items[1..], tail);
      ItemReads(lib, items[0], AllSpelled(items[1..]) + end);
      Assoc(Spelled(items[0]), AllSpelled(items[1..]), end);
    }
  }

  /** Escaping leaves alone what need not be escaped. */
  lemma {:induction false} EscapeKeeps(s: seq<byte>)
    requires Plain(s) && forall i :: 0 <= i < |s| ==> s[i] >= 0x20
    ensures Escape(s) == s
  {
    if s != [] {
      EscapeKeeps(s[1..]);
      assert s == [s[0]] + s[1..];
    }
  }
}
