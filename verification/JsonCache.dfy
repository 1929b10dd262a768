/** The read cache's entries: escaping into a bounded buffer (src/read_cache.h),
    parsing back (src/json.h), and what get returns after put. */
module JsonCache {
  import opened Basics

  predicate NulFree(s: seq<byte>) { 0 !in s }

  // ---- Escaping -----------------------------------------------------------------------

  function HexDigit(n: nat): byte
    requires n < 16
  {
    if n < 10 then 48 + n else 87 + n
  }

  /** One byte as it is written inside a JSON string. */
  function EscapeByte(c: byte): (e: seq<byte>)
    ensures 1 <= |e| <= 6
  {
    if c == 34 || c == 92 then [92, c]
    else if c == 10 then [92, 110]
    else if c == 13 then [92, 114]
    else if c == 9 then [92, 116]
    else if c < 0x20 then [92, 117, 48, 48, HexDigit(c / 16), HexDigit(c % 16)]
    else [c]
  }

  function Escape(s: seq<byte>): (e: seq<byte>)
    ensures |e| <= 6 * |s|
  {
    if s == [] then [] else EscapeByte(s[0]) + Escape(s[1..])
  }

  lemma {:induction false} EscapeSnoc(s: seq<byte>, c: byte)
    ensures Escape(s + [c]) == Escape(s) + EscapeByte(c)
  {
    if s == [] {
      assert s + [c] == [c] && [c][1..] == [];
      assert Escape([c]) == EscapeByte(c) + Escape([c][1..]);
      assert EscapeByte(c) + [] == EscapeByte(c);
    } else {
      EscapeSnoc(s[1..], c);
      assert (s + [c])[1..] == s[1..] + [c];
      Assoc(EscapeByte(s[0]), Escape(s[1..]), EscapeByte(c));
    }
  }

  method Append(dst: array<byte>, o: nat, bytes: seq<byte>) returns (next: nat)
    requires o + |bytes| <= dst.Length
    modifies dst
    ensures next == o + |bytes| && dst[..next] == old(dst[..o]) + bytes
  {
    next := o;
    for i := 0 to |bytes|
      invariant next == o + i && dst[..next] == old(dst[..o]) + bytes[..i]
    {
      dst[next] := bytes[i];
      next := next + 1;
      assert dst[..next] == dst[..next - 1] + [bytes[i]];
    }
    assert bytes[..|bytes|] == bytes;
  }

  /** rc_escape: stops early only when fewer than nine bytes of room are left, never
      writes past the buffer, and ends what it wrote with a NUL. */
  method EscapeInto(s: seq<byte>, dst: array<byte>) returns (o: nat, read: nat)
    requires NulFree(s) && dst.Length >= 1
    modifies dst
    ensures o < dst.Length && read <= |s| && dst[..o] == Escape(s[..read]) && dst[o] == 0
    ensures read < |s| ==> o + 8 >= dst.Length
    ensures dst.Length >= 6 * |s| + 9 ==> read == |s|
  {
    o, read := 0, 0;
    while read < |s| && o + 8 < dst.Length
      invariant 0 <= read <= |s| && o < dst.Length && dst[..o] == Escape(s[..read]) && o <= 6 * read
    {
      EscapeSnoc(s[..read], s[read]);
      assert s[..read] + [s[read]] == s[..read + 1];
      o := Append(dst, o, EscapeByte(s[read]));
      read := read + 1;
    }
    ghost var written := dst[..o];
    dst[o] := 0;
    assert dst[..o] == written;
  }

  // ---- Parsing a string -----------------------------------------------------------------

  /** C library conversions: strtoul in base 16 on four bytes, and how many bytes
      strtod takes from the front of a text. */
  datatype Library = Library(hex: seq<byte> -> nat, number: seq<byte> -> nat)

  predicate Digits(d: seq<byte>) { d != [] && forall i :: 0 <= i < |d| ==> 48 <= d[i] <= 57 }

  ghost predicate LibraryOk(lib: Library) {
    && (forall n: nat :: n < 0x20 ==> lib.hex([48, 48, HexDigit(n / 16), HexDigit(n % 16)]) == n)
    && (forall d: seq<byte>, rest: seq<byte> :: Digits(d) ==> lib.number(d + [44] + rest) == |d|)
  }

  function Simple(e: byte): byte {
    if e == 110 then 10 else if e == 116 then 9 else if e == 114 then 13
    else if e == 98 then 8 else if e == 102 then 12 else e
  }

  function CodeBytes(cp: nat): seq<byte> {
    if cp < 0x80 then [cp]
    else if cp < 0x800 then [0xC0 + cp / 64 % 32, 0x80 + cp % 64]
    else if cp < 0x10000 then [0xE0 + cp / 4096 % 16, 0x80 + cp / 64 % 64, 0x80 + cp % 64]
    else [0xF0 + cp / 262144 % 8, 0x80 + cp / 4096 % 64, 0x80 + cp / 64 % 64, 0x80 + cp % 64]
  }

  /** The four digits after \u, with a second half when they are half a pair. */
  function Unicode(lib: Library, s: seq<byte>): (r: Read<byte, seq<byte>>)
    ensures r.Got? ==> |r.rest| <= |s| - 4
  {
    if |s| < 4 then Bad
    else
      var cp := lib.hex(s[..4]);
      if 0xD800 <= cp <= 0xDBFF && |s| >= 6 && s[4] == 92 && s[5] == 117 then
        if |s| < 10 then Bad
        else
          var lo := lib.hex(s[6..10]);
          if 0xDC00 <= lo <= 0xDFFF then Got(CodeBytes(0x10000 + (cp - 0xD800) * 1024 + (lo - 0xDC00)), s[10..])
          else Got(CodeBytes(cp), s[4..])
      else Got(CodeBytes(cp), s[4..])
  }

  /** One turn of the loop of j_parse_str_raw. */
  function Piece(lib: Library, s: seq<byte>): (r: Read<byte, seq<byte>>)
    requires s != []
    ensures r.Got? ==> |r.rest| < |s|
  {
    if s[0] == 92 && |s| > 1 then if s[1] == 117 then Unicode(lib, s[2..]) else Got([Simple(s[1])], s[2..])
    else Got([s[0]], s[1..])
  }

  /** The text of a string after its opening quote; the end of the text closes it too. */
  function Str(lib: Library, s: seq<byte>): (r: Read<byte, seq<byte>>)
    ensures r.Got? ==> |r.rest| <= |s|
  {
    if s == [] then Got([], [])
    else if s[0] == 34 then Got([], s[1..])
    else match Piece(lib, s)
      case Bad => Bad
      case Got(p, rest) =>
        match Str(lib, rest)
        case Bad => Bad
        case Got(v, more) => Got(p + v, more)
  }

  /** j_parse_str_raw, after the opening quote. */
  method ParseString(lib: Library, text: seq<byte>) returns (r: Read<byte, seq<byte>>)
    ensures r == Str(lib, text)
  {
    var s, value: seq<byte> := text, [];
    PrependNothing(Str(lib, text));
    while s != [] && s[0] != 34
      invariant Prepend(value, Str(lib, s)) == Str(lib, text)
      decreases |s|
    {
      var p := Piece(lib, s);
      if p.Bad? { return Bad; }
      PrependTwice(value, p.value, Str(lib, p.rest));
      value, s := value + p.value, p.rest;
    }
    assert value + [] == value;
    r := Got(value, if s == [] then [] else s[1..]);
  }

  ghost function Prepend(p: seq<byte>, r: Read<byte, seq<byte>>): Read<byte, seq<byte>> {
    match r case Bad => Bad case Got(v, rest) => Got(p + v, rest)
  }

  lemma {:induction false} PrependNothing(r: Read<byte, seq<byte>>)
    ensures Prepend([], r) == r
  {
    if r.Got? { assert [] + r.value == r.value; }
  }

  lemma {:induction false} PrependTwice(a: seq<byte>, b: seq<byte>, r: Read<byte, seq<byte>>)
    ensures Prepend(a, Prepend(b, r)) == Prepend(a + b, r)
  {
    if r.Got? { Assoc(a, b, r.value); }
  }

  /** Reading one escaped byte gives the byte back. */
  lemma {:induction false} PieceOfEscape(lib: Library, c: byte, rest: seq<byte>)
    requires LibraryOk(lib) && c != 0
    ensures Piece(lib, EscapeByte(c) + rest) == Got([c], rest)
    ensures (EscapeByte(c) + rest)[0] != 34
  {
    var s := EscapeByte(c) + rest;
    if c == 34 || c == 92 || c == 10 || c == 13 || c == 9 {
      assert s[2..] == rest;
    } else if c < 0x20 {
      var n: nat := c;
      assert s[2..][..4] == [48, 48, HexDigit(n / 16), HexDigit(n % 16)];
      assert s[2..][4..] == rest;
    } else {
      assert s[1..] == rest;
    }
  }

  /** Parsing an escaped string gives the string back, whatever follows. */
  lemma {:induction false} EscapeRoundTrip(lib: Library, s: seq<byte>, tail: seq<byte>)
    requires LibraryOk(lib) && NulFree(s)
    ensures Str(lib, Escape(s) + ([34] + tail)) == Got(s, tail)
  {
    var end := [34] + tail;
    if s == [] {
      assert [] + end == end && end[1..] == tail;
    } else {
      EscapeRoundTrip(lib, s[1..], tail);
      PieceOfEscape(lib, s[0], Escape(s[1..]) + end);
      Assoc(EscapeByte(s[0]), Escape(s[1..]), end);
      assert s == [s[0]] + s[1..];
    }
  }

  /** Bytes that mean themselves inside a string. */
  predicate Plain(s: seq<byte>) { forall i :: 0 <= i < |s| ==> s[i] != 34 && s[i] != 92 }

  lemma {:induction false} PlainReads(lib: Library, s: seq<byte>, tail: seq<byte>)
    requires Plain(s)
    ensures Str(lib, s + ([34] + tail)) == Got(s, tail)
  {
    var text := s + ([34] + tail);
    if s == [] {
      assert text == [34] + tail && text[1..] == tail;
    } else {
      PlainReads(lib, s[1..], tail);
      assert text[1..] == s[1..] + ([34] + tail);
      assert s == [s[0]] + s[1..];
    }
  }

  /** An escaped string holds no control byte, so it is a string by section 7 of RFC 8259. */
  lemma {:induction false} EscapedHasNoControls(s: seq<byte>)
    ensures forall i :: 0 <= i < |Escape(s)| ==> Escape(s)[i] >= 0x20
  {
    if s != [] { EscapedHasNoControls(s[1..]); }
  }

  // ---- Parsing a value --------------------------------------------------------------------

  datatype Value =
    | Null | Bool(b: bool) | Num | Text(str: seq<byte>)
    | Arr(items: seq<Value>) | Obj(members: seq<(seq<byte>, Value)>)

  predicate IsSpace(c: byte) { c == 32 || 9 <= c <= 13 }

  function Ws(s: seq<byte>): (r: seq<byte>)
    ensures |r| <= |s|
  {
    if s != [] && IsSpace(s[0]) then Ws(s[1..]) else s
  }

  predicate Starts(s: seq<byte>, c: byte) { s != [] && s[0] == c }

  function Dropped(s: seq<byte>, n: nat): Read<byte, Value>
    requires n > 0
  {
    if |s| < n then Bad else Got(if s[0] == 116 then Bool(true) else if s[0] == 102 then Bool(false) else Null, s[n..])
  }

  /** j_parse_val. */
  function Val(lib: Library, s: seq<byte>): (r: Read<byte, Value>)
    ensures r.Got? ==> |r.rest| <= |s|
    decreases |s|, 1
  {
    var t := Ws(s);
    if Starts(t, 34) then match Str(lib, t[1..]) case Bad => Bad case Got(v, rest) => Got(Text(v), rest)
    else if Starts(t, 123) then
      var u := Ws(t[1..]);
      if Starts(u, 125) then Got(Obj([]), u[1..])
      else match Members(lib, u) case Bad => Bad case Got(m, rest) => Got(Obj(m), rest)
    else if Starts(t, 91) then
      var u := Ws(t[1..]);
      if Starts(u, 93) then Got(Arr([]), u[1..])
      else match Items(lib, u) case Bad => Bad case Got(m, rest) => Got(Arr(m), rest)
    else if Starts(t, 116) then Dropped(t, 4)
    else if Starts(t, 102) then Dropped(t, 5)
    else if Starts(t, 110) then Dropped(t, 4)
    else if lib.number(t) <= |t| then Got(Num, t[lib.number(t)..])
    else Bad
  }

  function Items(lib: Library, s: seq<byte>): (r: Read<byte, seq<Value>>)
    ensures r.Got? ==> |r.rest| <= |s|
    decreases |s|, 2
  {
    match Val(lib, s)
    case Bad => Bad
    case Got(v, rest) =>
      var x := Ws(rest);
      if Starts(x, 44) then match Items(lib, x[1..]) case Bad => Bad case Got(more, end) => Got([v] + more, end)
      else if Starts(x, 93) then Got([v], x[1..])
      else Got([v], x)
  }

  /** One key, its colon and its value. */
  function Member(lib: Library, s: seq<byte>): (r: Read<byte, (seq<byte>, Value)>)
    ensures r.Got? ==> |r.rest| < |s|
    decreases |s|, 2
  {
    var v := Ws(s);
    if v == [] then Bad
    else match Str(lib, v[1..])
      case Bad => Bad
      case Got(key, rest) =>
        var w := Ws(rest);
        match Val(lib, if Starts(w, 58) then w[1..] else w)
        case Bad => Bad
        case Got(val, end) => Got((key, val), end)
  }

  function Members(lib: Library, s: seq<byte>): (r: Read<byte, seq<(seq<byte>, Value)>>)
    ensures r.Got? ==> |r.rest| <= |s|
    decreases |s|, 3
  {
    match Member(lib, s)
    case Bad => Bad
    case Got(m, rest) =>
      var x := Ws(rest);
      if Starts(x, 44) then match Members(lib, x[1..]) case Bad => Bad case Got(more, end) => Got([m] + more, end)
      else if Starts(x, 125) then Got([m], x[1..])
      else Got([m], x)
  }

  /** json_get: the first member with the key. */
  function Find(members: seq<(seq<byte>, Value)>, key: seq<byte>): Option<Value> {
    if members == [] then None
    else if CString(members[0].0) == key then Some(members[0].1)
    else Find(members[1..], key)
  }

  /** What C sees of a string: the bytes before its first NUL. */
  function CString(s: seq<byte>): seq<byte> {
    if s == [] || s[0] == 0 then [] else [s[0]] + CString(s[1..])
  }

  lemma {:induction false} CStringWhole(s: seq<byte>)
    requires NulFree(s)
    ensures CString(s) == s
  {
    if s != [] {
      CStringWhole(s[1..]);
      assert s == [s[0]] + s[1..];
    }
  }

  // ---- Entries ----------------------------------------------------------------------------

  function ContractKey(): seq<byte> { [99, 111, 110, 116, 114, 97, 99, 116, 95, 118, 101, 114, 115, 105, 111, 110] }
  function PackKey(): seq<byte> { [112, 97, 99, 107, 95, 102, 105, 110, 103, 101, 114, 112, 114, 105, 110, 116] }
  function CreatedKey(): seq<byte> { [99, 114, 101, 97, 116, 101, 100] }
  function ResultKey(): seq<byte> { [114, 101, 115, 117, 108, 116] }

  /** A key, a colon and a quoted text, in front of what follows. */
  function TextField(key: seq<byte>, text: seq<byte>, tail: seq<byte>): seq<byte> {
    [34] + (key + ([34] + ([58] + ([34] + (text + ([34] + tail))))))
  }

  function NumberField(key: seq<byte>, digits: seq<byte>, tail: seq<byte>): seq<byte> {
    [34] + (key + ([34] + ([58] + (digits + [44] + tail))))
  }

  /** read_cache_put: contract and fingerprint are written as they are, the result escaped. */
  function Put(contract: seq<byte>, pack: seq<byte>, created: seq<byte>, result: seq<byte>): seq<byte> {
    Entry(ContractKey(), PackKey(), CreatedKey(), ResultKey(), contract, pack, created, result)
  }

  function Entry(k1: seq<byte>, k2: seq<byte>, k3: seq<byte>, k4: seq<byte>, contract: seq<byte>, pack: seq<byte>,
                 created: seq<byte>, result: seq<byte>): seq<byte> {
    [123] + TextField(k1, contract, [44] + TextField(k2, pack, [44] + EntryEnd(k3, k4, created, result)))
  }

  function EntryEnd(k3: seq<byte>, k4: seq<byte>, created: seq<byte>, result: seq<byte>): seq<byte> {
    NumberField(k3, created, TextField(k4, Escape(result), [125]))
  }

  /** read_cache_get. */
  function Get(lib: Library, file: seq<byte>, contract: seq<byte>, pack: seq<byte>): Option<seq<byte>> {
    match Val(lib, CString(file))
    case Got(Obj(members), _) => Matching(members, contract, pack)
    case _ => None
  }

  function Matching(members: seq<(seq<byte>, Value)>, contract: seq<byte>, pack: seq<byte>): Option<seq<byte>> {
    match (Find(members, ContractKey()), Find(members, PackKey()), Find(members, ResultKey()))
    case (Some(Text(c)), Some(Text(p)), Some(Text(r))) =>
      if CString(c) == contract && CString(p) == pack then Some(CString(r)) else None
    case _ => None
  }

  lemma Front(c: byte, rest: seq<byte>)
    ensures ([c] + rest)[0] == c && ([c] + rest)[1..] == rest
  {
  }

  lemma WsStays(c: byte, rest: seq<byte>)
    requires !IsSpace(c)
    ensures Ws([c] + rest) == [c] + rest
  {
  }

  lemma {:induction false} TextValue(lib: Library, text: seq<byte>, value: seq<byte>, tail: seq<byte>)
    requires Str(lib, text + ([34] + tail)) == Got(value, tail)
    ensures Val(lib, [34] + (text + ([34] + tail))) == Got(Text(value), tail)
  {
    WsStays(34, text + ([34] + tail));
    Front(34, text + ([34] + tail));
  }

  lemma {:induction false} NumberValue(lib: Library, digits: seq<byte>, tail: seq<byte>)
    requires LibraryOk(lib) && Digits(digits)
    ensures Val(lib, digits + [44] + tail) == Got(Num, [44] + tail)
  {
    var s := digits + [44] + tail;
    assert s[0] == digits[0] && Ws(s) == s;
    assert lib.number(s) == |digits|;
    assert s[|digits|..] == [44] + tail;
  }

  /** A plain key, a colon and a value read as one member. */
  lemma {:induction false} MemberReads(lib: Library, key: seq<byte>, text: seq<byte>, value: Value, tail: seq<byte>)
    requires Plain(key) && Val(lib, text) == Got(value, tail)
    ensures Member(lib, [34] + (key + ([34] + ([58] + text)))).Got?
    ensures Member(lib, [34] + (key + ([34] + ([58] + text)))) == Got((key, value), tail)
  {
    var s := [34] + (key + ([34] + ([58] + text)));
    WsStays(34, key + ([34] + ([58] + text)));
    Front(34, key + ([34] + ([58] + text)));
    PlainReads(lib, key, [58] + text);
    WsStays(58, text);
    Front(58, text);
  }

  lemma {:induction false} MembersMore(lib: Library, s: seq<byte>, m: (seq<byte>, Value), t: seq<byte>,
                                       more: seq<(seq<byte>, Value)>, end: seq<byte>)
    requires Member(lib, s) == Got(m, [44] + t) && Members(lib, t) == Got(more, end)
    ensures Members(lib, s) == Got([m] + more, end)
  {
    WsStays(44, t);
    Front(44, t);
  }

  lemma {:induction false} MembersLast(lib: Library, s: seq<byte>, m: (seq<byte>, Value))
    requires Member(lib, s) == Got(m, [125])
    ensures Members(lib, s) == Got([m], [])
  {
    WsStays(125, []);
    assert [125] + [] == [125];
  }

  /** The members of an entry, as they were put. */
  function Stored(k1: seq<byte>, k2: seq<byte>, k3: seq<byte>, k4: seq<byte>, contract: seq<byte>, pack: seq<byte>,
                  result: seq<byte>): seq<(seq<byte>, Value)> {
    [(k1, Text(contract))] + ([(k2, Text(pack))] + ([(k3, Num)] + [(k4, Text(result))]))
  }

  lemma {:induction false} EntryEndReads(lib: Library, k3: seq<byte>, k4: seq<byte>, created: seq<byte>,
                                         result: seq<byte>)
    requires LibraryOk(lib) && Plain(k3) && Plain(k4) && Digits(created) && NulFree(result)
    ensures Members(lib, EntryEnd(k3, k4, created, result)) == Got([(k3, Num)] + [(k4, Text(result))], [])
  {
    var s4 := TextField(k4, Escape(result), [125]);
    EscapeRoundTrip(lib, result, [125]);
    TextValue(lib, Escape(result), result, [125]);
    MemberReads(lib, k4, [34] + (Escape(result) + ([34] + [125])), Text(result), [125]);
    MembersLast(lib, s4, (k4, Text(result)));
    NumberValue(lib, created, s4);
    MemberReads(lib, k3, created + [44] + s4, Num, [44] + s4);
    MembersMore(lib, NumberField(k3, created, s4), (k3, Num), s4, [(k4, Text(result))], []);
  }

  /** A plain text field in front of further members. */
  lemma {:induction false} FieldReads(lib: Library, key: seq<byte>, text: seq<byte>, t: seq<byte>,
                                      more: seq<(seq<byte>, Value)>)
    requires Plain(key) && Plain(text) && Members(lib, t) == Got(more, [])
    ensures Members(lib, TextField(key, text, [44] + t)) == Got([(key, Text(text))] + more, [])
  {
    PlainReads(lib, text, [44] + t);
    TextValue(lib, text, text, [44] + t);
    MemberReads(lib, key, [34] + (text + ([34] + ([44] + t))), Text(text), [44] + t);
    MembersMore(lib, TextField(key, text, [44] + t), (key, Text(text)), t, more, []);
  }

  lemma {:induction false} ObjectReads(lib: Library, s: seq<byte>, members: seq<(seq<byte>, Value)>)
    requires Starts(s, 34) && Members(lib, s) == Got(members, [])
    ensures Val(lib, [123] + s) == Got(Obj(members), [])
  {
    WsStays(123, s);
    Front(123, s);
  }

  lemma {:induction false} FindStored(k1: seq<byte>, k2: seq<byte>, k3: seq<byte>, k4: seq<byte>, contract: seq<byte>,
                                      pack: seq<byte>, result: seq<byte>)
    requires NulFree(k1) && NulFree(k2) && NulFree(k3) && NulFree(k4)
    requires k1 != k2 && k1 != k4 && k2 != k4 && k3 != k4
    ensures var m := Stored(k1, k2, k3, k4, contract, pack, result);
            Find(m, k1) == Some(Text(contract)) && Find(m, k2) == Some(Text(pack)) && Find(m, k4) == Some(Text(result))
  {
    CStringWhole(k1);
    CStringWhole(k2);
    CStringWhole(k3);
    CStringWhole(k4);
    var m4 := [(k4, Text(result))];
    var m3 := [(k3, Num)] + m4;
    var m2 := [(k2, Text(pack))] + m3;
    var m1 := [(k1, Text(contract))] + m2;
    FindFirst((k1, Text(contract)), m2, k1);
    FindFirst((k1, Text(contract)), m2, k2);
    FindFirst((k2, Text(pack)), m3, k2);
    FindFirst((k1, Text(contract)), m2, k4);
    FindFirst((k2, Text(pack)), m3, k4);
    FindFirst((k3, Num), m4, k4);
    assert m4 + [] == m4;
    FindFirst((k4, Text(result)), [], k4);
  }

  lemma {:induction false} KeysDiffer()
    ensures ContractKey() != PackKey() && ContractKey() != ResultKey() && PackKey() != ResultKey()
      && CreatedKey() != ResultKey()
  {
    assert ContractKey()[0] != PackKey()[0];
    assert |ContractKey()| == 16 && |PackKey()| == 16 && |ResultKey()| == 6 && |CreatedKey()| == 7;
  }

  lemma {:induction false} FindFirst(first: (seq<byte>, Value), rest: seq<(seq<byte>, Value)>, key: seq<byte>)
    ensures Find([first] + rest, key) == if CString(first.0) == key then Some(first.1) else Find(rest, key)
  {
    assert ([first] + rest)[1..] == rest;
  }

  lemma {:induction false} EscapeNulFree(s: seq<byte>)
    requires NulFree(s)
    ensures NulFree(Escape(s))
  {
    EscapedHasNoControls(s);
  }

  lemma NulFreeJoin(a: seq<byte>, b: seq<byte>)
    requires NulFree(a) && NulFree(b)
    ensures NulFree(a + b)
  {
  }

  lemma {:induction false} FieldNulFree(key: seq<byte>, text: seq<byte>, tail: seq<byte>)
    requires NulFree(key) && NulFree(text) && NulFree(tail)
    ensures NulFree(TextField(key, text, tail)) && NulFree([44] + TextField(key, text, tail))
  {
    NulFreeJoin(text, [34] + tail);
    NulFreeJoin([34, 58, 34], text + ([34] + tail));
    NulFreeJoin(key, [34] + ([58] + ([34] + (text + ([34] + tail)))));
  }

  lemma {:induction false} NumberNulFree(key: seq<byte>, digits: seq<byte>, tail: seq<byte>)
    requires NulFree(key) && Digits(digits) && NulFree(tail)
    ensures NulFree(NumberField(key, digits, tail)) && NulFree([44] + NumberField(key, digits, tail))
  {
    NulFreeJoin(digits, [44]);
    NulFreeJoin(digits + [44], tail);
    NulFreeJoin(key, [34] + ([58] + (digits + [44] + tail)));
  }

  lemma {:induction false} EntryNulFree(k1: seq<byte>, k2: seq<byte>, k3: seq<byte>, k4: seq<byte>, contract: seq<byte>,
                                        pack: seq<byte>, created: seq<byte>, result: seq<byte>)
    requires NulFree(k1) && NulFree(k2) && NulFree(k3) && NulFree(k4)
    requires NulFree(contract) && NulFree(pack) && Digits(created) && NulFree(result)
    ensures NulFree(Entry(k1, k2, k3, k4, contract, pack, created, result))
  {
    EscapeNulFree(result);
    var s4 := TextField(k4, Escape(result), [125]);
    FieldNulFree(k4, Escape(result), [125]);
    var s3 := NumberField(k3, created, s4);
    NumberNulFree(k3, created, s4);
    var s2 := TextField(k2, pack, [44] + s3);
    FieldNulFree(k2, pack, [44] + s3);
    FieldNulFree(k1, contract, [44] + s2);
  }

  lemma KeysArePlain()
    ensures Plain(ContractKey()) && Plain(PackKey()) && Plain(CreatedKey()) && Plain(ResultKey())
    ensures NulFree(ContractKey()) && NulFree(PackKey()) && NulFree(CreatedKey()) && NulFree(ResultKey())
  {
  }
}
