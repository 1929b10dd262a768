/** Readable-text extraction of src/samosa_html.c. One pass of its loop is a
    function of the position and the mode; the loop copies bytes one at a time, so
    that its output is valid UTF-8 is a fact about whole runs. */
module HtmlExtract {
  import opened Basics
  import opened Utf8
  import opened HtmlText

  type Name = seq<byte>

  function Ascii(s: string): (r: seq<byte>)
    ensures |r| == |s|
  {
    seq(|s|, (i: nat) requires i < |s| => (s[i] as int) % 256)
  }

  predicate SkipTag(tag: Name) {
    tag in {Ascii("script"), Ascii("style"), Ascii("svg"), Ascii("noscript"), Ascii("template"), Ascii("iframe"),
            Ascii("object")}
  }

  predicate BreakTag(tag: Name) {
    tag in {Ascii("br"), Ascii("address"), Ascii("article"), Ascii("aside"), Ascii("blockquote"), Ascii("dd"),
            Ascii("div"), Ascii("dl"), Ascii("dt"), Ascii("figcaption"), Ascii("figure"), Ascii("footer"),
            Ascii("form"), Ascii("h1"), Ascii("h2"), Ascii("h3"), Ascii("h4"), Ascii("h5"), Ascii("h6"),
            Ascii("header"), Ascii("hr"), Ascii("main"), Ascii("nav"), Ascii("ol"), Ascii("p"), Ascii("pre"),
            Ascii("section"), Ascii("table"), Ascii("tr"), Ascii("ul")}
  }

  // ---- Scanners ---------------------------------------------------------------------

  function Lower(c: byte): byte { if 65 <= c <= 90 then c + 32 else c }

  predicate PrefixCi(data: seq<byte>, at: nat, prefix: seq<byte>) {
    at + |prefix| <= |data| && forall i :: 0 <= i < |prefix| ==> Lower(data[at + i]) == prefix[i]
  }

  /** find_bytes for the end of a comment: where `-->` starts, or the length. */
  function CommentEnd(data: seq<byte>, at: nat): (end: nat)
    requires at <= |data|
    ensures at <= end <= |data|
    ensures end < |data| ==> end + 3 <= |data| && data[end + 2] == 62
    decreases |data| - at
  {
    if at + 3 > |data| then |data|
    else if data[at] == 45 && data[at + 1] == 45 && data[at + 2] == 62 then at
    else CommentEnd(data, at + 1)
  }

  /** tag_end: the first > outside quotes, or the length. `quote` is 0 outside. */
  function TagEnd(data: seq<byte>, at: nat, quote: byte): (end: nat)
    requires at <= |data|
    ensures at <= end <= |data|
    ensures end < |data| ==> data[end] == 62
    decreases |data| - at
  {
    if at == |data| then |data|
    else if quote != 0 then TagEnd(data, at + 1, if data[at] == quote then 0 else quote)
    else if data[at] == 39 || data[at] == 34 then TagEnd(data, at + 1, data[at])
    else if data[at] == 62 then at
    else TagEnd(data, at + 1, 0)
  }

  predicate Letter(c: byte) { 65 <= c <= 90 || 97 <= c <= 122 }

  predicate NameByte(c: byte) { Letter(c) || 48 <= c <= 57 || c == 45 || c == 58 }

  function SpacesEnd(data: seq<byte>, at: nat, end: nat): (i: nat)
    requires at <= end <= |data|
    ensures at <= i <= end
    decreases end - at
  {
    if at < end && Space(data[at]) then SpacesEnd(data, at + 1, end) else at
  }

  function NameFrom(data: seq<byte>, at: nat, end: nat): Name
    requires at <= end <= |data|
    decreases end - at
  {
    if at < end && NameByte(data[at]) then [Lower(data[at])] + NameFrom(data, at + 1, end) else []
  }

  datatype Tag = Tag(name: Name, closing: bool)

  /** tag_name: at most 19 bytes of the name, in lower case; empty when there is none. */
  function TagName(data: seq<byte>, at: nat, end: nat): Tag
    requires at <= end <= |data|
  {
    var i := SpacesEnd(data, at, end);
    var closing := i < end && data[i] == 47;
    var j := if closing then SpacesEnd(data, i + 1, end) else i;
    if j >= end || !Letter(data[j]) then Tag([], closing)
    else
      var name := NameFrom(data, j, end);
      Tag(if |name| > 19 then name[..19] else name, closing)
  }

  // ---- Entities -----------------------------------------------------------------------

  function Digit(c: byte, base: nat): (d: Option<nat>)
    ensures d.Some? ==> d.value < 16
  {
    if 48 <= c <= 57 then Some(c - 48)
    else if base == 16 && 97 <= c <= 102 then Some(c - 87)
    else if base == 16 && 65 <= c <= 70 then Some(c - 55)
    else None
  }

  /** The digit loop, giving up as soon as the number passes the last code point. */
  function Number(name: seq<byte>, base: nat, code: nat): (r: Option<nat>)
    requires base == 10 || base == 16
    requires code <= 0x10FFFF
    ensures r.Some? ==> r.value <= 0x10FFFF
  {
    if name == [] then Some(code)
    else match Digit(name[0], base)
      case None => None
      case Some(d) => if code > (0x10FFFF - d) / base then None else Number(name[1..], base, code * base + d)
  }

  /** The number in full, with no bound. */
  ghost function Value(name: seq<byte>, base: nat, code: nat): Option<nat> {
    if name == [] then Some(code)
    else match Digit(name[0], base)
      case None => None
      case Some(d) => Value(name[1..], base, code * base + d)
  }

  lemma {:induction false} ValueGrows(name: seq<byte>, base: nat, code: nat)
    requires base >= 1
    ensures Value(name, base, code).Some? ==> Value(name, base, code).value >= code
    decreases |name|
  {
    if name != [] && Digit(name[0], base).Some? {
      var next := code * base + Digit(name[0], base).value;
      ValueGrows(name[1..], base, next);
      assert next >= code;
    }
  }

  /** Giving up early refuses exactly the numbers beyond the last code point. */
  lemma {:induction false} NumberIsValue(name: seq<byte>, base: nat, code: nat)
    requires (base == 10 || base == 16) && code <= 0x10FFFF
    ensures Number(name, base, code)
            == (if Value(name, base, code).Some? && Value(name, base, code).value <= 0x10FFFF
                then Value(name, base, code) else None)
    decreases |name|
  {
    if name != [] && Digit(name[0], base).Some? {
      var next := code * base + Digit(name[0], base).value;
      if next <= 0x10FFFF {
        NumberIsValue(name[1..], base, next);
      } else {
        ValueGrows(name[1..], base, next);
      }
    }
  }

  /** The table of named entities. */
  function EntityName(i: nat): string {
    match i
    case 0 => "amp" case 1 => "lt" case 2 => "gt" case 3 => "quot" case 4 => "apos" case 5 => "nbsp" case 6 => "copy"
    case 7 => "reg" case 8 => "mdash" case 9 => "ndash" case 10 => "hellip" case 11 => "laquo" case _ => "raquo"
  }

  function EntityText(i: nat): seq<byte> {
    match i
    case 0 => [38] case 1 => [60] case 2 => [62] case 3 => [34] case 4 => [39] case 5 => [32] case 6 => [0xC2, 0xA9]
    case 7 => [0xC2, 0xAE] case 8 => [0xE2, 0x80, 0x94] case 9 => [0xE2, 0x80, 0x93] case 10 => [0xE2, 0x80, 0xA6]
    case 11 => [0xC2, 0xAB] case _ => [0xC2, 0xBB]
  }

  function NamedFrom(name: Name, i: nat): seq<byte>
    decreases 13 - i
  {
    if i >= 13 then [] else if name == Ascii(EntityName(i)) then EntityText(i) else NamedFrom(name, i + 1)
  }

  function Lowered(s: seq<byte>): seq<byte> { seq(|s|, (i: nat) requires i < |s| => Lower(s[i])) }

  predicate Printable(code: nat) { !(code < 0x20 || 0x7F <= code <= 0x9F || 0xD800 <= code <= 0xDFFF) }

  /** entity_value: the bytes between & and ; decoded, empty when unknown. */
  function Entity(name: seq<byte>): seq<byte> {
    if name != [] && name[0] == 35 then
      var hex := 1 < |name| && (name[1] == 120 || name[1] == 88);
      var digits := name[if hex then 2 else 1..];
      if digits == [] then []
      else match Number(digits, if hex then 16 else 10, 0)
        case None => []
        case Some(code) => if Printable(code) then Encode(code) else []
    else if name == [] || |name| >= 20 then []
    else NamedFrom(Lowered(name), 0)
  }

  /** A decoded entity is one character and no control. */
  lemma {:induction false} EntityIsChar(name: seq<byte>)
    requires Entity(name) != []
    ensures Char(Entity(name)) && Clean(Entity(name))
  {
    if name[0] == 35 {
      var hex := 1 < |name| && (name[1] == 120 || name[1] == 88);
      var code := Number(name[if hex then 2 else 1..], if hex then 16 else 10, 0).value;
      EncodeIsChar(code);
      CharClean(Encode(code));
    } else {
      NamedIsChar(Lowered(name), 0);
    }
  }

  lemma {:induction false} NamedIsChar(name: Name, i: nat)
    requires NamedFrom(name, i) != []
    ensures Char(NamedFrom(name, i)) && Clean(NamedFrom(name, i))
    decreases 13 - i
  {
    if name != Ascii(EntityName(i)) { NamedIsChar(name, i + 1); }
  }

  // ---- One pass of the loop -------------------------------------------------------------

  datatype Mode = Mode(skip: seq<Name>, overflow: nat, inTitle: bool, inHead: bool)

  datatype Step = Step(mode: Mode, at: nat, text: seq<byte>, title: seq<byte>)

  function Put(m: Mode, at: nat, bytes: seq<byte>): Step {
    if m.inTitle then Step(m, at, [], bytes) else Step(m, at, bytes, [])
  }

  /** What a tag does to the mode. */
  function TagMode(m: Mode, tag: Tag): Mode {
    if m.skip != [] then
      if tag.closing && m.overflow > 0 && SkipTag(tag.name) then m.(overflow := m.overflow - 1)
      else if tag.closing && tag.name == m.skip[|m.skip| - 1] then m.(skip := m.skip[..|m.skip| - 1])
      else if !tag.closing && SkipTag(tag.name) then
        if |m.skip| < 32 then m.(skip := m.skip + [tag.name]) else m.(overflow := m.overflow + 1)
      else m
    else if !tag.closing && SkipTag(tag.name) then m.(skip := [tag.name])
    else if tag.name == Ascii("title") then m.(inTitle := !tag.closing)
    else if tag.name == Ascii("head") then m.(inHead := !tag.closing)
    else m
  }

  /** What a tag puts in the text. */
  function TagText(m: Mode, tag: Tag): seq<byte> {
    if m.skip != [] || (!tag.closing && SkipTag(tag.name)) || tag.name == Ascii("title") || tag.name == Ascii("head")
       || m.inTitle then []
    else
      var line := if BreakTag(tag.name) then [10] else [];
      if !tag.closing && tag.name == Ascii("li") then line + [10, 45, 32]
      else if tag.closing && (tag.name == Ascii("td") || tag.name == Ascii("th")) then line + [32, 124, 32]
      else line
  }

  function AtTag(data: seq<byte>, at: nat, m: Mode): (s: Step)
    requires at < |data| && data[at] == 60
    ensures at < s.at <= |data| && (s.at == |data| || data[s.at - 1] < 0x80)
  {
    if PrefixCi(data, at, [60, 33, 45, 45]) then
      var end := CommentEnd(data, at + 4);
      Step(m, if end == |data| then end else end + 3, [], [])
    else
      var end := TagEnd(data, at + 1, 0);
      if end == |data| then
        if m.skip != [] then Step(m, |data|, [], []) else Put(m, at + 1, [60])
      else
        var tag := TagName(data, at + 1, end);
        if tag.name != [] then Step(TagMode(m, tag), end + 1, TagText(m, tag), [])
        else if m.skip == [] && data[at + 1] != 33 && data[at + 1] != 63 then
          if m.inHead && !m.inTitle then Step(m, at + 1, [], []) else Put(m, at + 1, [60])
        else Step(m, end + 1, [], [])
  }

  function EntityEnd(data: seq<byte>, at: nat, semi: nat): (end: nat)
    requires at < semi <= |data|
    ensures semi <= end <= |data|
    decreases |data| - semi
  {
    if semi < |data| && semi - at <= 32 && data[semi] != 59 && data[semi] != 60 && !Space(data[semi])
    then EntityEnd(data, at, semi + 1) else semi
  }

  /** Where the entity at `at` ends, or `at` when there is none to decode. */
  function EntityAt(data: seq<byte>, at: nat): (semi: nat)
    requires at < |data|
    ensures at <= semi < |data|
    ensures at < semi ==> data[at] == 38 && data[semi] == 59 && Entity(data[at + 1..semi]) != []
  {
    if data[at] != 38 then at
    else
      var semi := EntityEnd(data, at, at + 1);
      if semi < |data| && data[semi] == 59 && Entity(data[at + 1..semi]) != [] then semi else at
  }

  /** What is put for one position of text: a decoded entity or the byte itself. */
  function Piece(data: seq<byte>, at: nat): seq<byte>
    requires at < |data|
  {
    var semi := EntityAt(data, at);
    if at < semi then Entity(data[at + 1..semi]) else [data[at]]
  }

  function AtText(data: seq<byte>, at: nat, m: Mode): (s: Step)
    requires at < |data| && data[at] != 60
    ensures at < s.at <= |data|
  {
    var semi := EntityAt(data, at);
    if m.skip != [] || (m.inHead && !m.inTitle) then Step(m, at + 1, [], [])
    else Put(m, semi + 1, Piece(data, at))
  }

  function Act(data: seq<byte>, at: nat, m: Mode): (s: Step)
    requires at < |data|
    ensures at < s.at <= |data|
  {
    if data[at] == 60 then AtTag(data, at, m) else AtText(data, at, m)
  }

  /** The text of a whole run, before normalisation and with no limit. */
  function Raw(data: seq<byte>, at: nat, m: Mode): seq<byte>
    requires at <= |data|
    decreases |data| - at
  {
    if at == |data| then [] else var s := Act(data, at, m); s.text + Raw(data, s.at, s.mode)
  }

  function Begin(data: seq<byte>): (at: nat)
    ensures at <= |data|
  {
    if |data| >= 3 && data[..3] == [0xEF, 0xBB, 0xBF] then 3 else 0
  }

  /** The title of a whole run, before it is cut and normalised. */
  function RawTitle(data: seq<byte>, at: nat, m: Mode): seq<byte>
    requires at <= |data|
    decreases |data| - at
  {
    if at == |data| then [] else var s := Act(data, at, m); s.title + RawTitle(data, s.at, s.mode)
  }

  /** What a title keeps: its first 4096 bytes. */
  function Cut(title: seq<byte>): (r: seq<byte>)
    ensures |r| <= 4096 && r <= title
  {
    if |title| > 4096 then title[..4096] else title
  }

  function Title(data: seq<byte>): seq<byte> { Cut(RawTitle(data, Begin(data), Fresh())) }

  function Fresh(): Mode { Mode([], 0, false, false) }

  function Body(data: seq<byte>): seq<byte> { Raw(data, Begin(data), Fresh()) }

  // ---- The text is valid ----------------------------------------------------------------

  predicate Copying(m: Mode) { m.skip == [] && !m.inTitle && !m.inHead }

  /** Where the text stands inside a character: where the input does while bytes are
      being copied, between characters otherwise. */
  function Want(m: Mode, q: Place): Place { if Copying(m) then q else Start }

  function PlaceAt(data: seq<byte>, at: nat): Place
    requires at <= |data|
  {
    Scan(Start, data[..at])
  }

  lemma {:induction false} PlaceNext(data: seq<byte>, at: nat)
    requires at < |data|
    ensures PlaceAt(data, at + 1) == Move(PlaceAt(data, at), data[at])
  {
    assert data[..at + 1][..at] == data[..at];
  }

  lemma {:induction false} PlaceEnd(data: seq<byte>)
    requires Valid(data)
    ensures PlaceAt(data, |data|) == Start
  {
    assert data[..|data|] == data;
    ScanIsValid(data);
  }

  lemma {:induction false} AsciiScans(s: seq<byte>)
    requires forall i :: 0 <= i < |s| ==> s[i] < 0x80
    ensures Scan(Start, s) == Start
  {
    if s != [] { AsciiScans(s[..|s| - 1]); }
  }

  /** What follows an ASCII byte, or everything, starts between characters. */
  lemma {:induction false} AfterAscii(data: seq<byte>, next: nat)
    requires Valid(data) && 0 < next <= |data| && (next == |data| || data[next - 1] < 0x80)
    ensures PlaceAt(data, next) == Start
  {
    if next == |data| {
      PlaceEnd(data);
    } else {
      AsciiBoundary(data, next - 1);
    }
  }

  lemma TagTextAscii(m: Mode, tag: Tag)
    ensures forall i :: 0 <= i < |TagText(m, tag)| ==> TagText(m, tag)[i] < 0x80 && !Control(TagText(m, tag)[i])
  {
  }

  lemma {:induction false} TagPutsAscii(data: seq<byte>, at: nat, m: Mode)
    requires at < |data| && data[at] == 60
    ensures var s := AtTag(data, at, m); forall i :: 0 <= i < |s.text| ==> s.text[i] < 0x80 && !Control(s.text[i])
    ensures Clean(AtTag(data, at, m).title) && TagLike(data, at, AtTag(data, at, m))
  {
    var end := TagEnd(data, at + 1, 0);
    if end < |data| { TagTextAscii(m, TagName(data, at + 1, end)); }
  }

  lemma {:induction false} EntityScans(data: seq<byte>, at: nat, semi: nat)
    requires Valid(data) && at < semi < |data| && data[at] == 38 && data[semi] == 59 && Entity(data[at + 1..semi]) != []
    ensures Scan(PlaceAt(data, at), Entity(data[at + 1..semi])) == PlaceAt(data, semi + 1)
  {
    AsciiBoundary(data, at);
    AsciiBoundary(data, semi);
    EntityIsChar(data[at + 1..semi]);
    CharScans(Entity(data[at + 1..semi]));
  }

  lemma {:induction false} ByteScans(data: seq<byte>, at: nat)
    requires at < |data|
    ensures Scan(PlaceAt(data, at), [data[at]]) == PlaceAt(data, at + 1)
  {
    PlaceNext(data, at);
    ScanOne(PlaceAt(data, at), data[at]);
  }

  /** The bytes put for one position of text lead where the input leads. */
  lemma {:induction false} PieceScans(data: seq<byte>, at: nat, semi: nat, piece: seq<byte>)
    requires Valid(data) && at <= semi < |data|
    requires if at < semi then data[at] == 38 && data[semi] == 59 && piece == Entity(data[at + 1..semi]) && piece != []
             else piece == [data[at]]
    ensures Scan(PlaceAt(data, at), piece) == PlaceAt(data, semi + 1)
  {
    if at < semi { EntityScans(data, at, semi); } else { ByteScans(data, at); }
  }

  lemma TextStepScans(m: Mode, q: Place, r: Place, at: nat, piece: seq<byte>)
    requires m.skip == [] && (m.inHead ==> m.inTitle) && Scan(q, piece) == r
    ensures var s := Put(m, at, piece); Scan(Want(m, q), s.text) == Want(s.mode, r)
  {
  }

  lemma SilentStepScans(m: Mode, q: Place, r: Place)
    requires !Copying(m)
    ensures Scan(Want(m, q), []) == Want(m, r)
  {
  }

  /** A step over a tag, seen from outside: ASCII out, and it lands after ASCII. */
  predicate TagLike(data: seq<byte>, at: nat, s: Step) {
    && at < s.at <= |data| && (s.at == |data| || data[s.at - 1] < 0x80)
    && forall i :: 0 <= i < |s.text| ==> s.text[i] < 0x80
  }

  lemma {:induction false} TagScans(data: seq<byte>, at: nat, m: Mode, s: Step)
    requires Valid(data) && at < |data| && data[at] == 60 && TagLike(data, at, s)
    ensures Scan(Want(m, PlaceAt(data, at)), s.text) == Want(s.mode, PlaceAt(data, s.at))
  {
    AsciiBoundary(data, at);
    AfterAscii(data, s.at);
    AsciiScans(s.text);
  }

  lemma {:induction false} TextScans(data: seq<byte>, at: nat, m: Mode)
    requires Valid(data) && at < |data| && data[at] != 60
    ensures var s := AtText(data, at, m);
            Scan(Want(m, PlaceAt(data, at)), s.text) == Want(s.mode, PlaceAt(data, s.at))
  {
    if m.skip != [] || (m.inHead && !m.inTitle) {
      SilentStepScans(m, PlaceAt(data, at), PlaceAt(data, at + 1));
    } else {
      PieceTextScans(data, at, m, EntityAt(data, at), Piece(data, at));
    }
  }

  lemma {:induction false} PieceTextScans(data: seq<byte>, at: nat, m: Mode, semi: nat, piece: seq<byte>)
    requires Valid(data) && at <= semi < |data| && m.skip == [] && (m.inHead ==> m.inTitle)
    requires if at < semi then data[at] == 38 && data[semi] == 59 && piece == Entity(data[at + 1..semi]) && piece != []
             else piece == [data[at]]
    ensures var s := Put(m, semi + 1, piece);
            Scan(Want(m, PlaceAt(data, at)), s.text) == Want(s.mode, PlaceAt(data, s.at))
  {
    PieceScans(data, at, semi, piece);
    TextStepScans(m, PlaceAt(data, at), PlaceAt(data, semi + 1), semi + 1, piece);
  }

  lemma {:induction false} ActScans(data: seq<byte>, at: nat, m: Mode)
    requires Valid(data) && at < |data|
    ensures var s := Act(data, at, m);
            Scan(Want(m, PlaceAt(data, at)), s.text) == Want(s.mode, PlaceAt(data, s.at))
  {
    if data[at] == 60 {
      TagPutsAscii(data, at, m);
      TagScans(data, at, m, AtTag(data, at, m));
    } else {
      TextScans(data, at, m);
    }
  }

  lemma {:induction false} RawScans(data: seq<byte>, at: nat, m: Mode)
    requires Valid(data) && at <= |data|
    ensures Scan(Want(m, PlaceAt(data, at)), Raw(data, at, m)) == Start
    decreases |data| - at
  {
    if at == |data| {
      PlaceEnd(data);
    } else {
      var s := Act(data, at, m);
      ActScans(data, at, m);
      RawScans(data, s.at, s.mode);
      ScanAppend(Want(m, PlaceAt(data, at)), s.text, Raw(data, s.at, s.mode));
    }
  }

  lemma {:induction false} ActClean(data: seq<byte>, at: nat, m: Mode)
    requires Clean(data) && at < |data|
    ensures Clean(Act(data, at, m).text) && Clean(Act(data, at, m).title)
  {
    if data[at] == 60 {
      TagPutsAscii(data, at, m);
    } else {
      var semi := EntityAt(data, at);
      if at < semi { EntityIsChar(data[at + 1..semi]); }
    }
  }

  lemma {:induction false} RawClean(data: seq<byte>, at: nat, m: Mode)
    requires Clean(data) && at <= |data|
    ensures Clean(Raw(data, at, m))
    decreases |data| - at
  {
    if at < |data| {
      var s := Act(data, at, m);
      ActClean(data, at, m);
      RawClean(data, s.at, s.mode);
      CleanAppend(s.text, Raw(data, s.at, s.mode));
    }
  }

  /** Extracted text is valid UTF-8 without controls, and so is its normal form. */
  lemma {:induction false} BodyIsText(data: seq<byte>)
    requires Valid(data) && Clean(data)
    ensures Valid(Normal(Body(data), false)) && Clean(Normal(Body(data), false))
    ensures Valid(Body(data)) && Clean(Body(data))
  {
    var at := Begin(data);
    if at == 3 { CharScans(data[..3]); }
    RawScans(data, at, Fresh());
    RawClean(data, at, Fresh());
    NormalScans(Start, Body(data), false);
    NormalIsClean(Body(data), false);
    ScanIsValid(Body(data));
    ScanIsValid(Normal(Body(data), false));
  }

  // ---- What is left out and what is kept ----------------------------------------------------

  /** Inside a skipped element nothing is put anywhere. */
  lemma SkippedIsSilent(data: seq<byte>, at: nat, m: Mode)
    requires at < |data| && m.skip != []
    ensures Act(data, at, m).text == [] && Act(data, at, m).title == []
  {
  }

  /** Text without markup comes out as it is. */
  lemma {:induction false} PlainTextStays(data: seq<byte>, at: nat)
    requires at <= |data| && forall i :: at <= i < |data| ==> data[i] != 60 && data[i] != 38
    ensures Raw(data, at, Fresh()) == data[at..]
    decreases |data| - at
  {
    if at < |data| {
      PlainTextStays(data, at + 1);
      assert data[at..] == [data[at]] + data[at + 1..];
    }
  }

  // ---- The loop ---------------------------------------------------------------------------

  datatype Outcome = Text(text: seq<byte>, title: seq<byte>) | Error(reason: Reason)
  datatype Reason = OutputLimit | InputLimit | BadUtf8 | BadControl

  lemma {:induction false} RawStep(data: seq<byte>, at: nat, m: Mode, done: seq<byte>, goal: seq<byte>)
    requires at < |data| && done + Raw(data, at, m) == goal
    ensures var s := Act(data, at, m);
            done + s.text + Raw(data, s.at, s.mode) == goal && |done| + |s.text| <= |goal|
  {
    var s := Act(data, at, m);
    Assoc(done, s.text, Raw(data, s.at, s.mode));
  }

  /** samosa_html_extract. */
  method Extract(data: seq<byte>, limit: nat) returns (r: Outcome)
    ensures r.Text? <==> limit > 0 && TextOk(data) && |Body(data)| <= limit
    ensures r.Text? ==> r.text == Normal(Body(data), false) && r.title == Normal(Title(data), false)
    ensures r == Error(OutputLimit) <==> limit == 0 || (TextOk(data) && |Body(data)| > limit)
    ensures r == Error(BadUtf8) <==> limit > 0 && (data == [] || !Valid(data))
    ensures r != Error(InputLimit)
    ensures r.Text? ==> Valid(r.text) && Clean(r.text) && |r.text| <= limit && Tidy(r.text, false)
  {
    if limit == 0 { return Error(OutputLimit); }
    var verdict := TextValid(data);
    if verdict == InvalidUtf8 { return Error(BadUtf8); }
    if verdict == BinaryControl { return Error(BadControl); }
    var at, m, text, title: seq<byte> := Begin(data), Fresh(), [], [];
    ghost var named: seq<byte> := [];
    assert [] + Body(data) == Body(data) && [] + RawTitle(data, at, m) == RawTitle(data, at, m);
    while at < |data|
      invariant 0 <= at <= |data| && |text| <= limit && title == Cut(named) && Clean(title)
      invariant Cut(named + RawTitle(data, at, m)) == Title(data)
      invariant text + Raw(data, at, m) == Body(data)
    {
      RawStep(data, at, m, text, Body(data));
      var s := Act(data, at, m);
      if |s.text| > limit - |text| { return Error(OutputLimit); }
      text := text + s.text;
      ActClean(data, at, m);
      CutAppend(named, s.title, RawTitle(data, s.at, s.mode));
      title, named := TitlePut(title, s.title), named + s.title;
      at, m := s.at, s.mode;
    }
    assert text + [] == text && named + [] == named;
    BodyIsText(data);
    var body := Normalized(text);
    var name := Normalized(title);
    NormalKeepsInk(title, false);
    NormalKeepsInk(text, false);
    NormalIsTidy(text, false);
    r := Text(body, name);
  }

  /** title_putn: cut at the limit. */
  function TitlePut(title: seq<byte>, bytes: seq<byte>): (r: seq<byte>)
    requires |title| <= 4096
    ensures r == Cut(title + bytes) && (Clean(title) && Clean(bytes) ==> Clean(r))
  {
    title + (if |bytes| > 4096 - |title| then bytes[..4096 - |title|] else bytes)
  }

  lemma {:induction false} CutAppend(named: seq<byte>, bytes: seq<byte>, rest: seq<byte>)
    ensures Cut(Cut(named) + bytes) == Cut(named + bytes)
    ensures named + (bytes + rest) == named + bytes + rest
  {
  }

  method Normalized(text: seq<byte>) returns (r: seq<byte>)
    requires Clean(text)
    ensures r == Normal(text, false)
  {
    var a := new byte[|text|](i requires 0 <= i < |text| => text[i]);
    assert a[..] == text;
    var len := NormalizeWhitespace(a);
    r := a[..len];
  }

  /** samosa_html_extract_replacing_invalid. Input whose repair might not fit a size is
      refused; for any other bytes but none at all the outcome is text or the output
      limit, and the text is valid UTF-8 within the limit. */
  method ExtractReplacing(data: seq<byte>, limit: nat) returns (r: Outcome)
    ensures r == Error(InputLimit) <==> |data| > (U64_MAX - 1) / 3
    ensures 0 < |data| <= (U64_MAX - 1) / 3 ==> (r.Text? <==> limit > 0 && |Body(Repaired(data, 0))| <= limit)
    ensures 0 < |data| <= (U64_MAX - 1) / 3 && !r.Text? ==> r == Error(OutputLimit)
    ensures r.Text? ==> r.text == Normal(Body(Repaired(data, 0)), false)
    ensures r.Text? ==> r.title == Normal(Title(Repaired(data, 0)), false)
    ensures r.Text? ==> Valid(r.text) && Clean(r.text) && |r.text| <= limit && Tidy(r.text, false)
    ensures data == [] ==> r.Error?
  {
    if |data| > (U64_MAX - 1) / 3 { return Error(InputLimit); }
    var repaired := Repair(data);
    RepairedExactly(data);
    r := Extract(repaired, limit);
  }
}
