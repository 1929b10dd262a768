/** What extraction makes of a document: well-nested elements, comments, entities and
    plain text, each with its meaning, against the loop that scans the bytes. */
module HtmlDocument {
  import opened Basics
  import opened Utf8
  import opened HtmlText
  import opened HtmlExtract

  /** A tag as written: its name in any case, and whatever attributes follow. */
  datatype Written = Written(spelling: seq<byte>, rest: seq<byte>)

  datatype Node =
    | Plain(bytes: seq<byte>)
    | Reference(name: seq<byte>)
    | Comment(bytes: seq<byte>)
    | Void(tag: Written)
    | Element(open: Written, inner: Doc, close: Written)

  datatype Doc = End | Then(node: Node, more: Doc)

  // ---- Written out ------------------------------------------------------------------

  function OpenTag(w: Written): seq<byte> { [60] + w.spelling + w.rest + [62] }

  function CloseTag(w: Written): seq<byte> { [60, 47] + w.spelling + w.rest + [62] }

  function Render(doc: Doc): seq<byte> {
    match doc
    case End => []
    case Then(node, more) => RenderNode(node) + Render(more)
  }

  function RenderNode(node: Node): seq<byte> {
    match node
    case Plain(bytes) => bytes
    case Reference(name) => [38] + name + [59]
    case Comment(bytes) => [60, 33, 45, 45] + bytes + [45, 45, 62]
    case Void(tag) => OpenTag(tag)
    case Element(open, inner, close) => OpenTag(open) + Render(inner) + CloseTag(close)
  }

  // ---- What it means ----------------------------------------------------------------

  /** The name of a tag: lower case, at most 19 bytes. */
  function NameOf(w: Written): Name {
    var name := Lowered(w.spelling);
    if |name| > 19 then name[..19] else name
  }

  /** What a name is to the extraction: content to skip, the title, the head, or neither. */
  datatype Kind = Skip | TitleKind | HeadKind | Ordinary

  /** A vocabulary of tags: what each name is, and what its opening and its closing tag
      put in the text. */
  datatype Tags = Tags(kind: Name -> Kind, open: Name -> seq<byte>, close: Name -> seq<byte>)

  /** Where a node stands. */
  datatype Place = Place(title: bool, head: bool)

  /** The text and the title of a document. */
  datatype Meaning = Meaning(text: seq<byte>, title: seq<byte>)

  function Join(a: Meaning, b: Meaning): Meaning { Meaning(a.text + b.text, a.title + b.title) }

  function Nothing(): Meaning { Meaning([], []) }

  /** Bytes that are to be shown: in a title they are title, elsewhere in a head nothing. */
  function Shown(bytes: seq<byte>, p: Place): Meaning {
    if p.title then Meaning([], bytes) else if p.head then Nothing() else Meaning(bytes, [])
  }

  /** The line breaks and marks of tags; a title has none of them. */
  function Marked(bytes: seq<byte>, p: Place): Meaning { if p.title then Nothing() else Meaning(bytes, []) }

  function Means(v: Tags, doc: Doc, p: Place): Meaning {
    match doc
    case End => Nothing()
    case Then(node, more) => Join(NodeMeans(v, node, p), Means(v, more, p))
  }

  function NodeMeans(v: Tags, node: Node, p: Place): Meaning {
    match node
    case Plain(bytes) => Shown(bytes, p)
    case Reference(name) => Shown(Entity(name), p)
    case Comment(_) => Nothing()
    case Void(tag) => Marked(v.open(NameOf(tag)), p)
    case Element(open, inner, close) =>
      match v.kind(NameOf(open))
      case Skip => Nothing()
      case TitleKind => Means(v, inner, p.(title := true))
      case HeadKind => Means(v, inner, p.(head := true))
      case Ordinary =>
        Join(Join(Marked(v.open(NameOf(open)), p), Means(v, inner, p)), Marked(v.close(NameOf(open)), p))
  }

  // ---- Well formed --------------------------------------------------------------------

  predicate WellWritten(w: Written) {
    && w.spelling != [] && Letter(w.spelling[0]) && (forall i :: 0 <= i < |w.spelling| ==> NameByte(w.spelling[i]))
    && (w.rest != [] ==> !NameByte(w.rest[0]))
    && TagEnd(w.rest + [62], 0, 0) == |w.rest|
  }

  predicate Without(s: seq<byte>, c: byte) { c !in s }

  /** Elements close what they open; a title holds no title, a head no head, and inside a
      skipped element anything goes that is written as a document. */
  predicate Nested(v: Tags, doc: Doc, skipping: bool, p: Place) {
    match doc
    case End => true
    case Then(node, more) => NestedNode(v, node, skipping, p) && Nested(v, more, skipping, p)
  }

  predicate NestedNode(v: Tags, node: Node, skipping: bool, p: Place) {
    match node
    case Plain(bytes) => Without(bytes, 60) && (skipping || Without(bytes, 38))
    case Reference(name) => WellNamed(name)
    case Comment(bytes) => CommentEnd(bytes + [45, 45, 62], 0) == |bytes|
    case Void(tag) => WellWritten(tag) && v.kind(NameOf(tag)) == Ordinary
    case Element(open, inner, close) =>
      && WellWritten(open) && WellWritten(close) && NameOf(close) == NameOf(open)
      && if skipping then Nested(v, inner, true, p)
         else match v.kind(NameOf(open))
           case Skip => Nested(v, inner, true, p)
           case TitleKind => !p.title && Nested(v, inner, false, p.(title := true))
           case HeadKind => !p.head && Nested(v, inner, false, p.(head := true))
           case Ordinary => Nested(v, inner, false, p)
  }

  // ---- Tags -----------------------------------------------------------------------------

  /** `s` stands in the data at `at`. */
  predicate Stands(data: seq<byte>, at: nat, s: seq<byte>) {
    at + |s| <= |data| && data[at..at + |s|] == s
  }

  lemma {:induction false} StandsParts(data: seq<byte>, at: nat, a: seq<byte>, b: seq<byte>)
    requires Stands(data, at, a + b)
    ensures Stands(data, at, a) && Stands(data, at + |a|, b)
  {
    assert data[at..at + |a|] == (a + b)[..|a|];
    assert data[at + |a|..at + |a| + |b|] == (a + b)[|a|..];
  }

  lemma StandsByte(data: seq<byte>, at: nat, s: seq<byte>, i: nat)
    requires Stands(data, at, s) && i < |s|
    ensures data[at + i] == s[i]
  {
    assert data[at + i] == data[at..at + |s|][i];
  }

  lemma {:induction false} StandsCons(data: seq<byte>, at: nat, s: seq<byte>)
    requires Stands(data, at, s) && s != []
    ensures at < |data| && data[at] == s[0] && Stands(data, at + 1, s[1..])
    ensures forall c :: Without(s, c) ==> s[0] != c && Without(s[1..], c)
  {
    StandsByte(data, at, s, 0);
    assert s == [s[0]] + s[1..];
    StandsParts(data, at, [s[0]], s[1..]);
  }

  /** The end of a tag is found by looking at the tag alone. */
  lemma {:induction false} TagEndLocal(data: seq<byte>, at: nat, s: seq<byte>, j: nat, quote: byte)
    requires Stands(data, at, s) && j <= |s| && TagEnd(s, j, quote) < |s|
    ensures TagEnd(data, at + j, quote) == at + TagEnd(s, j, quote)
    decreases |s| - j
  {
    if j < |s| {
      StandsByte(data, at, s, j);
      var next := if quote != 0 then (if s[j] == quote then 0 else quote)
                  else if s[j] == 39 || s[j] == 34 then s[j] else 0;
      if quote != 0 || s[j] != 62 { TagEndLocal(data, at, s, j + 1, next); }
    }
  }

  lemma {:induction false} NamePasses(spelling: seq<byte>, rest: seq<byte>, j: nat)
    requires j <= |spelling| && forall i :: 0 <= i < |spelling| ==> NameByte(spelling[i])
    ensures TagEnd(spelling + rest, j, 0) == TagEnd(spelling + rest, |spelling|, 0)
    decreases |spelling| - j
  {
    if j < |spelling| {
      assert (spelling + rest)[j] == spelling[j];
      NamePasses(spelling, rest, j + 1);
    }
  }

  /** A written tag ends at its last byte. */
  lemma {:induction false} WrittenEnds(data: seq<byte>, at: nat, w: Written)
    requires WellWritten(w) && Stands(data, at, w.spelling + (w.rest + [62]))
    ensures TagEnd(data, at, 0) == at + |w.spelling| + |w.rest|
  {
    var tail := w.rest + [62];
    NamePasses(w.spelling, tail, 0);
    assert Stands(w.spelling + tail, |w.spelling|, tail);
    TagEndLocal(w.spelling + tail, |w.spelling|, tail, 0, 0);
    TagEndLocal(data, at, w.spelling + tail, 0, 0);
  }

  lemma {:induction false} NameReads(data: seq<byte>, at: nat, end: nat, spelling: seq<byte>, j: nat)
    requires at + |spelling| <= end <= |data| && Stands(data, at, spelling) && j <= |spelling|
    requires forall i :: 0 <= i < |spelling| ==> NameByte(spelling[i])
    requires at + |spelling| < end ==> !NameByte(data[at + |spelling|])
    ensures NameFrom(data, at + j, end) == Lowered(spelling[j..])
    decreases |spelling| - j
  {
    if j < |spelling| {
      StandsByte(data, at, spelling, j);
      NameReads(data, at, end, spelling, j + 1);
      assert Lowered(spelling[j..]) == [Lower(spelling[j])] + Lowered(spelling[j + 1..]);
    }
  }

  lemma LetterIsNoSpace(c: byte)
    requires Letter(c)
    ensures !Space(c) && c != 47 && c != 33 && c != 63 && c != 62 && c != 39 && c != 34
  {
  }

  /** The name of a written tag, read from where it starts. */
  lemma {:induction false} WrittenNames(data: seq<byte>, at: nat, w: Written)
    requires WellWritten(w) && Stands(data, at, w.spelling + (w.rest + [62]))
    ensures NameFrom(data, at, at + |w.spelling| + |w.rest|) == Lowered(w.spelling)
    ensures Letter(data[at])
  {
    var tail := w.rest + [62];
    StandsParts(data, at, w.spelling, tail);
    StandsByte(data, at, w.spelling, 0);
    if w.rest != [] { StandsByte(data, at + |w.spelling|, tail, 0); }
    NameReads(data, at, at + |w.spelling| + |w.rest|, w.spelling, 0);
    assert w.spelling[0..] == w.spelling;
  }

  /** A tag that stands in the data: where its name starts and where it ends. */
  lemma {:induction false} WrittenStands(data: seq<byte>, at: nat, head: seq<byte>, w: Written)
    requires WellWritten(w) && Stands(data, at, head + w.spelling + w.rest + [62])
    ensures var from := at + |head|; var end := from + |w.spelling| + |w.rest|;
            && from < end < |data| && Stands(data, at, head) && TagEnd(data, from, 0) == end
            && Letter(data[from]) && NameFrom(data, from, end) == Lowered(w.spelling)
  {
    var tail := w.spelling + (w.rest + [62]);
    assert head + w.spelling + w.rest + [62] == head + tail;
    StandsParts(data, at, head, tail);
    WrittenEnds(data, at + |head|, w);
    WrittenNames(data, at + |head|, w);
  }

  lemma OpenNames(data: seq<byte>, at: nat, end: nat, name: Name)
    requires at < end <= |data| && Letter(data[at]) && NameFrom(data, at, end) == name
    ensures TagName(data, at, end) == Tag(if |name| > 19 then name[..19] else name, false)
  {
    LetterIsNoSpace(data[at]);
    assert SpacesEnd(data, at, end) == at;
  }

  lemma NotComment(data: seq<byte>, at: nat)
    requires at + 1 < |data| && data[at + 1] != 33
    ensures !PrefixCi(data, at, [60, 33, 45, 45])
  {
    var p: seq<byte> := [60, 33, 45, 45];
    assert p[1] == 33 && Lower(data[at + 1]) != 33;
  }

  lemma SlashPasses(data: seq<byte>, at: nat, end: nat)
    requires at + 1 < end <= |data| && data[at] == 47 && TagEnd(data, at + 1, 0) == end
    ensures TagEnd(data, at, 0) == end
  {
  }

  lemma CloseNames(data: seq<byte>, at: nat, end: nat, name: Name)
    requires at + 1 < end <= |data| && data[at] == 47 && Letter(data[at + 1]) && NameFrom(data, at + 1, end) == name
    ensures TagName(data, at, end) == Tag(if |name| > 19 then name[..19] else name, true)
  {
    LetterIsNoSpace(data[at + 1]);
    assert SpacesEnd(data, at, end) == at && SpacesEnd(data, at + 1, end) == at + 1;
  }

  // ---- Runs -------------------------------------------------------------------------------

  /** What a whole run puts, from a position in a mode. */
  type Runner = (nat, Mode) -> Meaning

  /** Marks the positions at which a run is to be followed for a step. */
  predicate Followed(at: nat, m: Mode) {
    true
  }

  function Puts(s: Step): Meaning { Meaning(s.text, s.title) }

  ghost predicate Follows(run: Runner, data: seq<byte>) {
    forall at: nat, m: Mode {:trigger Followed(at, m)} :: at < |data| && Followed(at, m) ==>
      run(at, m) == Join(Puts(Act(data, at, m)), run(Act(data, at, m).at, Act(data, at, m).mode))
  }

  /** From `at` in mode `m` the run puts `meaning` and comes to `end` in mode `after`. */
  predicate Yields(run: Runner, at: nat, m: Mode, meaning: Meaning, end: nat, after: Mode) {
    run(at, m) == Join(meaning, run(end, after))
  }

  lemma JoinNothing(a: Meaning)
    ensures Join(a, Nothing()) == a && Join(Nothing(), a) == a
  {
  }

  lemma YieldsNothing(run: Runner, at: nat, m: Mode)
    ensures Yields(run, at, m, Nothing(), at, m)
  {
    JoinNothing(run(at, m));
  }

  lemma YieldsThen(run: Runner, at: nat, m: Mode, a: Meaning, mid: nat, n: Mode, b: Meaning, end: nat, after: Mode)
    requires Yields(run, at, m, a, mid, n) && Yields(run, mid, n, b, end, after)
    ensures Yields(run, at, m, Join(a, b), end, after)
  {
    Assoc(a.text, b.text, run(end, after).text);
    Assoc(a.title, b.title, run(end, after).title);
  }

  lemma YieldsStep(run: Runner, data: seq<byte>, at: nat, m: Mode, s: Step)
    requires Follows(run, data) && at < |data| && Act(data, at, m) == s
    ensures Yields(run, at, m, Puts(s), s.at, s.mode)
  {
    assert Followed(at, m);
  }

  predicate Silent(m: Mode) { m.skip != [] || (m.inHead && !m.inTitle) }

  function PlaceOf(m: Mode): Place { Place(m.inTitle, m.inHead) }

  lemma SilentStep(run: Runner, data: seq<byte>, at: nat, m: Mode)
    requires Follows(run, data) && at < |data| && data[at] != 60 && Silent(m)
    ensures Yields(run, at, m, Nothing(), at + 1, m)
  {
    YieldsStep(run, data, at, m, Step(m, at + 1, [], []));
  }

  /** Bytes that start no tag put nothing where nothing is shown. */
  lemma {:induction false} SilentYields(run: Runner, data: seq<byte>, at: nat, s: seq<byte>, m: Mode)
    requires Follows(run, data) && Stands(data, at, s) && Without(s, 60) && Silent(m)
    ensures Yields(run, at, m, Nothing(), at + |s|, m)
    decreases |s|
  {
    if s == [] {
      YieldsNothing(run, at, m);
    } else {
      StandsCons(data, at, s);
      SilentStep(run, data, at, m);
      SilentYields(run, data, at + 1, s[1..], m);
      YieldsThen(run, at, m, Nothing(), at + 1, m, Nothing(), at + |s|, m);
    }
  }

  lemma ShownCons(s: seq<byte>, p: Place)
    requires s != []
    ensures Join(Shown([s[0]], p), Shown(s[1..], p)) == Shown(s, p)
  {
    assert [s[0]] + s[1..] == s;
  }

  lemma PlainStep(run: Runner, data: seq<byte>, at: nat, m: Mode)
    requires Follows(run, data) && at < |data| && data[at] != 60 && data[at] != 38 && !Silent(m)
    ensures Yields(run, at, m, Shown([data[at]], PlaceOf(m)), at + 1, m)
  {
    YieldsStep(run, data, at, m, Put(m, at + 1, [data[at]]));
  }

  lemma {:induction false} PlainYields(run: Runner, data: seq<byte>, at: nat, s: seq<byte>, m: Mode)
    requires Follows(run, data) && Stands(data, at, s) && Without(s, 60) && Without(s, 38) && !Silent(m)
    ensures Yields(run, at, m, Shown(s, PlaceOf(m)), at + |s|, m)
    decreases |s|
  {
    if s == [] {
      YieldsNothing(run, at, m);
    } else {
      StandsCons(data, at, s);
      PlainYields(run, data, at + 1, s[1..], m);
      PlainStep(run, data, at, m);
      ShownCons(s, PlaceOf(m));
      YieldsThen(run, at, m, Shown([s[0]], PlaceOf(m)), at + 1, m, Shown(s[1..], PlaceOf(m)), at + |s|, m);
    }
  }

  /** The search for the end of an entity stops at its semicolon. */
  lemma {:induction false} EntityEnds(data: seq<byte>, at: nat, name: seq<byte>, j: nat)
    requires Stands(data, at + 1, name + [59]) && j <= |name| <= 32
    requires Without(name, 59) && Without(name, 60) && forall i :: 0 <= i < |name| ==> !Space(name[i])
    ensures EntityEnd(data, at, at + 1 + j) == at + 1 + |name|
    decreases |name| - j
  {
    StandsByte(data, at + 1, name + [59], j);
    if j < |name| {
      assert (name + [59])[j] == name[j] && name[j] in name;
      EntityEnds(data, at, name, j + 1);
    }
  }

  predicate WellNamed(name: seq<byte>) {
    && |name| <= 32 && Entity(name) != [] && Without(name, 59) && Without(name, 60)
    && forall i :: 0 <= i < |name| ==> !Space(name[i])
  }

  lemma {:induction false} ReferenceAt(data: seq<byte>, at: nat, name: seq<byte>)
    requires Stands(data, at, [38] + name + [59]) && WellNamed(name)
    ensures at + |name| + 2 <= |data| && data[at] == 38 && data[at + 1..at + 1 + |name|] == name
    ensures data[at + 1 + |name|] == 59 && EntityEnd(data, at, at + 1) == at + 1 + |name|
  {
    assert [38] + name + [59] == [38] + (name + [59]);
    StandsParts(data, at, [38], name + [59]);
    StandsByte(data, at, [38], 0);
    StandsByte(data, at + 1, name + [59], |name|);
    StandsParts(data, at + 1, name, [59]);
    EntityEnds(data, at, name, 0);
  }

  lemma ReferencePiece(data: seq<byte>, at: nat, name: seq<byte>)
    requires Entity(name) != []
    requires at + |name| + 2 <= |data| && data[at] == 38 && data[at + 1..at + 1 + |name|] == name
    requires data[at + 1 + |name|] == 59 && EntityEnd(data, at, at + 1) == at + 1 + |name|
    ensures EntityAt(data, at) == at + 1 + |name| && HtmlExtract.Piece(data, at) == Entity(name)
  {
  }

  lemma ReferenceStep(run: Runner, data: seq<byte>, at: nat, name: seq<byte>, m: Mode)
    requires Follows(run, data) && !Silent(m) && Entity(name) != []
    requires at + |name| + 2 <= |data| && data[at] == 38 && data[at + 1..at + 1 + |name|] == name
    requires data[at + 1 + |name|] == 59 && EntityEnd(data, at, at + 1) == at + 1 + |name|
    ensures Yields(run, at, m, Shown(Entity(name), PlaceOf(m)), at + |name| + 2, m)
  {
    ReferencePiece(data, at, name);
    YieldsStep(run, data, at, m, Put(m, at + |name| + 2, Entity(name)));
  }

  lemma {:induction false} ReferenceYields(run: Runner, data: seq<byte>, at: nat, name: seq<byte>, m: Mode)
    requires Follows(run, data) && Stands(data, at, [38] + name + [59]) && !Silent(m) && WellNamed(name)
    ensures Yields(run, at, m, Shown(Entity(name), PlaceOf(m)), at + |name| + 2, m)
  {
    ReferenceAt(data, at, name);
    ReferenceStep(run, data, at, name, m);
  }

  lemma {:induction false} CommentEnds(data: seq<byte>, at: nat, s: seq<byte>, j: nat)
    requires Stands(data, at, s) && j <= |s| && CommentEnd(s, j) < |s|
    ensures CommentEnd(data, at + j) == at + CommentEnd(s, j)
    decreases |s| - j
  {
    if j + 3 <= |s| {
      StandsByte(data, at, s, j);
      StandsByte(data, at, s, j + 1);
      StandsByte(data, at, s, j + 2);
      if !(s[j] == 45 && s[j + 1] == 45 && s[j + 2] == 62) { CommentEnds(data, at, s, j + 1); }
    }
  }

  lemma CommentStarts(data: seq<byte>, at: nat)
    requires Stands(data, at, [60, 33, 45, 45])
    ensures at + 4 <= |data| && data[at] == 60 && PrefixCi(data, at, [60, 33, 45, 45])
  {
    var head: seq<byte> := [60, 33, 45, 45];
    forall i | 0 <= i < 4
      ensures data[at + i] == head[i]
    {
      StandsByte(data, at, head, i);
    }
  }

  lemma CommentStep(run: Runner, data: seq<byte>, at: nat, end: nat, m: Mode)
    requires Follows(run, data) && at + 4 <= end < end + 3 <= |data|
    requires data[at] == 60 && PrefixCi(data, at, [60, 33, 45, 45]) && CommentEnd(data, at + 4) == end
    ensures Yields(run, at, m, Nothing(), end + 3, m)
  {
    YieldsStep(run, data, at, m, Step(m, end + 3, [], []));
  }

  lemma {:induction false} CommentYields(run: Runner, data: seq<byte>, at: nat, bytes: seq<byte>, m: Mode)
    requires Follows(run, data) && Stands(data, at, [60, 33, 45, 45] + bytes + [45, 45, 62])
    requires CommentEnd(bytes + [45, 45, 62], 0) == |bytes|
    ensures Yields(run, at, m, Nothing(), at + |bytes| + 7, m)
  {
    var head: seq<byte>, tail := [60, 33, 45, 45], bytes + [45, 45, 62];
    assert head + bytes + [45, 45, 62] == head + tail;
    StandsParts(data, at, head, tail);
    CommentEnds(data, at + 4, tail, 0);
    CommentStarts(data, at);
    CommentStep(run, data, at, at + 4 + |bytes|, m);
  }

  // ---- Tags and their modes ---------------------------------------------------------------

  ghost predicate Orderly(v: Tags, m: Mode) {
    && |m.skip| <= 32 && (m.overflow > 0 ==> |m.skip| == 32)
    && forall i :: 0 <= i < |m.skip| ==> v.kind(m.skip[i]) == Skip
  }

  /** What a tag puts. */
  function TagMeans(v: Tags, tag: Tag, m: Mode): Meaning {
    if m.skip != [] then Nothing()
    else match v.kind(tag.name)
      case Skip => if tag.closing then Marked(v.close(tag.name), PlaceOf(m)) else Nothing()
      case Ordinary => Marked(if tag.closing then v.close(tag.name) else v.open(tag.name), PlaceOf(m))
      case _ => Nothing()
  }

  /** Skipped elements are stacked, and counted once 32 of them are open. */
  function After(v: Tags, tag: Tag, m: Mode): Mode {
    var kind := v.kind(tag.name);
    if m.skip != [] then
      if kind != Skip then m
      else if !tag.closing then
        if |m.skip| < 32 then m.(skip := m.skip + [tag.name]) else m.(overflow := m.overflow + 1)
      else if m.overflow > 0 then m.(overflow := m.overflow - 1)
      else if tag.name == m.skip[|m.skip| - 1] then m.(skip := m.skip[..|m.skip| - 1])
      else m
    else match kind
      case Skip => if tag.closing then m else m.(skip := [tag.name])
      case TitleKind => m.(inTitle := !tag.closing)
      case HeadKind => m.(inHead := !tag.closing)
      case Ordinary => m
  }

  predicate Looked(tag: Tag, m: Mode) {
    true
  }

  /** The vocabulary is that of the extraction. */
  ghost predicate Fits(v: Tags) {
    forall tag: Tag, m: Mode {:trigger Looked(tag, m)} :: Looked(tag, m) && Orderly(v, m) ==>
      TagMode(m, tag) == After(v, tag, m) && Meaning(TagText(m, tag), []) == TagMeans(v, tag, m)
  }

  /** A tag of this name stands here and ends there. */
  predicate TagAt(data: seq<byte>, at: nat, end: nat, tag: Tag) {
    && at + 1 < end < |data| && data[at] == 60 && data[at + 1] != 33
    && TagEnd(data, at + 1, 0) == end && TagName(data, at + 1, end) == tag && tag.name != []
  }

  /** One pass over a tag whose end and name are known. */
  lemma TagActs(run: Runner, data: seq<byte>, at: nat, end: nat, tag: Tag, m: Mode, after: Mode, a: Meaning)
    requires Follows(run, data) && TagAt(data, at, end, tag)
    requires after == TagMode(m, tag) && a == Meaning(TagText(m, tag), [])
    ensures Yields(run, at, m, a, end + 1, after)
  {
    NotComment(data, at);
    YieldsStep(run, data, at, m, Step(after, end + 1, a.text, []));
  }

  lemma TagStep(v: Tags, run: Runner, data: seq<byte>, at: nat, end: nat, tag: Tag, m: Mode)
    requires Follows(run, data) && Fits(v) && Orderly(v, m) && TagAt(data, at, end, tag)
    ensures Yields(run, at, m, TagMeans(v, tag, m), end + 1, After(v, tag, m))
  {
    assert Looked(tag, m);
    TagActs(run, data, at, end, tag, m, After(v, tag, m), TagMeans(v, tag, m));
  }

  lemma {:induction false} OpenIs(data: seq<byte>, at: nat, w: Written)
    requires WellWritten(w) && Stands(data, at, OpenTag(w))
    ensures TagAt(data, at, at + |OpenTag(w)| - 1, Tag(NameOf(w), false))
  {
    WrittenStands(data, at, [60], w);
    StandsByte(data, at, [60], 0);
    var end := at + 1 + |w.spelling| + |w.rest|;
    OpenNames(data, at + 1, end, NameFrom(data, at + 1, end));
    LetterIsNoSpace(data[at + 1]);
  }

  lemma {:induction false} CloseStands(data: seq<byte>, at: nat, w: Written)
    requires WellWritten(w) && Stands(data, at, CloseTag(w))
    ensures var end := at + |CloseTag(w)| - 1;
            && at + 2 < end < |data| && data[at] == 60 && data[at + 1] == 47 && Letter(data[at + 2])
            && TagEnd(data, at + 2, 0) == end && NameFrom(data, at + 2, end) == Lowered(w.spelling)
  {
    WrittenStands(data, at, [60, 47], w);
    StandsByte(data, at, [60, 47], 0);
    StandsByte(data, at, [60, 47], 1);
  }

  lemma {:induction false} CloseIs(data: seq<byte>, at: nat, w: Written)
    requires WellWritten(w) && Stands(data, at, CloseTag(w))
    ensures TagAt(data, at, at + |CloseTag(w)| - 1, Tag(NameOf(w), true))
  {
    CloseStands(data, at, w);
    SlashedTag(data, at, at + |CloseTag(w)| - 1, Lowered(w.spelling));
  }

  lemma SlashedTag(data: seq<byte>, at: nat, end: nat, name: Name)
    requires at + 2 < end < |data| && data[at] == 60 && data[at + 1] == 47 && Letter(data[at + 2]) && name != []
    requires TagEnd(data, at + 2, 0) == end && NameFrom(data, at + 2, end) == name
    ensures TagAt(data, at, end, Tag(if |name| > 19 then name[..19] else name, true))
  {
    SlashPasses(data, at + 1, end);
    CloseNames(data, at + 1, end, name);
  }

  lemma OpenYields(v: Tags, run: Runner, data: seq<byte>, at: nat, w: Written, m: Mode)
    requires Follows(run, data) && Fits(v) && Orderly(v, m) && WellWritten(w) && Stands(data, at, OpenTag(w))
    ensures var tag := Tag(NameOf(w), false);
            Yields(run, at, m, TagMeans(v, tag, m), at + |OpenTag(w)|, After(v, tag, m))
  {
    OpenIs(data, at, w);
    TagStep(v, run, data, at, at + |OpenTag(w)| - 1, Tag(NameOf(w), false), m);
  }

  lemma CloseYields(v: Tags, run: Runner, data: seq<byte>, at: nat, w: Written, m: Mode)
    requires Follows(run, data) && Fits(v) && Orderly(v, m) && WellWritten(w) && Stands(data, at, CloseTag(w))
    ensures var tag := Tag(NameOf(w), true);
            Yields(run, at, m, TagMeans(v, tag, m), at + |CloseTag(w)|, After(v, tag, m))
  {
    CloseIs(data, at, w);
    TagStep(v, run, data, at, at + |CloseTag(w)| - 1, Tag(NameOf(w), true), m);
  }

  /** An element of this kind may be opened where the mode is `m`. */
  predicate MayOpen(kind: Kind, m: Mode) {
    m.skip != [] || ((kind == TitleKind ==> !m.inTitle) && (kind == HeadKind ==> !m.inHead))
  }

  /** Between an opening tag and its closing tag. */
  function Inside(v: Tags, name: Name, m: Mode): Mode { After(v, Tag(name, false), m) }

  /** A closing tag brings back the mode from before its opening tag, at any depth. */
  lemma {:induction false} Restores(v: Tags, name: Name, m: Mode)
    requires Orderly(v, m) && MayOpen(v.kind(name), m)
    ensures Orderly(v, Inside(v, name, m)) && After(v, Tag(name, true), Inside(v, name, m)) == m
  {
    if v.kind(name) == Skip && |m.skip| < 32 { Pushed(v, name, m); }
  }

  lemma {:induction false} Pushed(v: Tags, name: Name, m: Mode)
    requires Orderly(v, m) && v.kind(name) == Skip && |m.skip| < 32
    ensures Inside(v, name, m) == m.(skip := m.skip + [name])
    ensures Orderly(v, Inside(v, name, m)) && After(v, Tag(name, true), Inside(v, name, m)) == m
  {
    PushPops(m.skip, name);
    assert m.skip == [] ==> m.skip + [name] == [name];
  }

  lemma PushPops(skip: seq<Name>, name: Name)
    ensures (skip + [name])[..|skip|] == skip && (skip + [name])[|skip|] == name
  {
  }

  lemma {:induction false} InsidePlace(v: Tags, name: Name, m: Mode)
    ensures var n := Inside(v, name, m);
            if m.skip != [] || v.kind(name) == Skip then n.skip != []
            else n.skip == [] && PlaceOf(n) == match v.kind(name)
                                               case TitleKind => PlaceOf(m).(title := true)
                                               case HeadKind => PlaceOf(m).(head := true)
                                               case _ => PlaceOf(m)
  {
  }

  function InMode(a: Meaning, m: Mode): Meaning { if m.skip != [] then Nothing() else a }

  /** An element around what its inside yields. */
  lemma {:induction false} ElementYields(v: Tags, run: Runner, data: seq<byte>, at: nat, open: Written, length: nat,
                                         a: Meaning, close: Written, m: Mode)
    requires Follows(run, data) && Fits(v) && Orderly(v, m) && MayOpen(v.kind(NameOf(open)), m)
    requires WellWritten(open) && WellWritten(close) && NameOf(open) == NameOf(close)
    requires Stands(data, at, OpenTag(open)) && Stands(data, at + |OpenTag(open)| + length, CloseTag(close))
    requires var n := Inside(v, NameOf(open), m);
             Yields(run, at + |OpenTag(open)|, n, a, at + |OpenTag(open)| + length, n)
    ensures var name := NameOf(open);
            Yields(run, at, m,
                   Join(Join(TagMeans(v, Tag(name, false), m), a), TagMeans(v, Tag(name, true), Inside(v, name, m))),
                   at + |OpenTag(open)| + length + |CloseTag(close)|, m)
  {
    var name, mid := NameOf(open), at + |OpenTag(open)|;
    var n, b := Inside(v, name, m), TagMeans(v, Tag(name, false), m);
    OpenYields(v, run, data, at, open, m);
    Restores(v, name, m);
    CloseYields(v, run, data, mid + length, close, n);
    YieldsThen(run, at, m, b, mid, n, a, mid + length, n);
    YieldsThen(run, at, m, Join(b, a), mid + length, n, TagMeans(v, Tag(name, true), n),
               mid + length + |CloseTag(close)|, m);
  }

  // ---- Whole documents ----------------------------------------------------------------------

  lemma {:induction false} DocYields(v: Tags, run: Runner, data: seq<byte>, at: nat, doc: Doc, m: Mode)
    requires Follows(run, data) && Fits(v) && Orderly(v, m) && Stands(data, at, Render(doc))
    requires Nested(v, doc, m.skip != [], PlaceOf(m))
    ensures Yields(run, at, m, InMode(Means(v, doc, PlaceOf(m)), m), at + |Render(doc)|, m)
    decreases doc, 0
  {
    match doc {
      case End => YieldsNothing(run, at, m);
      case Then(node, more) =>
        StandsParts(data, at, RenderNode(node), Render(more));
        NodeYields(v, run, data, at, node, m);
        DocYields(v, run, data, at + |RenderNode(node)|, more, m);
        ThenYields(run, at, NodeMeans(v, node, PlaceOf(m)), at + |RenderNode(node)|, Means(v, more, PlaceOf(m)),
                   at + |Render(doc)|, m);
    }
  }

  lemma ThenYields(run: Runner, at: nat, a: Meaning, mid: nat, b: Meaning, end: nat, m: Mode)
    requires Yields(run, at, m, InMode(a, m), mid, m) && Yields(run, mid, m, InMode(b, m), end, m)
    ensures Yields(run, at, m, InMode(Join(a, b), m), end, m)
  {
    YieldsThen(run, at, m, InMode(a, m), mid, m, InMode(b, m), end, m);
    JoinNothing(Nothing());
  }

  lemma {:induction false} NodeYields(v: Tags, run: Runner, data: seq<byte>, at: nat, node: Node, m: Mode)
    requires Follows(run, data) && Fits(v) && Orderly(v, m) && Stands(data, at, RenderNode(node))
    requires NestedNode(v, node, m.skip != [], PlaceOf(m))
    ensures Yields(run, at, m, InMode(NodeMeans(v, node, PlaceOf(m)), m), at + |RenderNode(node)|, m)
    decreases node, 0
  {
    match node {
      case Plain(bytes) => BytesYield(run, data, at, bytes, m);
      case Reference(name) => EntityYields(run, data, at, name, m);
      case Comment(bytes) => CommentYields(run, data, at, bytes, m);
      case Void(tag) => OpenYields(v, run, data, at, tag, m);
      case Element(open, inner, close) => InsideYields(v, run, data, at, open, inner, close, m);
    }
  }

  lemma ShownInMode(bytes: seq<byte>, m: Mode)
    ensures InMode(Shown(bytes, PlaceOf(m)), m) == if Silent(m) then Nothing() else Shown(bytes, PlaceOf(m))
  {
  }

  lemma {:induction false} BytesYield(run: Runner, data: seq<byte>, at: nat, bytes: seq<byte>, m: Mode)
    requires Follows(run, data) && Stands(data, at, bytes) && Without(bytes, 60)
    requires m.skip != [] || Without(bytes, 38)
    ensures Yields(run, at, m, InMode(Shown(bytes, PlaceOf(m)), m), at + |bytes|, m)
  {
    ShownInMode(bytes, m);
    if Silent(m) { SilentYields(run, data, at, bytes, m); } else { PlainYields(run, data, at, bytes, m); }
  }

  lemma {:induction false} EntityYields(run: Runner, data: seq<byte>, at: nat, name: seq<byte>, m: Mode)
    requires Follows(run, data) && Stands(data, at, [38] + name + [59]) && WellNamed(name)
    ensures Yields(run, at, m, InMode(Shown(Entity(name), PlaceOf(m)), m), at + |[38] + name + [59]|, m)
  {
    ShownInMode(Entity(name), m);
    if Silent(m) {
      SilentYields(run, data, at, [38] + name + [59], m);
    } else {
      ReferenceYields(run, data, at, name, m);
    }
  }

  lemma {:induction false} InsideYields(v: Tags, run: Runner, data: seq<byte>, at: nat, open: Written, inner: Doc,
                                        close: Written, m: Mode)
    requires Follows(run, data) && Fits(v) && Orderly(v, m)
    requires Stands(data, at, OpenTag(open) + Render(inner) + CloseTag(close))
    requires NestedNode(v, Element(open, inner, close), m.skip != [], PlaceOf(m))
    ensures Yields(run, at, m, InMode(NodeMeans(v, Element(open, inner, close), PlaceOf(m)), m),
                   at + |OpenTag(open) + Render(inner) + CloseTag(close)|, m)
    decreases inner, 1
  {
    var name, mid := NameOf(open), at + |OpenTag(open)|;
    var n := Inside(v, name, m);
    StandsParts(data, at, OpenTag(open) + Render(inner), CloseTag(close));
    StandsParts(data, at, OpenTag(open), Render(inner));
    Restores(v, name, m);
    InsidePlace(v, name, m);
    DocYields(v, run, data, mid, inner, n);
    var a := InMode(Means(v, inner, PlaceOf(n)), n);
    ElementYields(v, run, data, at, open, |Render(inner)|, a, close, m);
    ElementMeans(v, open, inner, close, m);
  }

  lemma {:induction false} ElementMeans(v: Tags, open: Written, inner: Doc, close: Written, m: Mode)
    requires Orderly(v, m)
    ensures var name := NameOf(open); var n := Inside(v, name, m);
            Join(Join(TagMeans(v, Tag(name, false), m), InMode(Means(v, inner, PlaceOf(n)), n)),
                 TagMeans(v, Tag(name, true), n))
            == InMode(NodeMeans(v, Element(open, inner, close), PlaceOf(m)), m)
  {
    InsidePlace(v, NameOf(open), m);
    JoinNothing(Means(v, inner, PlaceOf(Inside(v, NameOf(open), m))));
    JoinNothing(Nothing());
  }

  // ---- The vocabulary of HTML -----------------------------------------------------------------

  function KindOf(name: Name): Kind {
    if name == Ascii("script") || name == Ascii("style") || name == Ascii("svg") || name == Ascii("noscript")
       || name == Ascii("template") || name == Ascii("iframe") || name == Ascii("object") then Skip
    else if name == Ascii("title") then TitleKind
    else if name == Ascii("head") then HeadKind
    else Ordinary
  }

  predicate NewLine(name: Name) {
    || name in {Ascii("br"), Ascii("hr"), Ascii("p"), Ascii("div"), Ascii("pre"), Ascii("ul"), Ascii("ol"), Ascii("dl")}
    || name in {Ascii("dd"), Ascii("dt"), Ascii("table"), Ascii("tr"), Ascii("form"), Ascii("figure")}
    || name in {Ascii("h1"), Ascii("h2"), Ascii("h3"), Ascii("h4"), Ascii("h5"), Ascii("h6"), Ascii("blockquote")}
    || name in {Ascii("address"), Ascii("article"), Ascii("aside"), Ascii("figcaption"), Ascii("footer")}
    || name in {Ascii("header"), Ascii("main"), Ascii("nav"), Ascii("section")}
  }

  /** A block tag breaks the line, an item starts on its own with a dash, a cell ends in a
      bar. */
  function Html(): Tags {
    Tags(name => KindOf(name),
         name => (if NewLine(name) then [10] else []) + (if name == Ascii("li") then [10, 45, 32] else []),
         name => (if NewLine(name) then [10] else [])
                 + (if name == Ascii("td") || name == Ascii("th") then [32, 124, 32] else []))
  }

  /** No skipped name is title or head. */
  lemma SkippedOthers(name: Name)
    requires SkipTag(name)
    ensures name != Ascii("title") && name != Ascii("head")
  {
    assert Ascii("title")[0] == 116 && Ascii("title")[1] == 105 && |Ascii("title")| == 5;
    assert Ascii("head")[0] == 104 && |Ascii("head")| == 4;
    assert Ascii("style")[0] == 115;
  }

  lemma {:induction false} KindIs(name: Name)
    ensures KindOf(name) == if SkipTag(name) then Skip else if name == Ascii("title") then TitleKind
                            else if name == Ascii("head") then HeadKind else Ordinary
    ensures SkipTag(name) ==> name != Ascii("title") && name != Ascii("head")
  {
    if SkipTag(name) { SkippedOthers(name); }
  }

  lemma NewLineIsBreak(name: Name)
    ensures NewLine(name) <==> BreakTag(name)
  {
  }

  lemma HtmlIs(name: Name)
    ensures Html().kind(name) == KindOf(name)
  {
  }

  lemma {:induction false} HtmlModes(tag: Tag, m: Mode)
    requires Orderly(Html(), m)
    ensures TagMode(m, tag) == After(Html(), tag, m)
  {
    HtmlIs(tag.name);
    KindIs(tag.name);
    if m.skip != [] {
      HtmlIs(m.skip[|m.skip| - 1]);
      KindIs(m.skip[|m.skip| - 1]);
    }
  }

  lemma {:induction false} HtmlMarks(tag: Tag, m: Mode)
    ensures Meaning(TagText(m, tag), []) == TagMeans(Html(), tag, m)
  {
    HtmlIs(tag.name);
    KindIs(tag.name);
    NewLineIsBreak(tag.name);
  }

  lemma {:induction false} HtmlFits()
    ensures Fits(Html())
  {
    forall tag: Tag, m: Mode | Orderly(Html(), m)
      ensures TagMode(m, tag) == After(Html(), tag, m)
      ensures Meaning(TagText(m, tag), []) == TagMeans(Html(), tag, m)
    {
      HtmlModes(tag, m);
      HtmlMarks(tag, m);
    }
  }

  /** The run of the extraction loop itself. */
  ghost function Extraction(data: seq<byte>): Runner {
    (at: nat, m: Mode) =>
      if at <= |data| then Meaning(Raw(data, at, m), RawTitle(data, at, m)) else Nothing()
  }

  lemma ExtractionFollows(data: seq<byte>)
    ensures Follows(Extraction(data), data)
  {
  }

  lemma Unpack(data: seq<byte>, at: nat, m: Mode, a: Meaning, end: nat, n: Mode)
    requires at <= |data| && end <= |data| && Yields(Extraction(data), at, m, a, end, n)
    ensures Raw(data, at, m) == a.text + Raw(data, end, n) && RawTitle(data, at, m) == a.title + RawTitle(data, end, n)
  {
    var run := Extraction(data);
    assert run(at, m) == Meaning(Raw(data, at, m), RawTitle(data, at, m));
    assert run(end, n) == Meaning(Raw(data, end, n), RawTitle(data, end, n));
  }

  /** Wherever a well-nested document stands in the data, the loop puts its meaning and goes
      on after it in the mode it was in; inside a skipped element it puts nothing. */
  lemma {:induction false} DocumentMeans(v: Tags, data: seq<byte>, at: nat, doc: Doc, m: Mode, a: Meaning, end: nat)
    requires Fits(v) && Orderly(v, m) && Stands(data, at, Render(doc)) && Nested(v, doc, m.skip != [], PlaceOf(m))
    requires a == InMode(Means(v, doc, PlaceOf(m)), m) && end == at + |Render(doc)|
    ensures Raw(data, at, m) == a.text + Raw(data, end, m)
    ensures RawTitle(data, at, m) == a.title + RawTitle(data, end, m)
  {
    ExtractionFollows(data);
    DocYields(v, Extraction(data), data, at, doc, m);
    Unpack(data, at, m, a, end, m);
  }

  /** The body and the title of a file that is a well-nested document. */
  lemma {:induction false} FileMeans(doc: Doc, a: Meaning)
    requires Nested(Html(), doc, false, Place(false, false)) && Begin(Render(doc)) == 0
    requires a == Means(Html(), doc, Place(false, false))
    ensures Body(Render(doc)) == a.text && Title(Render(doc)) == Cut(a.title)
  {
    var data := Render(doc);
    HtmlFits();
    assert data[0..|data|] == data;
    DocumentMeans(Html(), data, 0, doc, Fresh(), a, |data|);
    assert a.text + [] == a.text && a.title + [] == a.title;
  }

  /** A skipped element ends: whatever is written as a document inside it, the loop comes
      out behind it as it went in, and has put nothing. */
  lemma {:induction false} SkippedEnds(v: Tags, data: seq<byte>, at: nat, open: Written, inner: Doc, close: Written,
                                       m: Mode, end: nat)
    requires Fits(v) && WellWritten(open) && WellWritten(close) && NameOf(open) == NameOf(close)
    requires v.kind(NameOf(open)) == Skip && Nested(v, inner, true, PlaceOf(m)) && Orderly(v, m)
    requires Stands(data, at, OpenTag(open) + Render(inner) + CloseTag(close))
    requires end == at + |OpenTag(open) + Render(inner) + CloseTag(close)|
    ensures Raw(data, at, m) == Raw(data, end, m) && RawTitle(data, at, m) == RawTitle(data, end, m)
  {
    ExtractionFollows(data);
    InsideYields(v, Extraction(data), data, at, open, inner, close, m);
    Unpack(data, at, m, Nothing(), end, m);
  }

  lemma {:induction false} SkippedSpells(tag: Name)
    requires SkipTag(tag)
    ensures WellWritten(Written(tag, [])) && NameOf(Written(tag, [])) == tag
  {
    LowerCase(tag);
    assert Lowered(tag) == tag;
  }

  lemma LowerCase(tag: Name)
    requires SkipTag(tag)
    ensures 0 < |tag| <= 19 && forall i :: 0 <= i < |tag| ==> 97 <= tag[i] <= 122
  {
  }

  /** In particular script, style, svg, noscript, template, iframe and object around bytes
      without a tag, at the start of the text. */
  lemma {:induction false} ScriptEnds(tag: Name, inner: seq<byte>, rest: seq<byte>)
    requires Without(inner, 60)
    requires tag in {Ascii("script"), Ascii("style"), Ascii("svg"), Ascii("noscript"), Ascii("template")}
             || tag in {Ascii("iframe"), Ascii("object")}
    ensures var element := OpenTag(Written(tag, [])) + inner + CloseTag(Written(tag, []));
            Raw(element + rest, 0, Fresh()) == Raw(element + rest, |element|, Fresh())
  {
    var w, doc := Written(tag, []), Then(Plain(inner), End);
    var element := OpenTag(w) + inner + CloseTag(w);
    assert Render(doc) == inner;
    HtmlFits();
    HtmlIs(tag);
    SkippedSpells(tag);
    assert (element + rest)[0..|element|] == element;
    SkippedEnds(Html(), element + rest, 0, w, doc, w, Fresh(), |element|);
  }
}
