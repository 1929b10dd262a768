/** The pre-tokenizer of src/tok.h: a hand-written matcher for the pattern
      (?i:'s|'t|'re|'ve|'m|'ll|'d) | [^\r\n\p{L}\p{N}]?\p{L}+ | \p{N}{1,3}
      | ?[^\s\p{L}\p{N}]+[\r\n]* | \s*[\r\n]+ | \s+(?!\S) | \s+               */
module TokPretok {
  import opened TokRegex

  /** Membership in \p{L}, \p{N} and \s. */
  datatype Classes = Classes(letter: nat -> bool, number: nat -> bool, space: nat -> bool)

  predicate Newline(c: nat) {
    c == 13 || c == 10
  }

  /** All the matcher needs of the tables: carriage return and newline are spaces. */
  predicate NewlinesAreSpaces(k: Classes) {
    k.space(13) && k.space(10)
  }

  function Lower(c: nat): nat {
    if 65 <= c <= 90 then c + 32 else c
  }

  // ---- The pattern ------------------------------------------------------------

  function Is(c: nat): Re {
    One((x: nat) => x == c)
  }

  function Fold(c: nat): Re {
    One((x: nat) => Lower(x) == c)
  }

  function NewlineClass(): nat -> bool {
    (c: nat) => Newline(c)
  }

  function NewlineRe(): Re {
    One(NewlineClass())
  }

  function Apostrophe(c: nat): Re {
    Cat(Is(39), Fold(c))
  }

  function Apostrophe2(c: nat, d: nat): Re {
    Cat(Is(39), Cat(Fold(c), Fold(d)))
  }

  /** (?i:'s|'t|'re|'ve|'m|'ll|'d), folding ASCII case. */
  function Contraction(): Re {
    Or(Apostrophe(115), Or(Apostrophe(116), LaterContraction()))
  }

  function LaterContraction(): Re {
    Or(Apostrophe2(114, 101), Or(Apostrophe2(118, 101), Or(Apostrophe(109), LastContraction())))
  }

  function LastContraction(): Re {
    Or(Apostrophe2(108, 108), Apostrophe(100))
  }

  predicate Prefix(k: Classes, c: nat) {
    !Newline(c) && !k.letter(c) && !k.number(c)
  }

  function PrefixClass(k: Classes): nat -> bool {
    (c: nat) => Prefix(k, c)
  }

  function Word(k: Classes): Re {
    Cat(Opt(One(PrefixClass(k))), Plus(One(k.letter)))
  }

  /** \p{N}{1,3} */
  function UpToThree(k: Classes): Re {
    Cat(One(k.number), Opt(Cat(One(k.number), Opt(One(k.number)))))
  }

  predicate Mark(k: Classes, c: nat) {
    !k.space(c) && !k.letter(c) && !k.number(c)
  }

  function MarkClass(k: Classes): nat -> bool {
    (c: nat) => Mark(k, c)
  }

  function MarkRun(k: Classes): Re {
    Cat(Plus(One(MarkClass(k))), Star(NewlineRe()))
  }

  function Marks(k: Classes): Re {
    Cat(Opt(Is(32)), MarkRun(k))
  }

  function Lines(k: Classes): Re {
    Cat(Star(One(k.space)), Plus(NewlineRe()))
  }

  function NonSpace(k: Classes): nat -> bool {
    (c: nat) => !k.space(c)
  }

  function Trailing(k: Classes): Re {
    Cat(Plus(One(k.space)), NotNext(NonSpace(k)))
  }

  function Pattern(k: Classes, digits: Re): Re {
    Or(Contraction(), Or(Word(k), Or(digits, Or(Marks(k), Or(Lines(k), Or(Trailing(k), Plus(One(k.space))))))))
  }

  // ---- The hand-written matcher -------------------------------------------------

  /** Length of a contraction at i, 0 if there is none. */
  function ContractionLength(s: seq<nat>, i: nat): nat
    requires i < |s|
  {
    if s[i] == 39 && i + 1 < |s| then
      var d := Lower(s[i + 1]);
      if i + 2 < |s| && ((d == 114 && Lower(s[i + 2]) == 101) || (d == 118 && Lower(s[i + 2]) == 101)
                         || (d == 108 && Lower(s[i + 2]) == 108)) then 3
      else if d == 115 || d == 116 || d == 109 || d == 100 then 2
      else 0
    else 0
  }

  /** Where the letters of a word piece start, or past the end if there is none. */
  function WordStart(k: Classes, s: seq<nat>, i: nat): nat
    requires i < |s|
  {
    if Prefix(k, s[i]) then if i + 1 < |s| && k.letter(s[i + 1]) then i + 1 else |s|
    else if k.letter(s[i]) then i
    else |s|
  }

  function NumberEnd(k: Classes, s: seq<nat>, i: nat): (r: nat)
    requires i <= |s|
    ensures i <= r <= |s| && r <= i + 3
  {
    var r := RunEnd(k.number, s, i);
    if r <= i + 3 then r else i + 3
  }

  function MarkStart(k: Classes, s: seq<nat>, i: nat): (j: nat)
    requires i < |s|
    ensures i <= j < |s|
  {
    if s[i] == 32 && i + 1 < |s| && Mark(k, s[i + 1]) then i + 1 else i
  }

  /** One past the last newline in [i, r), or i if there is none. */
  function LastLine(s: seq<nat>, i: nat, r: nat): (e: nat)
    requires i <= r <= |s|
    ensures i <= e <= r
    ensures e > i ==> Newline(s[e - 1])
    ensures forall j :: e <= j < r ==> !Newline(s[j])
    decreases r
  {
    if r == i then i else if Newline(s[r - 1]) then r else LastLine(s, i, r - 1)
  }

  /** Where the piece starting at i ends (pretok_chunk, one round). */
  function PieceEnd(k: Classes, s: seq<nat>, i: nat): (e: nat)
    requires i < |s|
    ensures i < e <= |s|
  {
    if ContractionLength(s, i) > 0 then i + ContractionLength(s, i)
    else if WordStart(k, s, i) < |s| then RunEnd(k.letter, s, WordStart(k, s, i))
    else if k.number(s[i]) then NumberEnd(k, s, i)
    else if Mark(k, s[MarkStart(k, s, i)]) then
      RunEnd(NewlineClass(), s, RunEnd(MarkClass(k), s, MarkStart(k, s, i)))
    else
      var r := RunEnd(k.space, s, i);
      if r > i then
        if LastLine(s, i, r) > i then LastLine(s, i, r)
        else
          var end := if r < |s| then r - 1 else r;
          if end <= i then i + 1 else end
      else i + 1
  }

  // ---- Alternative by alternative ---------------------------------------------------

  lemma {:induction false} TwoClasses(a: nat -> bool, b: nat -> bool, s: seq<nat>, i: nat)
    requires i <= |s|
    ensures Ends(Cat(One(a), One(b)), s, i) == if i + 1 < |s| && a(s[i]) && b(s[i + 1]) then [i + 2] else []
  {
    OneThen(a, One(b), s, i);
  }

  lemma {:induction false} ThreeClasses(a: nat -> bool, b: nat -> bool, c: nat -> bool, s: seq<nat>, i: nat)
    requires i <= |s|
    ensures Ends(Cat(One(a), Cat(One(b), One(c))), s, i)
            == if i + 2 < |s| && a(s[i]) && b(s[i + 1]) && c(s[i + 2]) then [i + 3] else []
  {
    OneThen(a, Cat(One(b), One(c)), s, i);
    if i < |s| {
      TwoClasses(b, c, s, i + 1);
    }
  }

  lemma {:induction false} ApostropheEnds(c: nat, s: seq<nat>, i: nat)
    requires i < |s|
    ensures Ends(Apostrophe(c), s, i) == if i + 1 < |s| && s[i] == 39 && Lower(s[i + 1]) == c then [i + 2] else []
  {
    TwoClasses(Is(39).p, Fold(c).p, s, i);
  }

  lemma {:induction false} Apostrophe2Ends(c: nat, d: nat, s: seq<nat>, i: nat)
    requires i < |s|
    ensures Ends(Apostrophe2(c, d), s, i)
            == if i + 2 < |s| && s[i] == 39 && Lower(s[i + 1]) == c && Lower(s[i + 2]) == d then [i + 3] else []
  {
    ThreeClasses(Is(39).p, Fold(c).p, Fold(d).p, s, i);
  }

  lemma {:induction false} LastContractionAgrees(s: seq<nat>, i: nat)
    requires i < |s|
    ensures Ends(LastContraction(), s, i)
            == if i + 1 < |s| && s[i] == 39 then
                 if Lower(s[i + 1]) == 108 && i + 2 < |s| && Lower(s[i + 2]) == 108 then [i + 3]
                 else if Lower(s[i + 1]) == 100 then [i + 2] else []
               else []
  {
    Apostrophe2Ends(108, 108, s, i);
    ApostropheEnds(100, s, i);
  }

  lemma {:induction false} LaterContractionAgrees(s: seq<nat>, i: nat)
    requires i < |s|
    requires i + 1 < |s| && s[i] == 39 ==> Lower(s[i + 1]) != 115 && Lower(s[i + 1]) != 116
    ensures if ContractionLength(s, i) > 0 then Finds(LaterContraction(), s, i, i + ContractionLength(s, i))
            else Fails(LaterContraction(), s, i)
  {
    Apostrophe2Ends(114, 101, s, i);
    Apostrophe2Ends(118, 101, s, i);
    ApostropheEnds(109, s, i);
    LastContractionAgrees(s, i);
    var x, y, z := if Three(s, i, 114, 101) then i + 3 else 0, if Three(s, i, 118, 101) then i + 3 else 0,
                   if Two(s, i, 109) then i + 2 else 0;
    var w := if Three(s, i, 108, 108) then i + 3 else if Two(s, i, 100) then i + 2 else 0;
    EndsGive(Apostrophe2(114, 101), s, i, x);
    EndsGive(Apostrophe2(118, 101), s, i, y);
    EndsGive(Apostrophe(109), s, i, z);
    EndsGive(LastContraction(), s, i, w);
    LaterByParts(Apostrophe2(114, 101), Apostrophe2(118, 101), Apostrophe(109), LastContraction(), s, i, x, y, z, w);
    LaterLength(s, i);
  }

  lemma LaterLength(s: seq<nat>, i: nat)
    requires i < |s| && !Two(s, i, 115) && !Two(s, i, 116)
    ensures (if ContractionLength(s, i) > 0 then i + ContractionLength(s, i) else 0)
            == if Three(s, i, 114, 101) then i + 3 else if Three(s, i, 118, 101) then i + 3
               else if Two(s, i, 109) then i + 2 else if Three(s, i, 108, 108) then i + 3
               else if Two(s, i, 100) then i + 2 else 0
  {
  }

  predicate Two(s: seq<nat>, i: nat, c: nat) { i + 1 < |s| && s[i] == 39 && Lower(s[i + 1]) == c }

  predicate Three(s: seq<nat>, i: nat, c: nat, d: nat) { Two(s, i, c) && i + 2 < |s| && Lower(s[i + 2]) == d }

  /** A search that ends at `end`, or finds nothing when that is 0. */
  predicate Gives(re: Re, s: seq<nat>, i: nat, end: nat)
    requires i <= |s|
  {
    if end == 0 then Fails(re, s, i) else Finds(re, s, i, end)
  }

  lemma {:induction false} OrGives(a: Re, b: Re, s: seq<nat>, i: nat, x: nat, y: nat)
    requires i <= |s| && Gives(a, s, i, x) && Gives(b, s, i, y)
    ensures Gives(Or(a, b), s, i, if x > 0 then x else y)
  {
    OrFinds(a, b, s, i, if x > 0 then x else y);
  }

  lemma {:induction false} LaterByParts(re: Re, ve: Re, m: Re, rest: Re, s: seq<nat>, i: nat, x: nat, y: nat, z: nat,
                                        w: nat)
    requires i <= |s| && Gives(re, s, i, x) && Gives(ve, s, i, y) && Gives(m, s, i, z) && Gives(rest, s, i, w)
    ensures Gives(Or(re, Or(ve, Or(m, rest))), s, i, if x > 0 then x else if y > 0 then y else if z > 0 then z else w)
  {
    OrGives(m, rest, s, i, z, w);
    var zw := if z > 0 then z else w;
    OrGives(ve, Or(m, rest), s, i, y, zw);
    OrGives(re, Or(ve, Or(m, rest)), s, i, x, if y > 0 then y else zw);
  }

  lemma EndsGive(re: Re, s: seq<nat>, i: nat, end: nat)
    requires i <= |s| && Ends(re, s, i) == if end > 0 then [end] else []
    ensures Gives(re, s, i, end)
  {
  }

  lemma {:induction false} ContractionAgrees(s: seq<nat>, i: nat)
    requires i < |s|
    ensures if ContractionLength(s, i) > 0 then Finds(Contraction(), s, i, i + ContractionLength(s, i))
            else Fails(Contraction(), s, i)
  {
    ApostropheEnds(115, s, i);
    ApostropheEnds(116, s, i);
    var x, y := if Two(s, i, 115) then i + 2 else 0, if Two(s, i, 116) then i + 2 else 0;
    EndsGive(Apostrophe(115), s, i, x);
    EndsGive(Apostrophe(116), s, i, y);
    ContractionGives(s, i, x, y);
  }

  lemma {:induction false} ContractionGives(s: seq<nat>, i: nat, x: nat, y: nat)
    requires i < |s| && Gives(Apostrophe(115), s, i, x) && Gives(Apostrophe(116), s, i, y)
    requires x == (if Two(s, i, 115) then i + 2 else 0) && y == (if Two(s, i, 116) then i + 2 else 0)
    ensures if ContractionLength(s, i) > 0 then Finds(Contraction(), s, i, i + ContractionLength(s, i))
            else Fails(Contraction(), s, i)
  {
    var e := i + ContractionLength(s, i);
    if x == 0 && y == 0 {
      LaterContractionAgrees(s, i);
    }
    OrFinds(Apostrophe(116), LaterContraction(), s, i, e);
    OrFinds(Apostrophe(115), Or(Apostrophe(116), LaterContraction()), s, i, e);
  }

  /** An optional class in front: with it first, then without. */
  lemma {:induction false} OptionalFirst(p: nat -> bool, b: Re, s: seq<nat>, i: nat)
    requires i < |s|
    ensures Ends(Cat(Opt(One(p)), b), s, i)
            == (if p(s[i]) then Ends(b, s, i + 1) else []) + Ends(b, s, i)
  {
    CatEnds(Opt(One(p)), b, s, i);
    if p(s[i]) {
      assert Ends(Opt(One(p)), s, i) == [i + 1, i];
      ChainTwo(b, s, i + 1, i, i);
    } else {
      assert Ends(Opt(One(p)), s, i) == [i];
      ChainOne(b, s, i, i);
    }
  }

  lemma {:induction false} ChainOne(b: Re, s: seq<nat>, e: nat, i: nat)
    requires i <= e <= |s|
    ensures Chain(b, s, [e], i) == Ends(b, s, e)
  {
    assert [e][1..] == [];
    assert Chain(b, s, [], i) == [];
  }

  lemma {:induction false} ChainTwo(b: Re, s: seq<nat>, e: nat, f: nat, i: nat)
    requires i <= e <= |s| && i <= f <= |s|
    ensures Chain(b, s, [e, f], i) == Ends(b, s, e) + Ends(b, s, f)
  {
    assert [e, f][1..] == [f];
    ChainOne(b, s, f, i);
  }

  lemma {:induction false} WordAgrees(k: Classes, s: seq<nat>, i: nat)
    requires i < |s|
    ensures if WordStart(k, s, i) < |s| then Finds(Word(k), s, i, RunEnd(k.letter, s, WordStart(k, s, i)))
            else Fails(Word(k), s, i)
  {
    OptionalFirst(PrefixClass(k), Plus(One(k.letter)), s, i);
    PlusEnds(k.letter, s, i);
    PlusEnds(k.letter, s, i + 1);
  }

  lemma OptEnds(a: Re, s: seq<nat>, i: nat)
    requires i <= |s|
    ensures Ends(Opt(a), s, i) == Ends(a, s, i) + [i]
  {
  }

  /** One or two of a class, longest first. */
  lemma {:induction false} OneOrTwo(p: nat -> bool, s: seq<nat>, i: nat)
    requires i <= |s|
    ensures Finds(Opt(Cat(One(p), Opt(One(p)))), s, i,
                  if i < |s| && p(s[i]) then if i + 1 < |s| && p(s[i + 1]) then i + 2 else i + 1 else i)
  {
    OptEnds(Cat(One(p), Opt(One(p))), s, i);
    OneThen(p, Opt(One(p)), s, i);
    if i < |s| && p(s[i]) {
      OptEnds(One(p), s, i + 1);
    }
  }

  lemma {:induction false} NumberAgrees(k: Classes, s: seq<nat>, i: nat)
    requires i < |s|
    ensures if k.number(s[i]) then Finds(UpToThree(k), s, i, NumberEnd(k, s, i)) else Fails(UpToThree(k), s, i)
  {
    OneThen(k.number, Opt(Cat(One(k.number), Opt(One(k.number)))), s, i);
    OneOrTwo(k.number, s, i + 1);
  }

  lemma {:induction false} MarksAgree(k: Classes, s: seq<nat>, i: nat)
    requires i < |s|
    ensures if Mark(k, s[MarkStart(k, s, i)])
            then Finds(Marks(k), s, i, RunEnd(NewlineClass(), s, RunEnd(MarkClass(k), s, MarkStart(k, s, i))))
            else Fails(Marks(k), s, i)
  {
    OptionalFirst(Is(32).p, MarkRun(k), s, i);
    MarkTail(k, s, i);
    MarkTail(k, s, i + 1);
  }

  /** A run of marks, then all newlines that follow. */
  lemma {:induction false} MarkTail(k: Classes, s: seq<nat>, i: nat)
    requires i <= |s|
    ensures if i < |s| && Mark(k, s[i])
            then Finds(MarkRun(k), s, i, RunEnd(NewlineClass(), s, RunEnd(MarkClass(k), s, i)))
            else Fails(MarkRun(k), s, i)
  {
    RunThen(MarkClass(k), Star(NewlineRe()), s, i);
    if i < |s| && Mark(k, s[i]) {
      StarEnds(NewlineClass(), s, RunEnd(MarkClass(k), s, i));
    }
  }

  /** The longest run of a class decides when what follows can always match. */
  lemma {:induction false} RunThen(p: nat -> bool, b: Re, s: seq<nat>, i: nat)
    requires i <= |s|
    ensures i < |s| && p(s[i]) && Ends(b, s, RunEnd(p, s, i)) != []
            ==> Finds(Cat(Plus(One(p)), b), s, i, Ends(b, s, RunEnd(p, s, i))[0])
    ensures !(i < |s| && p(s[i])) ==> Fails(Cat(Plus(One(p)), b), s, i)
  {
    PlusEnds(p, s, i);
    CatEnds(Plus(One(p)), b, s, i);
    if i < |s| && p(s[i]) && Ends(b, s, RunEnd(p, s, i)) != [] {
      ChainFirst(b, s, Down(RunEnd(p, s, i), i + 1), i, 0);
    }
  }

  /** \s*[\r\n]+ backs off to the last newline of the run. */
  lemma {:induction false} LinesAgree(k: Classes, s: seq<nat>, i: nat)
    requires i < |s| && NewlinesAreSpaces(k)
    ensures var e := LastLine(s, i, RunEnd(k.space, s, i));
            if e > i then Finds(Lines(k), s, i, e) else Fails(Lines(k), s, i)
  {
    var r := RunEnd(k.space, s, i);
    StarEnds(k.space, s, i);
    assert Ends(Lines(k), s, i) == Chain(Plus(NewlineRe()), s, Down(r, i), i);
    if LastLine(s, i, r) > i {
      BacksOffToNewline(k, s, i, r);
    } else {
      NoNewlineToFind(k, s, i, r);
    }
  }

  lemma {:induction false} BacksOffToNewline(k: Classes, s: seq<nat>, i: nat, r: nat)
    requires i <= r <= |s| && NewlinesAreSpaces(k) && (r < |s| ==> !k.space(s[r]))
    requires LastLine(s, i, r) > i
    ensures var c := Chain(Plus(NewlineRe()), s, Down(r, i), i); c != [] && c[0] == LastLine(s, i, r)
  {
    var e := LastLine(s, i, r);
    forall j | e <= j <= r
      ensures Ends(Plus(NewlineRe()), s, j) == []
    {
      assert j < |s| ==> !Newline(s[j]);
      PlusEnds(NewlineClass(), s, j);
    }
    LastNewlineEnds(k, s, i, r, e);
    BackOff(Plus(NewlineRe()), s, i, e, r);
  }

  /** Backing off from r, the first position where b matches is e - 1. */
  lemma {:induction false} BackOff(b: Re, s: seq<nat>, i: nat, e: nat, r: nat)
    requires i < e <= r <= |s|
    requires forall j :: e <= j <= r ==> Ends(b, s, j) == []
    requires Ends(b, s, e - 1) == [e]
    ensures var c := Chain(b, s, Down(r, i), i); c != [] && c[0] == e
  {
    var d := Down(r, i);
    assert d[r - (e - 1)] == e - 1;
    ChainFirst(b, s, d, i, r - (e - 1));
  }

  lemma {:induction false} LastNewlineEnds(k: Classes, s: seq<nat>, i: nat, r: nat, e: nat)
    requires i <= r <= |s| && NewlinesAreSpaces(k) && (r < |s| ==> !k.space(s[r]))
    requires e == LastLine(s, i, r) > i
    ensures Ends(Plus(NewlineRe()), s, e - 1) == [e]
  {
    PlusEnds(NewlineClass(), s, e - 1);
    assert e < |s| ==> !Newline(s[e]);
    assert RunEnd(NewlineClass(), s, e - 1) == e;
  }

  lemma {:induction false} NoNewlineToFind(k: Classes, s: seq<nat>, i: nat, r: nat)
    requires i <= r <= |s| && NewlinesAreSpaces(k) && (r < |s| ==> !k.space(s[r]))
    requires LastLine(s, i, r) == i
    ensures Chain(Plus(NewlineRe()), s, Down(r, i), i) == []
  {
    var d := Down(r, i);
    forall j | 0 <= j < |d|
      ensures Ends(Plus(NewlineRe()), s, d[j]) == []
    {
      assert d[j] < |s| ==> !Newline(s[d[j]]);
      PlusEnds(NewlineClass(), s, d[j]);
    }
    ChainNone(Plus(NewlineRe()), s, d, i);
  }

  /** \s+(?!\S) takes the whole run at the end of text, else all but its last. */
  lemma {:induction false} TrailingAgrees(k: Classes, s: seq<nat>, i: nat)
    requires i < |s|
    ensures var r := RunEnd(k.space, s, i);
            var end := if r < |s| then r - 1 else r;
            if r > i && end > i then Finds(Trailing(k), s, i, end) else Fails(Trailing(k), s, i)
  {
    var r, tail := RunEnd(k.space, s, i), NotNext(NonSpace(k));
    RunThen(k.space, tail, s, i);
    if r == i + 1 < |s| { RunThenNone(k.space, tail, s, i); }
    if i + 1 < r < |s| { RunThenShorter(k.space, tail, s, i); }
  }

  lemma {:induction false} RunThenNone(p: nat -> bool, b: Re, s: seq<nat>, i: nat)
    requires i < |s| && RunEnd(p, s, i) == i + 1 && Ends(b, s, i + 1) == []
    ensures Fails(Cat(Plus(One(p)), b), s, i)
  {
    PlusEnds(p, s, i);
    CatEnds(Plus(One(p)), b, s, i);
    ChainNone(b, s, Down(i + 1, i + 1), i);
  }

  lemma {:induction false} RunThenShorter(p: nat -> bool, b: Re, s: seq<nat>, i: nat)
    requires i < |s| && RunEnd(p, s, i) > i + 1
    requires Ends(b, s, RunEnd(p, s, i)) == [] && Ends(b, s, RunEnd(p, s, i) - 1) != []
    ensures Finds(Cat(Plus(One(p)), b), s, i, Ends(b, s, RunEnd(p, s, i) - 1)[0])
  {
    PlusEnds(p, s, i);
    CatEnds(Plus(One(p)), b, s, i);
    ChainSecond(b, s, Down(RunEnd(p, s, i), i + 1), i);
  }

  lemma {:induction false} ChainSecond(b: Re, s: seq<nat>, ends: seq<nat>, i: nat)
    requires |ends| >= 2 && forall j :: 0 <= j < |ends| ==> i <= ends[j] <= |s|
    requires Ends(b, s, ends[0]) == [] && Ends(b, s, ends[1]) != []
    ensures Chain(b, s, ends, i) != [] && Chain(b, s, ends, i)[0] == Ends(b, s, ends[1])[0]
  {
    ChainFirst(b, s, ends, i, 1);
  }

  /** At every position the hand-written matcher finds what an ordered, greedy,
      backtracking match of the pattern finds first. */
  lemma {:induction false} MatcherIsPattern(k: Classes, s: seq<nat>, i: nat)
    requires i < |s| && NewlinesAreSpaces(k)
    ensures Finds(Pattern(k, UpToThree(k)), s, i, PieceEnd(k, s, i))
  {
    ContractionAgrees(s, i);
    WordAgrees(k, s, i);
    NumberAgrees(k, s, i);
    MarksAgree(k, s, i);
    LinesAgree(k, s, i);
    TrailingAgrees(k, s, i);
    PlusEnds(k.space, s, i);
    var spaces := Plus(One(k.space));
    var e := PieceEnd(k, s, i);
    var alt6 := Or(Trailing(k), spaces);
    var alt5 := Or(Lines(k), alt6);
    var alt4 := Or(Marks(k), alt5);
    var alt3 := Or(UpToThree(k), alt4);
    var alt2 := Or(Word(k), alt3);
    OrFinds(Contraction(), alt2, s, i, e);
    OrFinds(Word(k), alt3, s, i, e);
    OrFinds(UpToThree(k), alt4, s, i, e);
    OrFinds(Marks(k), alt5, s, i, e);
    OrFinds(Lines(k), alt6, s, i, e);
    OrFinds(Trailing(k), spaces, s, i, e);
  }

  /** Some alternative always applies: the final fallback is dead. */
  lemma NeverFallsThrough(k: Classes, s: seq<nat>, i: nat)
    requires i < |s|
    ensures || ContractionLength(s, i) > 0 || WordStart(k, s, i) < |s| || k.number(s[i])
            || Mark(k, s[MarkStart(k, s, i)]) || RunEnd(k.space, s, i) > i
  {
  }

  // ---- One digit at a time ----------------------------------------------------------

  /** The pattern in the repository's tokenizer.json has \p{N} in place of
      \p{N}{1,3}. The matcher finds the piece of that pattern if and only if it
      is not about to take a number that another number follows. */
  lemma {:induction false} SingleDigitPattern(k: Classes, s: seq<nat>, i: nat)
    requires i < |s| && NewlinesAreSpaces(k)
    ensures Finds(Pattern(k, One(k.number)), s, i, PieceEnd(k, s, i))
            <==> !(ContractionLength(s, i) == 0 && WordStart(k, s, i) >= |s|
                   && k.number(s[i]) && i + 1 < |s| && k.number(s[i + 1]))
  {
    ContractionAgrees(s, i);
    WordAgrees(k, s, i);
    MarksAgree(k, s, i);
    LinesAgree(k, s, i);
    TrailingAgrees(k, s, i);
    PlusEnds(k.space, s, i);
    var spaces := Plus(One(k.space));
    var e := PieceEnd(k, s, i);
    var alt6 := Or(Trailing(k), spaces);
    var alt5 := Or(Lines(k), alt6);
    var alt4 := Or(Marks(k), alt5);
    var alt3 := Or(One(k.number), alt4);
    var alt2 := Or(Word(k), alt3);
    NumberOrOne(k, s, i);
    OrFinds(Contraction(), alt2, s, i, e);
    OrFinds(Word(k), alt3, s, i, e);
    OrFinds(One(k.number), alt4, s, i, e);
    OrFinds(One(k.number), alt4, s, i, i + 1);
    OrFinds(Marks(k), alt5, s, i, e);
    OrFinds(Lines(k), alt6, s, i, e);
    OrFinds(Trailing(k), spaces, s, i, e);
  }

  lemma NumberOrOne(k: Classes, s: seq<nat>, i: nat)
    requires i < |s|
    ensures if k.number(s[i]) then Finds(One(k.number), s, i, i + 1) else Fails(One(k.number), s, i)
    ensures k.number(s[i]) ==> (NumberEnd(k, s, i) == i + 1 <==> !(i + 1 < |s| && k.number(s[i + 1])))
  {
  }

  /** "12": one piece by the matcher, two by that pattern. */
  lemma {:induction false} TwelveDiffers(k: Classes)
    requires NewlinesAreSpaces(k) && k.number(49) && k.number(50) && !k.letter(49)
    ensures PieceEnd(k, [49, 50], 0) == 2
    ensures Finds(Pattern(k, One(k.number)), [49, 50], 0, 1)
  {
    var s := [49, 50];
    ContractionAgrees(s, 0);
    WordAgrees(k, s, 0);
    NumberOrOne(k, s, 0);
    var alt4 := Or(Marks(k), Or(Lines(k), Or(Trailing(k), Plus(One(k.space)))));
    OrFinds(One(k.number), alt4, s, 0, 1);
    OrFinds(Word(k), Or(One(k.number), alt4), s, 0, 1);
    OrFinds(Contraction(), Or(Word(k), Or(One(k.number), alt4)), s, 0, 1);
    assert RunEnd(k.number, s, 2) == 2 && RunEnd(k.number, s, 1) == 2 && RunEnd(k.number, s, 0) == 2;
  }

  // ---- As it runs ---------------------------------------------------------------------

  method SkipRun(p: nat -> bool, s: seq<nat>, i: nat) returns (r: nat)
    requires i <= |s|
    ensures r == RunEnd(p, s, i)
  {
    r := i;
    while r < |s| && p(s[r])
      invariant i <= r <= |s| && RunEnd(p, s, i) == RunEnd(p, s, r)
    {
      r := r + 1;
    }
  }

  /** One round of pretok_chunk: the end of the piece that starts at i. */
  method NextPiece(k: Classes, s: seq<nat>, i: nat) returns (e: nat)
    requires i < |s|
    ensures e == PieceEnd(k, s, i)
  {
    var c := s[i];
    var short := ContractionLength(s, i);
    if short > 0 {
      return i + short;
    }
    var j := WordStart(k, s, i);
    if j < |s| {
      e := SkipRun(k.letter, s, j);
      return;
    }
    if k.number(c) {
      e := SkipNumber(k, s, i);
      return;
    }
    j := MarkStart(k, s, i);
    if Mark(k, s[j]) {
      j := SkipRun(MarkClass(k), s, j);
      e := SkipRun(NewlineClass(), s, j);
      return;
    }
    var r := SkipRun(k.space, s, i);
    if r > i {
      e := SpacesEnd(s, i, r);
      return;
    }
    return i + 1;
  }

  /** \p{N}{1,3}: at most three. */
  method SkipNumber(k: Classes, s: seq<nat>, i: nat) returns (j: nat)
    requires i < |s|
    ensures j == NumberEnd(k, s, i)
  {
    var n := 0;
    j := i;
    while j < |s| && k.number(s[j]) && n < 3
      invariant i <= j <= |s| && n == j - i <= 3
      invariant RunEnd(k.number, s, i) == RunEnd(k.number, s, j)
    {
      j := j + 1;
      n := n + 1;
    }
  }

  /** A run of spaces [i, r): up to its last newline, else leaving one behind. */
  method SpacesEnd(s: seq<nat>, i: nat, r: nat) returns (e: nat)
    requires i < r <= |s|
    ensures e == if LastLine(s, i, r) > i then LastLine(s, i, r)
                 else if (if r < |s| then r - 1 else r) <= i then i + 1 else if r < |s| then r - 1 else r
  {
    var last := -1;
    var j := i;
    while j < r
      invariant i <= j <= r
      invariant if last >= 0 then i <= last < j && LastLine(s, i, j) == last + 1 else LastLine(s, i, j) == i
    {
      if Newline(s[j]) {
        last := j;
      }
      j := j + 1;
    }
    if last >= 0 {
      return last + 1;
    }
    e := if r < |s| then r - 1 else r;
    if e <= i {
      e := i + 1;
    }
  }
}
