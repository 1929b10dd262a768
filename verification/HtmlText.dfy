/** Strict validation, repair and whitespace normalisation of src/samosa_html.c. */
module HtmlText {
  import opened Basics
  import opened Utf8

  predicate Space(c: byte) { c == 32 || c == 9 || c == 13 || c == 10 || c == 12 }

  /** A byte that has no place in text. */
  predicate Control(c: byte) { (c < 0x20 && !Space(c)) || c == 0x7F }

  predicate Clean(s: seq<byte>) { forall i :: 0 <= i < |s| ==> !Control(s[i]) }

  /** What strict validation promises. */
  predicate TextOk(s: seq<byte>) { s != [] && Valid(s) && Clean(s) }

  datatype Verdict = Fine | InvalidUtf8 | BinaryControl

  /** samosa_html_text_valid. */
  method TextValid(data: seq<byte>) returns (v: Verdict)
    ensures v == Fine <==> TextOk(data)
    ensures v == InvalidUtf8 <==> data == [] || !Valid(data)
  {
    if data == [] { return InvalidUtf8; }
    var ok := ValidUtf8(data);
    if !ok { return InvalidUtf8; }
    for i := 0 to |data|
      invariant forall j :: 0 <= j < i ==> !Control(data[j])
    {
      if Control(data[i]) { return BinaryControl; }
    }
    v := Fine;
  }

  // ---- Repair ---------------------------------------------------------------------

  function Replacement(): seq<byte> { [0xEF, 0xBF, 0xBD] }

  /** The width that repair keeps at `at`, 0 where it replaces one byte. */
  function Kept(data: seq<byte>, at: nat): (n: nat)
    requires at < |data|
    ensures n <= 4 && at + n <= |data|
  {
    var n := WidthAt(data, at);
    if n == 1 && Control(data[at]) then 0 else n
  }

  /** What repair writes at `at`, and where it goes on. */
  function Mended(data: seq<byte>, at: nat): seq<byte>
    requires at < |data|
  {
    if Kept(data, at) > 0 then data[at..at + Kept(data, at)] else Replacement()
  }

  function Onward(data: seq<byte>, at: nat): (next: nat)
    requires at < |data|
    ensures at < next <= |data|
  {
    at + if Kept(data, at) > 0 then Kept(data, at) else 1
  }

  function Repaired(data: seq<byte>, at: nat): seq<byte>
    requires at <= |data|
    decreases |data| - at
  {
    if at == |data| then [] else Mended(data, at) + Repaired(data, Onward(data, at))
  }

  /** The repair loop of samosa_html_extract_replacing_invalid; its buffer of three
      bytes for each input byte is never too small. */
  method Repair(data: seq<byte>) returns (text: seq<byte>)
    ensures text == Repaired(data, 0) && |text| <= 3 * |data|
  {
    text := [];
    var at := 0;
    ghost var goal := Repaired(data, 0);
    while at < |data|
      invariant 0 <= at <= |data| && |text| <= 3 * at
      invariant text + Repaired(data, at) == goal
    {
      RepairStep(data, at, text, goal);
      var piece, next := RepairOne(data, at);
      text := text + piece;
      at := next;
    }
    assert text + [] == text;
  }

  method RepairOne(data: seq<byte>, at: nat) returns (piece: seq<byte>, next: nat)
    requires at < |data|
    ensures piece == Mended(data, at) && next == Onward(data, at) && |piece| <= 3 * (next - at)
  {
    var width := SequenceWidth(data, at);
    if width == 1 && data[at] < 0x20 && !Space(data[at]) { width := 0; }
    if width == 1 && data[at] == 0x7F { width := 0; }
    if width > 0 { return data[at..at + width], at + width; }
    return Replacement(), at + 1;
  }

  lemma {:induction false} RepairStep(data: seq<byte>, at: nat, text: seq<byte>, goal: seq<byte>)
    requires at < |data| && text + Repaired(data, at) == goal
    ensures text + Mended(data, at) + Repaired(data, Onward(data, at)) == goal
  {
    Assoc(text, Mended(data, at), Repaired(data, Onward(data, at)));
  }

  lemma CharClean(c: seq<byte>)
    requires Char(c) && (|c| == 1 ==> !Control(c[0]))
    ensures Clean(c)
  {
  }

  lemma CleanAppend(a: seq<byte>, b: seq<byte>)
    requires Clean(a) && Clean(b)
    ensures Clean(a + b)
  {
  }

  /** Repaired text passes strict validation, whatever the input. */
  lemma {:induction false} RepairedIsFine(data: seq<byte>, at: nat)
    requires at <= |data|
    ensures Valid(Repaired(data, at)) && Clean(Repaired(data, at))
    ensures at < |data| ==> Repaired(data, at) != []
    decreases |data| - at
  {
    if at < |data| {
      RepairedIsFine(data, Onward(data, at));
      MendedIsFine(data, at);
      CharFront(Mended(data, at), Repaired(data, Onward(data, at)));
      CleanAppend(Mended(data, at), Repaired(data, Onward(data, at)));
    }
  }

  lemma {:induction false} MendedIsFine(data: seq<byte>, at: nat)
    requires at < |data|
    ensures Char(Mended(data, at)) && Clean(Mended(data, at))
  {
    CharClean(Mended(data, at));
  }

  /** Repair would keep everything from `at` on. */
  ghost predicate KeepsAll(data: seq<byte>, at: nat)
    requires at <= |data|
    decreases |data| - at
  {
    at == |data| || (Kept(data, at) > 0 && KeepsAll(data, at + Kept(data, at)))
  }

  lemma {:induction false} FineIsKept(data: seq<byte>, at: nat)
    requires at <= |data| && ValidAt(data, at) && Clean(data)
    ensures KeepsAll(data, at)
    decreases |data| - at
  {
    if at < |data| {
      FineIsKept(data, at + Kept(data, at));
    }
  }

  lemma {:induction false} KeptIsIdentity(data: seq<byte>, at: nat)
    requires at <= |data| && KeepsAll(data, at)
    ensures Repaired(data, at) == data[at..]
    decreases |data| - at
  {
    if at < |data| {
      KeptIsIdentity(data, at + Kept(data, at));
      KeptStep(data, at, Kept(data, at));
    }
  }

  /** Repair changes nothing when there is nothing to repair. */
  lemma {:induction false} RepairIsIdentity(data: seq<byte>)
    requires Valid(data) && Clean(data)
    ensures Repaired(data, 0) == data
  {
    assert data[0..] == data;
    FineIsKept(data, 0);
    KeptIsIdentity(data, 0);
  }

  lemma {:induction false} KeptStep(data: seq<byte>, at: nat, n: nat)
    requires at < |data| && n == Kept(data, at) > 0 && Repaired(data, at + n) == data[at + n..]
    ensures Repaired(data, at) == data[at..]
  {
    Rejoin(data, at, at + n);
    assert Mended(data, at) == data[at..at + n] && Onward(data, at) == at + n;
  }

  lemma Rejoin(s: seq<byte>, i: nat, j: nat)
    requires i <= j <= |s|
    ensures s[i..j] + s[j..] == s[i..]
  {
  }

  lemma {:induction false} RepairedExactly(data: seq<byte>)
    ensures data != [] ==> TextOk(Repaired(data, 0))
    ensures Repaired(data, 0) == data <==> data == [] || TextOk(data)
    ensures Repaired(Repaired(data, 0), 0) == Repaired(data, 0)
  {
    RepairedIsFine(data, 0);
    var r := Repaired(data, 0);
    if data == [] || TextOk(data) { RepairIsIdentity(data); }
    RepairIsIdentity(r);
  }

  /** The next `n` bytes are a character. */
  predicate StartsChar(data: seq<byte>, at: nat, n: nat) {
    at + n <= |data| && Char(data[at..at + n])
  }

  /** Repair, piece by piece: a character that is no control stays. */
  lemma {:induction false} RepairedChar(data: seq<byte>, at: nat, n: nat)
    requires at < |data| && StartsChar(data, at, n) && (n == 1 ==> !Control(data[at]))
    ensures Repaired(data, at) == data[at..at + n] + Repaired(data, at + n)
  {
    WidthIsTheOnlyOne(data, at, n);
  }

  lemma {:induction false} NothingKept(data: seq<byte>, at: nat)
    requires at < |data| && (Control(data[at]) || forall n: nat :: n <= 4 ==> !StartsChar(data, at, n))
    ensures Kept(data, at) == 0
  {
    if Control(data[at]) {
      assert Char(data[at..at + 1]);
      WidthIsTheOnlyOne(data, at, 1);
    } else {
      assert !StartsChar(data, at, WidthAt(data, at));
    }
  }

  /** Where no character starts, or a control stands, one byte gives way to the replacement
      character. */
  lemma {:induction false} RepairedByte(data: seq<byte>, at: nat)
    requires at < |data| && (Control(data[at]) || forall n: nat :: n <= 4 ==> !StartsChar(data, at, n))
    ensures Repaired(data, at) == [0xEF, 0xBF, 0xBD] + Repaired(data, at + 1)
  {
    NothingKept(data, at);
    ReplacedStep(data, at);
  }

  lemma ReplacedStep(data: seq<byte>, at: nat)
    requires at < |data| && Kept(data, at) == 0
    ensures Repaired(data, at) == Replacement() + Repaired(data, at + 1)
  {
  }

  // ---- Whitespace --------------------------------------------------------------------

  /** How far the whitespace at the front reaches. */
  function Run(s: seq<byte>): (k: nat)
    ensures k <= |s|
    ensures forall i :: 0 <= i < k ==> Space(s[i])
    ensures k < |s| ==> !Space(s[k])
  {
    if s != [] && Space(s[0]) then Run(s[1..]) + 1 else 0
  }

  predicate Breaks(s: seq<byte>) { exists i :: 0 <= i < |s| && (s[i] == 10 || s[i] == 13) }

  function Separator(s: seq<byte>): byte { if Breaks(s) then 10 else 32 }

  /** Every run of whitespace becomes one newline or one blank, and none stays at
      either end. `started` says that something precedes. */
  function Normal(s: seq<byte>, started: bool): seq<byte> {
    if s == [] then []
    else if Space(s[0]) then
      var k := Run(s);
      if started && k < |s| then [Separator(s[..k])] + Normal(s[k..], true) else Normal(s[k..], started)
    else [s[0]] + Normal(s[1..], true)
  }

  predicate Tidy(r: seq<byte>, started: bool) {
    && (r != [] ==> !Space(r[|r| - 1]) && (started || !Space(r[0])))
    && (forall i :: 0 <= i < |r| && Space(r[i]) ==> r[i] == 32 || r[i] == 10)
    && (forall i {:trigger r[i]} :: 0 <= i < |r| - 1 && Space(r[i]) ==> !Space(r[i + 1]))
  }

  lemma {:induction false} TidyCons(c: byte, r: seq<byte>, started: bool)
    requires Tidy(r, true) && (Space(c) ==> (c == 32 || c == 10) && started && r != [] && !Space(r[0]))
    ensures Tidy([c] + r, started)
  {
    var s := [c] + r;
    assert forall i :: 1 <= i < |s| ==> s[i] == r[i - 1];
  }

  lemma {:induction false} NormalIsTidy(s: seq<byte>, started: bool)
    ensures Tidy(Normal(s, started), started)
    ensures s != [] && !Space(s[0]) ==> Normal(s, started) != [] && Normal(s, started)[0] == s[0]
    decreases |s|
  {
    if s != [] {
      if Space(s[0]) {
        var k := Run(s);
        NormalIsTidy(s[k..], started);
        if started && k < |s| { TidyCons(Separator(s[..k]), Normal(s[k..], true), true); }
      } else {
        NormalIsTidy(s[1..], true);
        TidyCons(s[0], Normal(s[1..], true), started);
      }
    }
  }

  /** The bytes that are not whitespace, in order. */
  ghost function Ink(s: seq<byte>): seq<byte> {
    if s == [] then [] else (if Space(s[0]) then [] else [s[0]]) + Ink(s[1..])
  }

  lemma {:induction false} InkSkips(s: seq<byte>, k: nat)
    requires k <= |s| && forall i :: 0 <= i < k ==> Space(s[i])
    ensures Ink(s) == Ink(s[k..])
    decreases k
  {
    if k > 0 {
      InkSkips(s[1..], k - 1);
      assert s[1..][k - 1..] == s[k..];
    }
  }

  lemma {:induction false} InkCons(c: byte, r: seq<byte>)
    ensures Ink([c] + r) == (if Space(c) then [] else [c]) + Ink(r)
  {
    assert ([c] + r)[1..] == r;
  }

  /** Only whitespace is lost. */
  lemma {:induction false} NormalKeepsInk(s: seq<byte>, started: bool)
    ensures Ink(Normal(s, started)) == Ink(s) && |Normal(s, started)| <= |s|
    decreases |s|
  {
    if s != [] {
      if Space(s[0]) {
        var k := Run(s);
        NormalKeepsInk(s[k..], started);
        InkSkips(s, k);
        if started && k < |s| { InkCons(Separator(s[..k]), Normal(s[k..], true)); }
      } else {
        NormalKeepsInk(s[1..], true);
        InkCons(s[0], Normal(s[1..], true));
      }
    }
  }

  predicate AllSpace(s: seq<byte>) { forall i :: 0 <= i < |s| ==> Space(s[i]) }

  predicate NoSpace(s: seq<byte>) { forall i :: 0 <= i < |s| ==> !Space(s[i]) }

  lemma {:induction false} RunIs(gap: seq<byte>, rest: seq<byte>)
    requires AllSpace(gap) && (rest != [] ==> !Space(rest[0]))
    ensures Run(gap + rest) == |gap| && (gap + rest)[|gap|..] == rest && (gap + rest)[..|gap|] == gap
  {
    if gap == [] {
      assert gap + rest == rest;
    } else {
      RunIs(gap[1..], rest);
      assert (gap + rest)[1..] == gap[1..] + rest;
    }
  }

  /** A word stays as it is. */
  lemma {:induction false} NormalOfWord(word: seq<byte>, rest: seq<byte>, started: bool)
    requires NoSpace(word) && word != []
    ensures Normal(word + rest, started) == word + Normal(rest, true)
    decreases |word|
  {
    var s := word + rest;
    assert s[1..] == word[1..] + rest;
    if |word| > 1 {
      NormalOfWord(word[1..], rest, true);
      Assoc([word[0]], word[1..], Normal(rest, true));
      assert [word[0]] + word[1..] == word;
    } else {
      assert s[1..] == rest && word == [word[0]];
    }
  }

  /** Between two words whitespace becomes a newline if it holds one or a carriage return,
      and a blank otherwise; before the first word and after the last it goes. */
  lemma {:induction false} NormalOfGap(gap: seq<byte>, rest: seq<byte>, started: bool)
    requires AllSpace(gap) && gap != [] && (rest != [] ==> !Space(rest[0]))
    ensures Normal(gap + rest, started)
            == if rest == [] then []
               else if started then [if 10 in gap || 13 in gap then 10 else 32] + Normal(rest, true)
               else Normal(rest, false)
  {
    RunIs(gap, rest);
    assert (gap + rest)[0] == gap[0];
    assert Breaks(gap) <==> 10 in gap || 13 in gap;
  }

  lemma {:induction false} AsciiAtStart(q: Place, s: seq<byte>)
    requires s != [] && s[0] < 0x80 && Scan(q, s) == Start
    ensures q == Start && Scan(Start, s[1..]) == Start
  {
    ScanCons(q, s);
    DeadStays(s[1..]);
  }

  lemma {:induction false} RunScans(s: seq<byte>, k: nat)
    requires k <= |s| && Scan(Start, s) == Start && forall i :: 0 <= i < k ==> Space(s[i])
    ensures Scan(Start, s[k..]) == Start
    decreases k
  {
    if k > 0 {
      AsciiAtStart(Start, s);
      RunScans(s[1..], k - 1);
      assert s[1..][k - 1..] == s[k..];
    }
  }

  /** Normalised text is valid when the text was, from any place in a character. */
  lemma {:induction false} NormalScans(q: Place, s: seq<byte>, started: bool)
    requires Scan(q, s) == Start
    ensures Scan(q, Normal(s, started)) == Start
    decreases |s|
  {
    if s != [] {
      if Space(s[0]) {
        var k := Run(s);
        AsciiAtStart(q, s);
        RunScans(s, k);
        NormalScans(Start, s[k..], started);
        if started && k < |s| { ScanConsOf(Start, Separator(s[..k]), Normal(s[k..], true)); }
      } else {
        ScanCons(q, s);
        NormalScans(Move(q, s[0]), s[1..], true);
        ScanConsOf(q, s[0], Normal(s[1..], true));
      }
    }
  }

  lemma {:induction false} ScanConsOf(q: Place, c: byte, r: seq<byte>)
    ensures Scan(q, [c] + r) == Scan(Move(q, c), r)
  {
    ScanCons(q, [c] + r);
    assert ([c] + r)[1..] == r;
  }

  lemma {:induction false} NormalIsClean(s: seq<byte>, started: bool)
    requires Clean(s)
    ensures Clean(Normal(s, started))
    decreases |s|
  {
    if s != [] {
      if Space(s[0]) {
        NormalIsClean(s[Run(s)..], started);
      } else {
        NormalIsClean(s[1..], true);
      }
    }
  }

  /** The inner loop: past a run of whitespace, noting line breaks. */
  method SkipRun(a: array<byte>, from: nat) returns (to: nat, newline: bool)
    requires from < a.Length && Space(a[from])
    ensures from < to <= a.Length && to == from + Run(a[from..])
    ensures newline <==> Breaks(a[from..to])
  {
    to, newline := from, false;
    while to < a.Length && Space(a[to])
      invariant from <= to <= a.Length
      invariant forall i :: from <= i < to ==> Space(a[i])
      invariant newline <==> exists i :: from <= i < to && (a[i] == 10 || a[i] == 13)
    {
      newline := newline || a[to] == 10 || a[to] == 13;
      to := to + 1;
    }
    RunEnds(a[from..], to - from);
    assert forall i :: from <= i < to ==> a[i] == a[from..to][i - from];
  }

  lemma {:induction false} RunEnds(s: seq<byte>, k: nat)
    requires k <= |s| && (forall i :: 0 <= i < k ==> Space(s[i])) && (k < |s| ==> !Space(s[k]))
    ensures Run(s) == k
    decreases k
  {
    if k > 0 { RunEnds(s[1..], k - 1); }
  }

  /** What has been written and what is still to read make up the goal. */
  ghost predicate Progress(now: seq<byte>, s: seq<byte>, read: nat, len: nat, goal: seq<byte>) {
    && len <= read <= |s| == |now|
    && now[read..] == s[read..]
    && now[..len] + Normal(s[read..], len > 0) == goal
  }

  lemma {:induction false} CopyPass(s: seq<byte>, read: nat, done: seq<byte>, started: bool, goal: seq<byte>)
    requires read < |s| && !Space(s[read]) && done + Normal(s[read..], started) == goal
    ensures done + [s[read]] + Normal(s[read + 1..], true) == goal
  {
    assert s[read..][1..] == s[read + 1..];
    Assoc(done, [s[read]], Normal(s[read + 1..], true));
  }

  lemma {:induction false} SkipPass(s: seq<byte>, read: nat, to: nat, done: seq<byte>, started: bool, goal: seq<byte>)
    requires read < |s| && Space(s[read]) && done + Normal(s[read..], started) == goal
    requires to == read + Run(s[read..])
    ensures if started && to < |s| then done + [Separator(s[read..to])] + Normal(s[to..], true) == goal
            else done + Normal(s[to..], started) == goal
  {
    assert s[read..][to - read..] == s[to..] && s[read..][..to - read] == s[read..to];
    Assoc(done, [Separator(s[read..to])], Normal(s[to..], true));
  }

  lemma {:induction false} SuffixFrom(a: seq<byte>, s: seq<byte>, read: nat, to: nat)
    requires read < to <= |a| == |s| && a[read..] == s[read..]
    ensures a[to..] == s[to..] && a[read..to] == s[read..to] && a[read] == s[read]
  {
    assert a[to..] == a[read..][to - read..] && s[to..] == s[read..][to - read..];
    assert a[read..to] == a[read..][..to - read] && s[read..to] == s[read..][..to - read];
    assert a[read] == a[read..][0] && s[read] == s[read..][0];
  }

  /** Past a run of whitespace, with one separator for it inside the text. */
  method SkipBlanks(a: array<byte>, read: nat, len: nat, ghost s: seq<byte>, ghost goal: seq<byte>)
    returns (read': nat, len': nat)
    requires Progress(a[..], s, read, len, goal) && read < a.Length && Space(a[read])
    modifies a
    ensures read < read' && Progress(a[..], s, read', len', goal)
  {
    var newline;
    read', newline := SkipRun(a, read);
    len' := len;
    SuffixFrom(a[..], s, read, read');
    assert a[..][read..read'] == a[read..read'] && a[..][read..] == a[read..];
    SkipPass(s, read, read', a[..len], len > 0, goal);
    assert a[..][..len] == a[..len];
    if len > 0 && read' < a.Length {
      len' := Write(a, len, read', if newline then 10 else 32);
    }
  }

  method CopyByte(a: array<byte>, read: nat, len: nat, ghost s: seq<byte>, ghost goal: seq<byte>)
    requires Progress(a[..], s, read, len, goal) && read < a.Length && !Space(a[read])
    modifies a
    ensures Progress(a[..], s, read + 1, len + 1, goal)
  {
    SuffixFrom(a[..], s, read, read + 1);
    assert a[..][..len] == a[..len];
    CopyPass(s, read, a[..len], len > 0, goal);
    var _ := Write(a, len, read + 1, a[read]);
  }

  /** normalize_whitespace, in place on a string with no NUL before its end. */
  method NormalizeWhitespace(a: array<byte>) returns (len: nat)
    requires forall i :: 0 <= i < a.Length ==> a[i] != 0
    modifies a
    ensures len <= a.Length && a[..len] == Normal(old(a[..]), false)
  {
    ghost var s, goal := a[..], Normal(a[..], false);
    var read := 0;
    len := 0;
    assert s[0..] == s && s[..0] + goal == goal;
    while read < a.Length
      invariant Progress(a[..], s, read, len, goal)
      decreases a.Length - read
    {
      if Space(a[read]) {
        read, len := SkipBlanks(a, read, len, s, goal);
      } else {
        CopyByte(a, read, len, s, goal);
        len, read := len + 1, read + 1;
      }
    }
    assert a[..len] == a[..][..len] && a[..len] + [] == a[..len];
  }

  /** *write++ = c, behind the reader. */
  method Write(a: array<byte>, at: nat, read: nat, c: byte) returns (next: nat)
    requires at < read <= a.Length
    modifies a
    ensures next == at + 1 && a[..][..next] == old(a[..at]) + [c] && a[..][read..] == old(a[..])[read..]
  {
    a[at] := c;
    next := at + 1;
    assert a[..at] == old(a[..at]);
    assert a[..][..next] == a[..at] + [c];
  }
}
