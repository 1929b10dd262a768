/** read_cache_put writes the contract and the fingerprint unescaped. This is exactly
    when a get under the same two still finds the entry: neither holds a quote or a
    backslash. */
module JsonExact {
  import opened Basics
  import opened JsonCache
  import opened JsonFields

  /** What follows an unescaped field: its quote, a comma, and the next key. */
  function Tail(word: seq<byte>, more: seq<byte>): seq<byte> {
    [34] + ([44] + ([34] + (word + ([34] + more))))
  }

  predicate Word(word: seq<byte>) { |word| >= 4 && Plain(word) && NulFree(word) }

  predicate Ends(g: seq<byte>, y: seq<byte>) { |g| >= |y| && g[|g| - |y|..] == y }

  // ---- C strings -------------------------------------------------------------------

  lemma {:induction false} CStringCut(a: seq<byte>, z: seq<byte>)
    requires NulFree(a)
    ensures CString(a + z) == a + CString(z)
  {
    if a == [] {
      assert a + z == z && [] + CString(z) == CString(z);
    } else {
      CStringCut(a[1..], z);
      assert (a + z)[1..] == a[1..] + z;
      assert a == [a[0]] + a[1..];
      assert [a[0]] + (a[1..] + CString(z)) == [a[0]] + a[1..] + CString(z);
    }
  }

  lemma {:induction false} CStringShort(v: seq<byte>)
    ensures |CString(v)| <= |v|
  {
    if v != [] { CStringShort(v[1..]); }
  }

  // ---- Pieces ----------------------------------------------------------------------

  /** How many bytes one turn of the string loop takes. */
  ghost function Taken(lib: Library, s: seq<byte>): nat
    requires s != [] && Piece(lib, s).Got?
  {
    |s| - |Piece(lib, s).rest|
  }

  /** A turn gives one to four bytes, no more than it takes, and a NUL only alone. */
  lemma PieceGives(lib: Library, s: seq<byte>)
    requires s != [] && Piece(lib, s).Got?
    ensures var p := Piece(lib, s);
            && 1 <= |p.value| <= 4 && |p.value| <= Taken(lib, s)
            && (NulFree(p.value) || p.value == [0])
            && (p.value[0] < 0x80 ==> |p.value| == 1)
            && (s[0] == 92 && |s| > 1 ==> Taken(lib, s) >= 2)
  {
  }

  lemma PieceRest(lib: Library, s: seq<byte>)
    requires s != [] && Piece(lib, s).Got?
    ensures Piece(lib, s).rest == s[Taken(lib, s)..]
  {
  }

  /** A turn that runs over the end of `y` began its last escape inside `y`. */
  lemma {:induction false} PieceOver(lib: Library, y: seq<byte>, word: seq<byte>, more: seq<byte>)
    requires y != [] && Word(word)
    requires Piece(lib, y + Tail(word, more)).Got? && Taken(lib, y + Tail(word, more)) > |y|
    ensures var s := y + Tail(word, more); var over := Taken(lib, s) - |y|;
            || (y == [92] && over == 1 && Piece(lib, s).value == [34])
            || (1 <= over <= 4 && |y| >= 6 - over && y[|y| + over - 6] == 92)
  {
    var s := y + Tail(word, more);
    assert s[|y|] == 34 && s[|y| + 1] == 44 && s[|y| + 2] == 34 && s[|y| + 3] == word[0] && s[|y| + 4] == word[1];
    if s[0] == 92 && s[1] == 117 {
      var u := s[2..];
      assert u[..4] == s[2..6];
      if Taken(lib, s) == 12 {
        assert u[4] == s[6] && u[5] == s[7];
      }
    }
  }

  lemma StrStep(lib: Library, s: seq<byte>)
    requires s != [] && s[0] != 34 && Str(lib, s).Got?
    ensures Piece(lib, s).Got? && Str(lib, Piece(lib, s).rest).Got?
    ensures Str(lib, s).value == Piece(lib, s).value + Str(lib, Piece(lib, s).rest).value
  {
  }

  /** What the parser reads from a point inside the tail. */
  lemma {:induction false} TailReads(lib: Library, word: seq<byte>, more: seq<byte>, over: nat)
    requires Word(word) && 1 <= over <= 4
    ensures Str(lib, Tail(word, more)[over..]).Got?
    ensures Str(lib, Tail(word, more)[over..]).value == After(word, over)
  {
    var t := Tail(word, more);
    if over == 1 {
      assert t[1..] == [44] + ([34] + (word + ([34] + more)));
      PlainReads(lib, [44], word + ([34] + more));
    } else if over == 2 {
      assert t[2..] == [34] + (word + ([34] + more));
    } else if over == 3 {
      assert t[3..] == word + ([34] + more);
      PlainReads(lib, word, more);
    } else {
      assert t[4..] == word[1..] + ([34] + more);
      PlainReads(lib, word[1..], more);
    }
  }

  /** Running over the end never spells `g`, which ends with `y`. */
  lemma {:induction false} OverNever(lib: Library, y: seq<byte>, g: seq<byte>, word: seq<byte>, more: seq<byte>)
    requires y != [] && y[0] != 34 && Word(word) && Ends(g, y)
    requires Str(lib, y + Tail(word, more)).Got? && Piece(lib, y + Tail(word, more)).Got?
    requires Taken(lib, y + Tail(word, more)) > |y|
    requires |g| > |y| || (y[0] == 92 && Piece(lib, y + Tail(word, more)).value[..1] == [92])
    ensures CString(Str(lib, y + Tail(word, more)).value) != g
  {
    var s := y + Tail(word, more);
    var p, over := Piece(lib, s), Taken(lib, s) - |y|;
    PieceOver(lib, y, word, more);
    PieceGives(lib, s);
    OverReads(lib, y, word, more);
    OverSpells(p.value, y, g, word, over, Str(lib, s).value);
  }

  /** What is read in all when a turn runs over the end. */
  lemma {:induction false} OverReads(lib: Library, y: seq<byte>, word: seq<byte>, more: seq<byte>)
    requires y != [] && y[0] != 34 && Word(word)
    requires Str(lib, y + Tail(word, more)).Got? && Piece(lib, y + Tail(word, more)).Got?
    requires var over := Taken(lib, y + Tail(word, more)) - |y|; 1 <= over <= 4
    ensures var s := y + Tail(word, more);
            Str(lib, s).value == Piece(lib, s).value + After(word, Taken(lib, s) - |y|)
  {
    var s := y + Tail(word, more);
    StrSplit(lib, s);
    TailCut(y, Tail(word, more), Taken(lib, s) - |y|);
    TailReads(lib, word, more, Taken(lib, s) - |y|);
  }

  /** A string is its first piece and what the rest reads as. */
  lemma {:induction false} StrSplit(lib: Library, s: seq<byte>)
    requires s != [] && s[0] != 34 && Str(lib, s).Got?
    ensures Piece(lib, s).Got? && Taken(lib, s) <= |s| && Str(lib, s[Taken(lib, s)..]).Got?
    ensures Str(lib, s).value == Piece(lib, s).value + Str(lib, s[Taken(lib, s)..]).value
  {
    StrStep(lib, s);
    PieceRest(lib, s);
  }

  lemma TailCut(y: seq<byte>, t: seq<byte>, over: nat)
    requires over <= |t|
    ensures (y + t)[|y| + over..] == t[over..]
  {
  }

  function After(word: seq<byte>, over: nat): seq<byte> {
    if over == 1 then [44] else if over == 2 then [] else if over == 3 then word
    else if word == [] then [] else word[1..]
  }

  /** Such a text is not `g`: too short, or it differs where `y` began its escape. */
  lemma {:induction false} OverSpells(p: seq<byte>, y: seq<byte>, g: seq<byte>, word: seq<byte>, over: nat,
                                      v: seq<byte>)
    requires y != [] && Word(word) && Ends(g, y) && v == p + After(word, over)
    requires 1 <= |p| <= 4 && (NulFree(p) || p == [0]) && (p[0] < 0x80 ==> |p| == 1)
    requires || (y == [92] && over == 1 && p == [34])
             || (1 <= over <= 4 && |y| >= 6 - over && y[|y| + over - 6] == 92)
    requires |g| > |y| || (y[0] == 92 && p[..1] == [92])
    ensures CString(v) != g
  {
    var z := After(word, over);
    CStringShort(v);
    assert g[|g| - |y|..][|y| - 1] == y[|y| - 1];
    if p == [0] {
      assert v[0] == 0;
    } else if over >= 3 {
      CStringCut(p, z);
      CStringWhole(z);
      assert g[|g| - |y|..][|y| + over - 6] == y[|y| + over - 6];
      OverWord(p, z, g, over);
    } else if y == [92] && p == [34] {
      CStringCut([34], [44]);
      CStringWhole([44]);
    }
  }

  lemma {:induction false} OverWord(a: seq<byte>, z: seq<byte>, g: seq<byte>, over: nat)
    requires 3 <= over <= 4 && |z| >= 3 && Plain(z) && |g| >= 6 - over && g[|g| + over - 6] == 92
    ensures a + z != g
  {
    assert (a + z)[|a + z| + over - 6] == z[|z| + over - 6];
  }

  /** A parser that lags behind what it must spell never catches up. */
  lemma {:induction false} LagNever(lib: Library, y: seq<byte>, g: seq<byte>, word: seq<byte>, more: seq<byte>)
    requires Word(word) && Ends(g, y) && |g| > |y| && Str(lib, y + Tail(word, more)).Got?
    ensures CString(Str(lib, y + Tail(word, more)).value) != g
    decreases |y|
  {
    var s := y + Tail(word, more);
    if y == [] {
      assert s == Tail(word, more);
    } else if y[0] != 34 {
      StrStep(lib, s);
      if Taken(lib, s) > |y| {
        OverNever(lib, y, g, word, more);
      } else {
        Within(lib, y, g, word, more);
        var p := Piece(lib, s).value;
        if NulFree(p) && |p| <= |g| {
          LagNever(lib, y[Taken(lib, s)..], g[|p|..], word, more);
        }
      }
    }
  }

  /** A turn inside `y` leaves the rest of `y` to spell the rest of `g`. */
  lemma {:induction false} Within(lib: Library, y: seq<byte>, g: seq<byte>, word: seq<byte>, more: seq<byte>)
    requires y != [] && y[0] != 34 && Ends(g, y) && g != []
    requires Str(lib, y + Tail(word, more)).Got? && Piece(lib, y + Tail(word, more)).Got?
    requires Taken(lib, y + Tail(word, more)) <= |y|
    ensures var s := y + Tail(word, more); var p, k := Piece(lib, s).value, Taken(lib, s);
            && 1 <= |p| <= k
            && Str(lib, y[k..] + Tail(word, more)).Got?
            && (CString(Str(lib, s).value) == g ==>
                  NulFree(p) && |p| <= |g| && p == g[..|p|]
                  && CString(Str(lib, y[k..] + Tail(word, more)).value) == g[|p|..])
            && (|p| <= |g| ==> Ends(g[|p|..], y[k..]))
  {
    var s := y + Tail(word, more);
    var p, k := Piece(lib, s).value, Taken(lib, s);
    StrSplit(lib, s);
    PieceGives(lib, s);
    FrontCut(y, Tail(word, more), k);
    var z := Str(lib, s[k..]).value;
    if CString(p + z) == g { CutSpells(p, z, g); }
    EndsCut(g, y, |p|, k);
  }

  lemma FrontCut(y: seq<byte>, t: seq<byte>, k: nat)
    requires k <= |y|
    ensures (y + t)[k..] == y[k..] + t
  {
  }

  lemma {:induction false} CutSpells(p: seq<byte>, z: seq<byte>, g: seq<byte>)
    requires p != [] && (NulFree(p) || p == [0]) && CString(p + z) == g && g != []
    ensures NulFree(p) && |p| <= |g| && p == g[..|p|] && CString(z) == g[|p|..]
  {
    assert (p + z)[0] == p[0];
    CStringCut(p, z);
    assert (p + CString(z))[..|p|] == p && (p + CString(z))[|p|..] == CString(z);
  }

  lemma {:induction false} EndsCut(g: seq<byte>, y: seq<byte>, b: nat, k: nat)
    requires Ends(g, y) && b <= k <= |y|
    ensures b <= |g| && Ends(g[b..], y[k..])
  {
    assert g[b..][|g| - b - (|y| - k)..] == g[|g| - |y|..][k..];
  }

  /** Text that starts with a quote or a backslash is not read back. */
  lemma {:induction false} SpecialNever(lib: Library, y: seq<byte>, word: seq<byte>, more: seq<byte>)
    requires Word(word) && y != [] && (y[0] == 34 || y[0] == 92) && Str(lib, y + Tail(word, more)).Got?
    ensures CString(Str(lib, y + Tail(word, more)).value) != y
  {
    var s := y + Tail(word, more);
    if y[0] == 92 {
      StrStep(lib, s);
      PieceGives(lib, s);
      var p, k := Piece(lib, s).value, Taken(lib, s);
      if k > |y| {
        if p[..1] == [92] {
          OverNever(lib, y, y, word, more);
        } else {
          FirstByte(p, Str(lib, Piece(lib, s).rest).value);
        }
      } else {
        Within(lib, y, y, word, more);
        if p == y[..|p|] {
          LagNever(lib, y[k..], y[1..], word, more);
        }
      }
    }
  }

  lemma FirstByte(p: seq<byte>, z: seq<byte>)
    requires p != [] && p[0] != 92
    ensures CString(p + z) == [] || CString(p + z)[0] != 92
  {
  }

  /** A text is read back exactly when it holds no quote and no backslash. */
  lemma {:induction false} FieldExactly(lib: Library, u: seq<byte>, word: seq<byte>, more: seq<byte>)
    requires Word(word) && NulFree(u) && Str(lib, u + Tail(word, more)).Got?
    ensures CString(Str(lib, u + Tail(word, more)).value) == u <==> Plain(u)
  {
    if Plain(u) {
      PlainReads(lib, u, [44] + ([34] + (word + ([34] + more))));
      CStringWhole(u);
    } else if u[0] == 34 || u[0] == 92 {
      SpecialNever(lib, u, word, more);
    } else {
      var s := u + Tail(word, more);
      StrStep(lib, s);
      assert s[1..] == u[1..] + Tail(word, more);
      FieldExactly(lib, u[1..], word, more);
      CStringCut([u[0]], Str(lib, s[1..]).value);
      assert u == [u[0]] + u[1..];
      assert Plain(u[1..]) ==> Plain(u);
    }
  }

  // ---- Entries -----------------------------------------------------------------------

  /** A text field reads as whatever its text reads as. */
  lemma {:induction false} FieldMember(lib: Library, key: seq<byte>, u: seq<byte>, tail: seq<byte>)
    requires Plain(key)
    ensures var r := Str(lib, u + ([34] + tail));
            Member(lib, TextField(key, u, tail)) == if r.Bad? then Bad else Got((key, Text(r.value)), r.rest)
  {
    var text := [34] + (u + ([34] + tail));
    WsStays(34, key + ([34] + ([58] + text)));
    Front(34, key + ([34] + ([58] + text)));
    PlainReads(lib, key, [58] + text);
    WsStays(58, text);
    Front(58, text);
    WsStays(34, u + ([34] + tail));
    Front(34, u + ([34] + tail));
  }

  /** The first member decides what is found under its key. */
  lemma {:induction false} FirstMember(lib: Library, key: seq<byte>, u: seq<byte>, tail: seq<byte>)
    requires Plain(key) && NulFree(key) && Members(lib, TextField(key, u, tail)).Got?
    ensures Str(lib, u + ([34] + tail)).Got?
    ensures Find(Members(lib, TextField(key, u, tail)).value, key) == Some(Text(Str(lib, u + ([34] + tail)).value))
  {
    FieldMember(lib, key, u, tail);
    CStringWhole(key);
  }

  lemma {:induction false} NotFoundUnder(lib: Library, key: seq<byte>, u: seq<byte>, word: seq<byte>, more: seq<byte>)
    requires Plain(key) && NulFree(key) && Word(word) && NulFree(u) && !Plain(u)
    requires Members(lib, TextField(key, u, [44] + ([34] + (word + ([34] + more))))).Got?
    ensures var f := Find(Members(lib, TextField(key, u, [44] + ([34] + (word + ([34] + more))))).value, key);
            f.Some? && f.value.Text? && CString(f.value.str) != u
  {
    FirstMember(lib, key, u, [44] + ([34] + (word + ([34] + more))));
    FieldExactly(lib, u, word, more);
  }

  lemma {:induction false} ObjectFrom(lib: Library, s: seq<byte>)
    requires Starts(s, 34)
    ensures var r := Members(lib, s); Val(lib, [123] + s) == if r.Bad? then Bad else Got(Obj(r.value), r.rest)
  {
    WsStays(123, s);
    Front(123, s);
  }

  /** A contract that is not plain is not found again. */
  lemma {:induction false} ContractLost(lib: Library, k1: seq<byte>, k2: seq<byte>, contract: seq<byte>,
                                        pack: seq<byte>, end: seq<byte>)
    requires Plain(k1) && NulFree(k1) && Word(k2) && NulFree(contract) && !Plain(contract)
    ensures var r := Val(lib, [123] + TextField(k1, contract, [44] + TextField(k2, pack, end)));
            r.Got? ==> r.value.Obj? && var f := Find(r.value.members, k1);
                       f.Some? && f.value.Text? && CString(f.value.str) != contract
  {
    var more := [58] + ([34] + (pack + ([34] + end)));
    var s := TextField(k1, contract, [44] + TextField(k2, pack, end));
    assert TextField(k2, pack, end) == [34] + (k2 + ([34] + more));
    ObjectFrom(lib, s);
    if Members(lib, s).Got? { NotFoundUnder(lib, k1, contract, k2, more); }
  }

  /** A fingerprint that is not plain is not found again. */
  lemma {:induction false} PackLost(lib: Library, k1: seq<byte>, k2: seq<byte>, k3: seq<byte>, contract: seq<byte>,
                                    pack: seq<byte>, created: seq<byte>, end: seq<byte>)
    requires Plain(k1) && NulFree(k1) && Plain(k2) && NulFree(k2) && k1 != k2 && Word(k3)
    requires Plain(contract) && NulFree(pack) && !Plain(pack)
    ensures var r := Val(lib, [123] + TextField(k1, contract,
                          [44] + TextField(k2, pack, [44] + NumberField(k3, created, end))));
            r.Got? ==> r.value.Obj? && var f := Find(r.value.members, k2);
                       f.Some? && f.value.Text? && CString(f.value.str) != pack
  {
    var more := [58] + (created + [44] + end);
    var s2 := TextField(k2, pack, [44] + NumberField(k3, created, end));
    assert NumberField(k3, created, end) == [34] + (k3 + ([34] + more));
    var s1 := TextField(k1, contract, [44] + s2);
    ObjectFrom(lib, s1);
    SecondMembers(lib, k1, contract, s2);
    if Members(lib, s2).Got? {
      NotFoundUnder(lib, k2, pack, k3, more);
      CStringWhole(k1);
      FindFirst((k1, Text(contract)), Members(lib, s2).value, k2);
    }
  }

  lemma {:induction false} SecondMembers(lib: Library, k1: seq<byte>, contract: seq<byte>, s2: seq<byte>)
    requires Plain(k1) && Plain(contract)
    ensures var r := Members(lib, s2);
            Members(lib, TextField(k1, contract, [44] + s2))
            == if r.Bad? then Bad else Got([(k1, Text(contract))] + r.value, r.rest)
  {
    PlainReads(lib, contract, [44] + s2);
    FieldMember(lib, k1, contract, [44] + s2);
    WsStays(44, s2);
    Front(44, s2);
  }

  ghost predicate Mismatch(f: Option<Value>, asked: seq<byte>) {
    f.Some? && f.value.Text? && CString(f.value.str) != asked
  }

  lemma {:induction false} EntryLost(lib: Library, k1: seq<byte>, k2: seq<byte>, k3: seq<byte>, k4: seq<byte>,
                                     contract: seq<byte>, pack: seq<byte>, created: seq<byte>, result: seq<byte>)
    requires Word(k1) && Word(k2) && Word(k3) && Word(k4) && k1 != k2 && Digits(created)
    requires NulFree(contract) && NulFree(pack) && NulFree(result) && !(Plain(contract) && Plain(pack))
    ensures var r := Val(lib, CString(Entry(k1, k2, k3, k4, contract, pack, created, result)));
            r.Got? ==>
              r.value.Obj?
              && (Mismatch(Find(r.value.members, k1), contract) || Mismatch(Find(r.value.members, k2), pack))
  {
    EntryNulFree(k1, k2, k3, k4, contract, pack, created, result);
    CStringWhole(Entry(k1, k2, k3, k4, contract, pack, created, result));
    if Plain(contract) {
      PackLost(lib, k1, k2, k3, contract, pack, created, TextField(k4, Escape(result), [125]));
    } else {
      ContractLost(lib, k1, k2, contract, pack, [44] + EntryEnd(k3, k4, created, result));
    }
  }

  /** Asked for under the contract and fingerprint it was put under, an entry is found
      if and only if neither holds a quote or a backslash; and then it is what was put. */
  lemma {:induction false} GetFindsExactly(lib: Library, contract: seq<byte>, pack: seq<byte>, created: seq<byte>,
                                           result: seq<byte>)
    requires LibraryOk(lib) && Digits(created) && NulFree(contract) && NulFree(pack) && NulFree(result)
    ensures Get(lib, Put(contract, pack, created, result), contract, pack)
            == if Plain(contract) && Plain(pack) then Some(result) else None
  {
    if Plain(contract) && Plain(pack) {
      PlainIsClosed(lib, contract);
      PlainIsClosed(lib, pack);
      CStringWhole(contract);
      CStringWhole(pack);
      GetAnswers(lib, contract, pack, created, result, contract, pack);
    } else {
      LostIsNone(lib, contract, pack, created, result);
    }
  }

  /** An entry answers its own pair with what was put and every other pair with nothing. */
  ghost predicate Faithful(lib: Library, entry: seq<byte>, contract: seq<byte>, pack: seq<byte>, result: seq<byte>) {
    forall asked, askedPack ::
      Get(lib, entry, asked, askedPack) == if asked == contract && askedPack == pack then Some(result) else None
  }

  /** Of all pairs asked for, exactly the right one is answered if and only if contract
      and fingerprint hold neither quote nor backslash. */
  lemma {:induction false} AnswersExactly(lib: Library, contract: seq<byte>, pack: seq<byte>, created: seq<byte>,
                                          result: seq<byte>)
    requires LibraryOk(lib) && Digits(created) && NulFree(contract) && NulFree(pack) && NulFree(result)
    ensures Faithful(lib, Put(contract, pack, created, result), contract, pack, result)
            <==> Plain(contract) && Plain(pack)
  {
    GetFindsExactly(lib, contract, pack, created, result);
    if Plain(contract) && Plain(pack) {
      PlainIsClosed(lib, contract);
      PlainIsClosed(lib, pack);
      CStringWhole(contract);
      CStringWhole(pack);
      forall asked, askedPack
        ensures Get(lib, Put(contract, pack, created, result), asked, askedPack)
                == if asked == contract && askedPack == pack then Some(result) else None
      {
        GetAnswers(lib, contract, pack, created, result, asked, askedPack);
      }
    }
  }

  /** Put under a contract that is one quote, an entry is never found again. */
  lemma {:induction false} QuoteIsLost(lib: Library, created: seq<byte>, result: seq<byte>)
    requires LibraryOk(lib) && Digits(created) && NulFree(result)
    ensures Get(lib, Put([34], [], created, result), [34], []) == None
  {
    var quote: seq<byte> := [34];
    assert quote[0] == 34 && !Plain(quote);
    GetFindsExactly(lib, quote, [], created, result);
  }

  lemma KeysAreWords()
    ensures Word(ContractKey()) && Word(PackKey()) && Word(CreatedKey()) && Word(ResultKey())
  {
  }

  lemma MismatchIsNone(members: seq<(seq<byte>, Value)>, contract: seq<byte>, pack: seq<byte>)
    requires Mismatch(Find(members, ContractKey()), contract) || Mismatch(Find(members, PackKey()), pack)
    ensures Matching(members, contract, pack) == None
  {
  }

  lemma {:induction false} LostIsNone(lib: Library, contract: seq<byte>, pack: seq<byte>, created: seq<byte>,
                                      result: seq<byte>)
    requires Digits(created) && NulFree(contract) && NulFree(pack) && NulFree(result)
      && !(Plain(contract) && Plain(pack))
    ensures Get(lib, Put(contract, pack, created, result), contract, pack) == None
  {
    KeysDiffer();
    KeysAreWords();
    EntryLost(lib, ContractKey(), PackKey(), CreatedKey(), ResultKey(), contract, pack, created, result);
    var r := Val(lib, CString(Put(contract, pack, created, result)));
    if r.Got? { MismatchIsNone(r.value.members, contract, pack); }
  }
}
