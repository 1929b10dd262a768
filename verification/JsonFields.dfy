/** What a get answers under any pair, for entries put with any contract and fingerprint
    that stay inside their quotes; and what can be answered when one does not. */
module JsonFields {
  import opened Basics
  import opened JsonCache

  // ---- Fields that stay inside their quotes ---------------------------------------------

  /** Every quote is escaped and every escape is complete. */
  predicate Closed(u: seq<byte>) {
    if u == [] then true
    else if u[0] == 34 then false
    else if u[0] != 92 then Closed(u[1..])
    else if |u| < 2 then false
    else if u[1] != 117 then Closed(u[2..])
    else |u| >= 6 && Closed(u[6..])
  }

  predicate Paired(lib: Library, u: seq<byte>) {
    && |u| >= 12 && u[6] == 92 && u[7] == 117
    && 0xD800 <= lib.hex(u[2..6]) <= 0xDBFF && 0xDC00 <= lib.hex(u[8..12]) <= 0xDFFF
  }

  /** How much of a closed text one turn of the string loop takes, and what it gives. */
  function Consumed(lib: Library, u: seq<byte>): (k: nat)
    requires Closed(u) && u != []
    ensures 0 < k <= |u| && Closed(u[k..])
  {
    if u[0] != 92 then 1
    else if u[1] != 117 then 2
    else if Paired(lib, u) then ClosedTwice(u); 12
    else 6
  }

  lemma {:induction false} ClosedTwice(u: seq<byte>)
    requires Closed(u) && |u| >= 12 && u[0] == 92 && u[1] == 117 && u[6] == 92 && u[7] == 117
    ensures Closed(u[12..])
  {
    var v := u[6..];
    assert Closed(v) && v[0] == 92 && v[1] == 117;
    assert v[6..] == u[12..];
  }

  function Given(lib: Library, u: seq<byte>): seq<byte>
    requires Closed(u) && u != []
  {
    if u[0] != 92 then [u[0]]
    else if u[1] != 117 then [Simple(u[1])]
    else if Paired(lib, u) then
      CodeBytes(0x10000 + (lib.hex(u[2..6]) - 0xD800) * 1024 + (lib.hex(u[8..12]) - 0xDC00))
    else CodeBytes(lib.hex(u[2..6]))
  }

  /** What the parser makes of a closed text. */
  function Decoded(lib: Library, u: seq<byte>): seq<byte>
    requires Closed(u)
  {
    if u == [] then [] else Given(lib, u) + Decoded(lib, u[Consumed(lib, u)..])
  }

  lemma {:induction false} ClosedPiece(lib: Library, u: seq<byte>, tail: seq<byte>)
    requires Closed(u) && u != []
    ensures Piece(lib, u + ([34] + tail)) == Got(Given(lib, u), u[Consumed(lib, u)..] + ([34] + tail))
  {
    var s, k := u + ([34] + tail), Consumed(lib, u);
    RestOf(u, [34] + tail, k);
    if u[0] == 92 && u[1] == 117 {
      ClosedUnicode(lib, u, tail);
    }
  }

  lemma RestOf(u: seq<byte>, tail: seq<byte>, k: nat)
    requires k <= |u|
    ensures (u + tail)[k..] == u[k..] + tail
  {
  }

  lemma {:induction false} ClosedUnicode(lib: Library, u: seq<byte>, tail: seq<byte>)
    requires Closed(u) && |u| >= 6 && u[0] == 92 && u[1] == 117
    ensures Unicode(lib, (u + ([34] + tail))[2..]) == Got(Given(lib, u), (u + ([34] + tail))[Consumed(lib, u)..])
  {
    var whole := u + ([34] + tail);
    var s := whole[2..];
    assert s[..4] == u[2..6] && s[4..] == whole[6..];
    if |u| == 6 {
      assert s[4] == 34;
    } else {
      ClosedSecond(u);
      assert s[4] == u[6];
      if u[6] == 92 {
        assert s[5] == u[7];
        if u[7] == 117 {
          assert s[6..10] == u[8..12] && s[10..] == whole[12..];
        }
      }
    }
  }

  lemma {:induction false} ClosedSecond(u: seq<byte>)
    requires Closed(u) && |u| > 6 && u[0] == 92 && u[1] == 117
    ensures u[6] == 92 ==> |u| >= 8 && (u[7] == 117 ==> |u| >= 12)
  {
    var v := u[6..];
    assert Closed(v) && v[0] == u[6];
    if |v| > 1 { assert v[1] == u[7]; }
  }

  /** A closed field reads as one string. */
  lemma {:induction false} ClosedReads(lib: Library, u: seq<byte>, tail: seq<byte>)
    requires Closed(u)
    ensures Str(lib, u + ([34] + tail)) == Got(Decoded(lib, u), tail)
    decreases |u|
  {
    var s := u + ([34] + tail);
    if u == [] {
      assert s == [34] + tail && s[1..] == tail;
    } else {
      ClosedPiece(lib, u, tail);
      ClosedReads(lib, u[Consumed(lib, u)..], tail);
      assert s[0] == u[0] != 34;
    }
  }

  lemma {:induction false} PlainIsClosed(lib: Library, u: seq<byte>)
    requires Plain(u)
    ensures Closed(u) && Decoded(lib, u) == u
  {
    if u != [] {
      PlainIsClosed(lib, u[1..]);
      assert u == [u[0]] + u[1..];
    }
  }

  // ---- Any pair -------------------------------------------------------------------------

  /** A closed field in front of further members. */
  lemma {:induction false} FieldThen(lib: Library, key: seq<byte>, u: seq<byte>, t: seq<byte>,
                                     more: seq<(seq<byte>, Value)>)
    requires Plain(key) && Closed(u) && Members(lib, t) == Got(more, [])
    ensures Members(lib, TextField(key, u, [44] + t)) == Got([(key, Text(Decoded(lib, u)))] + more, [])
  {
    ClosedReads(lib, u, [44] + t);
    TextValue(lib, u, Decoded(lib, u), [44] + t);
    MemberReads(lib, key, [34] + (u + ([34] + ([44] + t))), Text(Decoded(lib, u)), [44] + t);
    MembersMore(lib, TextField(key, u, [44] + t), (key, Text(Decoded(lib, u))), t, more, []);
  }

  lemma {:induction false} ClosedEntry(lib: Library, k1: seq<byte>, k2: seq<byte>, k3: seq<byte>, k4: seq<byte>,
                                       contract: seq<byte>, pack: seq<byte>, created: seq<byte>, result: seq<byte>)
    requires LibraryOk(lib) && Plain(k1) && Plain(k2) && Plain(k3) && Plain(k4)
    requires Closed(contract) && Closed(pack) && Digits(created) && NulFree(result)
    ensures Val(lib, Entry(k1, k2, k3, k4, contract, pack, created, result))
            == Got(Obj(Stored(k1, k2, k3, k4, Decoded(lib, contract), Decoded(lib, pack), result)), [])
  {
    var s3, end := EntryEnd(k3, k4, created, result), [(k3, Num)] + [(k4, Text(result))];
    EntryEndReads(lib, k3, k4, created, result);
    var s2 := TextField(k2, pack, [44] + s3);
    FieldThen(lib, k2, pack, s3, end);
    FieldThen(lib, k1, contract, s2, [(k2, Text(Decoded(lib, pack)))] + end);
    ObjectReads(lib, TextField(k1, contract, [44] + s2),
                Stored(k1, k2, k3, k4, Decoded(lib, contract), Decoded(lib, pack), result));
  }

  lemma {:induction false} ClosedRoundTrip(lib: Library, k1: seq<byte>, k2: seq<byte>, k3: seq<byte>, k4: seq<byte>,
                                           contract: seq<byte>, pack: seq<byte>, created: seq<byte>, result: seq<byte>)
    requires LibraryOk(lib) && Digits(created)
    requires Plain(k1) && Plain(k2) && Plain(k3) && Plain(k4)
    requires NulFree(k1) && NulFree(k2) && NulFree(k3) && NulFree(k4)
    requires k1 != k2 && k1 != k4 && k2 != k4 && k3 != k4
    requires Closed(contract) && Closed(pack) && NulFree(contract) && NulFree(pack) && NulFree(result)
    ensures var file := Entry(k1, k2, k3, k4, contract, pack, created, result);
            var m := Stored(k1, k2, k3, k4, Decoded(lib, contract), Decoded(lib, pack), result);
            && Val(lib, CString(file)) == Got(Obj(m), [])
            && Find(m, k1) == Some(Text(Decoded(lib, contract))) && Find(m, k2) == Some(Text(Decoded(lib, pack)))
            && Find(m, k4) == Some(Text(result))
  {
    EntryNulFree(k1, k2, k3, k4, contract, pack, created, result);
    CStringWhole(Entry(k1, k2, k3, k4, contract, pack, created, result));
    ClosedEntry(lib, k1, k2, k3, k4, contract, pack, created, result);
    FindStored(k1, k2, k3, k4, Decoded(lib, contract), Decoded(lib, pack), result);
  }

  lemma {:induction false} MatchingFound(m: seq<(seq<byte>, Value)>, c: seq<byte>, p: seq<byte>, r: seq<byte>,
                                         asked: seq<byte>, askedPack: seq<byte>)
    requires Find(m, ContractKey()) == Some(Text(c)) && Find(m, PackKey()) == Some(Text(p))
    requires Find(m, ResultKey()) == Some(Text(r)) && NulFree(r)
    ensures Matching(m, asked, askedPack) == if asked == CString(c) && askedPack == CString(p) then Some(r) else None
  {
    CStringWhole(r);
  }

  /** For closed fields a get under any pair returns the stored result exactly when the
      pair is what the two fields read as, and nothing otherwise. */
  lemma {:induction false} GetAnswers(lib: Library, contract: seq<byte>, pack: seq<byte>, created: seq<byte>,
                                      result: seq<byte>, asked: seq<byte>, askedPack: seq<byte>)
    requires LibraryOk(lib) && Digits(created) && NulFree(contract) && NulFree(pack) && NulFree(result)
    requires Closed(contract) && Closed(pack)
    ensures Get(lib, Put(contract, pack, created, result), asked, askedPack)
            == if asked == CString(Decoded(lib, contract)) && askedPack == CString(Decoded(lib, pack))
               then Some(result) else None
  {
    KeysDiffer();
    KeysArePlain();
    ClosedRoundTrip(lib, ContractKey(), PackKey(), CreatedKey(), ResultKey(), contract, pack, created, result);
    var m := Stored(ContractKey(), PackKey(), CreatedKey(), ResultKey(), Decoded(lib, contract), Decoded(lib, pack),
      result);
    MatchingFound(m, Decoded(lib, contract), Decoded(lib, pack), result, asked, askedPack);
  }

  // ---- A field that breaks out --------------------------------------------------------------

  /** A text field without its closing quote. */
  function OpenField(key: seq<byte>, text: seq<byte>): seq<byte> {
    [34] + (key + ([34] + ([58] + ([34] + text))))
  }

  /** A contract that closes its own quote and brings a fingerprint and a result along. */
  function Forged(a: seq<byte>, b: seq<byte>, x: seq<byte>): seq<byte> {
    a + ([34] + ([44] + (OpenField(PackKey(), b) + ([34] + ([44] + OpenField(ResultKey(), Escape(x)))))))
  }

  lemma OpenClosed(key: seq<byte>, text: seq<byte>, tail: seq<byte>)
    ensures OpenField(key, text) + ([34] + tail) == TextField(key, text, tail)
  {
  }

  lemma {:induction false} ForgedText(a: seq<byte>, b: seq<byte>, x: seq<byte>, tail: seq<byte>)
    ensures TextField(ContractKey(), Forged(a, b, x), tail)
            == TextField(ContractKey(), a,
                         [44] + TextField(PackKey(), b, [44] + TextField(ResultKey(), Escape(x), tail)))
  {
    var o, p := OpenField(PackKey(), b), OpenField(ResultKey(), Escape(x));
    OpenClosed(ResultKey(), Escape(x), tail);
    OpenClosed(PackKey(), b, [44] + TextField(ResultKey(), Escape(x), tail));
    ForgedShape(a, o, p, [34] + tail);
  }

  lemma ForgedShape(a: seq<byte>, o: seq<byte>, p: seq<byte>, rest: seq<byte>)
    ensures a + ([34] + ([44] + (o + ([34] + ([44] + p))))) + rest
            == a + ([34] + ([44] + (o + ([34] + ([44] + (p + rest))))))
  {
  }

  /** A get under a pair the entry was never put under returns a result that was never
      put: the first member found under each key wins. */
  lemma {:induction false} ForgedAnswer(lib: Library, a: seq<byte>, b: seq<byte>, x: seq<byte>, pack: seq<byte>,
                                        created: seq<byte>, result: seq<byte>)
    requires LibraryOk(lib) && Digits(created) && Plain(a) && Plain(b) && Plain(pack)
    requires NulFree(a) && NulFree(b) && NulFree(x) && NulFree(pack) && NulFree(result)
    ensures Get(lib, Put(Forged(a, b, x), pack, created, result), a, b) == Some(x)
  {
    var s3 := EntryEnd(CreatedKey(), ResultKey(), created, result);
    var s2 := TextField(PackKey(), pack, [44] + s3);
    var end := [(CreatedKey(), Num)] + [(ResultKey(), Text(result))];
    KeysDiffer();
    KeysArePlain();
    EntryEndReads(lib, CreatedKey(), ResultKey(), created, result);
    FieldReads(lib, PackKey(), pack, s3, end);
    ForgedText(a, b, x, [44] + s2);
    ForgedMembers(lib, a, b, x, s2, [(PackKey(), Text(pack))] + end);
    ForgedNulFree(a, b, x);
    EntryNulFree(ContractKey(), PackKey(), CreatedKey(), ResultKey(), Forged(a, b, x), pack, created, result);
    CStringWhole(Put(Forged(a, b, x), pack, created, result));
    ForgedFound(a, b, x, [(PackKey(), Text(pack))] + end);
  }

  lemma {:induction false} ForgedMembers(lib: Library, a: seq<byte>, b: seq<byte>, x: seq<byte>, t: seq<byte>,
                                         more: seq<(seq<byte>, Value)>)
    requires LibraryOk(lib) && Plain(a) && Plain(b) && NulFree(x) && Members(lib, t) == Got(more, [])
    ensures var s4 := TextField(ResultKey(), Escape(x), [44] + t);
            Val(lib, [123] + TextField(ContractKey(), a, [44] + TextField(PackKey(), b, [44] + s4)))
            == Got(Obj([(ContractKey(), Text(a))] + ([(PackKey(), Text(b))] + ([(ResultKey(), Text(x))] + more))), [])
  {
    KeysArePlain();
    var s4 := TextField(ResultKey(), Escape(x), [44] + t);
    EscapeRoundTrip(lib, x, [44] + t);
    TextValue(lib, Escape(x), x, [44] + t);
    MemberReads(lib, ResultKey(), [34] + (Escape(x) + ([34] + ([44] + t))), Text(x), [44] + t);
    MembersMore(lib, s4, (ResultKey(), Text(x)), t, more, []);
    FieldReads(lib, PackKey(), b, s4, [(ResultKey(), Text(x))] + more);
    var s2 := TextField(PackKey(), b, [44] + s4);
    FieldReads(lib, ContractKey(), a, s2, [(PackKey(), Text(b))] + ([(ResultKey(), Text(x))] + more));
    ObjectReads(lib, TextField(ContractKey(), a, [44] + s2),
                [(ContractKey(), Text(a))] + ([(PackKey(), Text(b))] + ([(ResultKey(), Text(x))] + more)));
  }

  lemma {:induction false} ForgedNulFree(a: seq<byte>, b: seq<byte>, x: seq<byte>)
    requires NulFree(a) && NulFree(b) && NulFree(x)
    ensures NulFree(Forged(a, b, x))
  {
    KeysArePlain();
    EscapeNulFree(x);
    NulFreeJoin(PackKey(), [34] + ([58] + ([34] + b)));
    NulFreeJoin(ResultKey(), [34] + ([58] + ([34] + Escape(x))));
    NulFreeJoin(OpenField(PackKey(), b), [34] + ([44] + OpenField(ResultKey(), Escape(x))));
    NulFreeJoin(a, [34] + ([44] + (OpenField(PackKey(), b) + ([34] + ([44] + OpenField(ResultKey(), Escape(x)))))));
  }

  lemma {:induction false} ForgedFound(a: seq<byte>, b: seq<byte>, x: seq<byte>, more: seq<(seq<byte>, Value)>)
    requires NulFree(a) && NulFree(b) && NulFree(x)
    ensures Matching([(ContractKey(), Text(a))] + ([(PackKey(), Text(b))] + ([(ResultKey(), Text(x))] + more)), a, b)
            == Some(x)
  {
    KeysDiffer();
    KeysArePlain();
    CStringWhole(ContractKey());
    CStringWhole(PackKey());
    CStringWhole(ResultKey());
    var m3 := [(ResultKey(), Text(x))] + more;
    var m2 := [(PackKey(), Text(b))] + m3;
    FindFirst((ResultKey(), Text(x)), more, ResultKey());
    FindFirst((PackKey(), Text(b)), m3, PackKey());
    FindFirst((PackKey(), Text(b)), m3, ResultKey());
    FindFirst((ContractKey(), Text(a)), m2, ContractKey());
    FindFirst((ContractKey(), Text(a)), m2, PackKey());
    FindFirst((ContractKey(), Text(a)), m2, ResultKey());
    MatchingFound([(ContractKey(), Text(a))] + m2, a, b, x, a, b);
    CStringWhole(a);
    CStringWhole(b);
  }
}
