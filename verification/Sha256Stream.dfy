/** The three streaming SHA-256 implementations (src/qwen36b.c, src/read_cache.h,
    src/samosa_fs.c) around one compression function, which stays abstract. */
module Sha256Stream {
  import opened Basics

  type Words = seq<int>
  type Compress = (Words, seq<byte>) -> Words

  const TWO_TO_64: nat := 0x1_0000_0000_0000_0000

  // ---- The standard --------------------------------------------------------------

  /** Folds the compression function over whole blocks, in order. */
  function Compressed(f: Compress, iv: Words, blocks: seq<byte>): Words {
    if |blocks| < 64 then iv else f(Compressed(f, iv, blocks[..|blocks| - 64]), blocks[|blocks| - 64..])
  }

  function Zeros(n: nat): (z: seq<byte>)
    ensures |z| == n
  {
    seq(n, (i: nat) => 0)
  }

  /** Eight bytes, most significant first. */
  function BigEndian(bits: nat): (r: seq<byte>)
    ensures |r| == 8
  {
    seq(8, (i: nat) requires i < 8 => bits / Power256(7 - i) % 256)
  }

  function Power256(n: nat): (p: nat)
    ensures p > 0
  {
    if n == 0 then 1 else 256 * Power256(n - 1)
  }

  /** The zero bytes section 5.1.1 of FIPS 180-4 asks for after the byte 0x80. */
  function ZeroCount(length: nat): (k: nat)
    ensures k < 64 && (length + 1 + k) % 64 == 56
  {
    var r := (length + 1) % 64;
    if r <= 56 then 56 - r else 120 - r
  }

  /** No smaller number of zero bytes would do. */
  lemma ZeroCountIsLeast(length: nat, k: nat)
    requires (length + 1 + k) % 64 == 56
    ensures ZeroCount(length) <= k
  {
  }

  function Padded(message: seq<byte>, bits: nat): seq<byte> {
    message + [0x80] + Zeros(ZeroCount(|message|)) + BigEndian(bits)
  }

  /** The digest of a message: its length in bits is taken modulo 2^64. */
  function Digest(f: Compress, iv: Words, message: seq<byte>): Words {
    Compressed(f, iv, Padded(message, 8 * |message| % TWO_TO_64))
  }

  /** The number that bytes write, most significant first. */
  function Written(r: seq<byte>): nat {
    if r == [] then 0 else 256 * Written(r[..|r| - 1]) + r[|r| - 1]
  }

  lemma {:induction false} WrittenFrom(bits: nat, r: seq<byte>, n: nat)
    requires |r| == n <= 8 && forall i :: 0 <= i < n ==> r[i] == bits / Power256(n - 1 - i) % 256
    ensures Written(r) == bits % Power256(n)
    decreases n
  {
    if n > 0 {
      var front := r[..n - 1];
      forall i | 0 <= i < n - 1
        ensures front[i] == bits / 256 / Power256(n - 2 - i) % 256
      {
        DivTwice(bits, 256, Power256(n - 2 - i));
      }
      WrittenFrom(bits / 256, front, n - 1);
      ModSplit(bits, Power256(n - 1));
    } else {
      ModOne(bits);
    }
  }

  lemma ModOne(a: nat)
    ensures a % Power256(0) == 0
  {
  }

  lemma {:induction false} StepUp(d: nat, p: nat, q: nat)
    ensures p < q ==> d * p + d <= d * q
    decreases q
  {
    if p < q {
      StepUp(d, p, q - 1);
      assert d * q == d * (q - 1) + d;
    }
  }

  lemma Distribute(b: nat, c: nat, q: nat, r: nat)
    ensures b * (c * q + r) == b * c * q + b * r
  {
  }

  lemma {:induction false} QuotientUnique(a: nat, d: nat, q: nat, r: nat)
    requires 0 < d && a == d * q + r && r < d
    ensures a / d == q && a % d == r
  {
    var p, s := a / d, a % d;
    assert a == d * p + s;
    StepUp(d, p, q);
    StepUp(d, q, p);
  }

  lemma {:induction false} DivTwice(a: nat, b: nat, c: nat)
    requires 0 < b && 0 < c
    ensures 0 < b * c && a / b / c == a / (b * c)
  {
    var x, m := a / b, a % b;
    var q, r := x / c, x % c;
    assert a == b * x + m && x == c * q + r;
    Distribute(b, c, q, r);
    StepUp(b, r, c);
    Unite(a, b * c, q, b * r + m);
  }

  lemma {:induction false} Unite(a: nat, d: nat, q: nat, r: nat)
    requires a == d * q + r && r < d
    ensures a / d == q
  {
    QuotientUnique(a, d, q, r);
  }

  lemma {:induction false} ModSplit(a: nat, p: nat)
    requires 0 < p
    ensures a % (256 * p) == 256 * (a / 256 % p) + a % 256
  {
    var q, r := a / 256 / p, a / 256 % p;
    assert a / 256 == p * q + r;
    assert a == 256 * (p * q + r) + a % 256;
    assert 256 * (p * q + r) == 256 * p * q + 256 * r;
    QuotientUnique(a, 256 * p, q, 256 * r + a % 256);
  }

  /** The length field writes the length in bits. */
  lemma {:induction false} LengthIsWritten(bits: nat)
    requires bits < TWO_TO_64
    ensures |BigEndian(bits)| == 8 && Written(BigEndian(bits)) == bits
  {
    WrittenFrom(bits, BigEndian(bits), 8);
    PowerEight();
    assert bits % TWO_TO_64 == bits;
  }

  lemma PowerEight()
    ensures Power256(8) == TWO_TO_64
  {
    assert Power256(2) == 0x1_0000;
    assert Power256(4) == 0x1_0000_0000;
    assert Power256(6) == 0x1_0000_0000_0000;
  }

  /** Whole blocks are compressed one after the other, from the initial value. */
  lemma {:induction false} CompressedInOrder(f: Compress, iv: Words, blocks: seq<byte>, block: seq<byte>)
    requires |block| == 64
    ensures Compressed(f, iv, []) == iv
    ensures Compressed(f, iv, blocks + block) == f(Compressed(f, iv, blocks), block)
  {
    assert (blocks + block)[..|blocks + block| - 64] == blocks;
    assert (blocks + block)[|blocks + block| - 64..] == block;
  }

  /** For every message the standard admits the length is exact. */
  lemma StandardLength(message: seq<byte>)
    requires 8 * |message| < TWO_TO_64
    ensures Padded(message, 8 * |message| % TWO_TO_64) == Padded(message, 8 * |message|)
    ensures |Padded(message, 8 * |message|)| % 64 == 0
  {
  }

  // ---- A block buffer --------------------------------------------------------------

  /** After `done` bytes: whole blocks are compressed, the rest is buffered. */
  ghost predicate Absorbed(f: Compress, iv: Words, buffered: seq<byte>, state: Words, done: seq<byte>) {
    && |buffered| < 64 && |buffered| <= |done| && (|done| - |buffered|) % 64 == 0
    && buffered == done[|done| - |buffered|..]
    && state == Compressed(f, iv, done[..|done| - |buffered|])
  }

  lemma {:induction false} Buffered(f: Compress, iv: Words, buffered: seq<byte>, state: Words, done: seq<byte>,
                                    chunk: seq<byte>)
    requires Absorbed(f, iv, buffered, state, done) && |buffered| + |chunk| < 64
    ensures Absorbed(f, iv, buffered + chunk, state, done + chunk)
  {
    var k := |done| - |buffered|;
    assert done == done[..k] + buffered;
    assert (done + chunk)[k..] == buffered + chunk;
    assert (done + chunk)[..k] == done[..k];
  }

  lemma {:induction false} Flushed(f: Compress, iv: Words, buffered: seq<byte>, state: Words, done: seq<byte>,
                                   chunk: seq<byte>)
    requires Absorbed(f, iv, buffered, state, done) && |buffered| + |chunk| == 64
    ensures Absorbed(f, iv, [], f(state, buffered + chunk), done + chunk)
  {
    var all, k := done + chunk, |done| - |buffered|;
    assert done == done[..k] + buffered;
    assert all[..|all| - 64] == done[..k] && all[|all| - 64..] == buffered + chunk;
    assert all[..|all|] == all && all[|all|..] == [];
  }

  method Copy(block: array<byte>, at: nat, data: seq<byte>)
    requires at + |data| <= block.Length
    modifies block
    ensures block[..at + |data|] == old(block[..at]) + data
  {
    forall i | 0 <= i < |data| {
      block[at + i] := data[i];
    }
    assert block[..at] == old(block[..at]);
    assert block[at..at + |data|] == data;
    assert block[..at + |data|] == block[..at] + block[at..at + |data|];
  }

  /** The loop all three update functions share. */
  method Absorb(f: Compress, ghost iv: Words, block: array<byte>, used: nat, state: Words, data: seq<byte>,
                ghost done: seq<byte>)
    returns (used': nat, state': Words)
    requires block.Length == 64 && used < 64 && Absorbed(f, iv, block[..used], state, done)
    modifies block
    ensures used' < 64 && Absorbed(f, iv, block[..used'], state', done + data)
  {
    used', state' := used, state;
    var rest := data;
    ghost var seen := done;
    while |rest| > 0
      invariant used' < 64 && Absorbed(f, iv, block[..used'], state', seen) && seen + rest == done + data
      decreases |rest|
    {
      var take := if 64 - used' > |rest| then |rest| else 64 - used';
      ghost var chunk := rest[..take];
      used', state' := AbsorbOne(f, iv, block, used', state', rest[..take], seen);
      Assoc(seen, chunk, rest[take..]);
      assert rest == chunk + rest[take..];
      rest, seen := rest[take..], seen + chunk;
    }
    assert seen + [] == seen;
  }

  /** One turn: as much as the block takes. */
  method AbsorbOne(f: Compress, ghost iv: Words, block: array<byte>, used: nat, state: Words, chunk: seq<byte>,
                   ghost done: seq<byte>)
    returns (used': nat, state': Words)
    requires block.Length == 64 && used < 64 && used + |chunk| <= 64 && Absorbed(f, iv, block[..used], state, done)
    modifies block
    ensures used' < 64 && Absorbed(f, iv, block[..used'], state', done + chunk)
  {
    ghost var before := block[..used];
    Copy(block, used, chunk);
    used', state' := used + |chunk|, state;
    if used' == 64 {
      Flushed(f, iv, before, state, done, chunk);
      assert block[..] == block[..64];
      state', used' := f(state', block[..]), 0;
    } else {
      Buffered(f, iv, before, state, done, chunk);
    }
  }

  /** Appends to the buffer without filling it. */
  method Append(f: Compress, ghost iv: Words, block: array<byte>, used: nat, ghost state: Words, data: seq<byte>,
                ghost done: seq<byte>)
    requires block.Length == 64 && used + |data| < 64 && Absorbed(f, iv, block[..used], state, done)
    modifies block
    ensures Absorbed(f, iv, block[..used + |data|], state, done + data)
  {
    ghost var before := block[..used];
    Copy(block, used, data);
    Buffered(f, iv, before, state, done, data);
  }

  /** Fills the buffer and compresses it. */
  method Fill(f: Compress, ghost iv: Words, block: array<byte>, used: nat, state: Words, data: seq<byte>,
              ghost done: seq<byte>)
    returns (state': Words)
    requires block.Length == 64 && used + |data| == 64 && used < 64 && Absorbed(f, iv, block[..used], state, done)
    modifies block
    ensures Absorbed(f, iv, [], state', done + data)
  {
    ghost var before := block[..used];
    Copy(block, used, data);
    assert block[..] == block[..64];
    state' := f(state, block[..]);
    Flushed(f, iv, before, state, done, data);
  }

  lemma PadOneBlock(message: seq<byte>, bits: nat, used: nat)
    requires used == |message| % 64 && used + 1 <= 56
    ensures Padded(message, bits) == message + [0x80] + Zeros(56 - (used + 1)) + BigEndian(bits)
  {
  }

  lemma {:induction false} PadTwoBlocks(message: seq<byte>, bits: nat, used: nat)
    requires used == |message| % 64 && used + 1 > 56
    ensures Padded(message, bits) == message + [0x80] + Zeros(64 - (used + 1)) + Zeros(56) + BigEndian(bits)
  {
    assert Zeros(64 - (used + 1)) + Zeros(56) == Zeros(ZeroCount(|message|));
  }

  lemma {:induction false} WholeBlocks(f: Compress, iv: Words, state: Words, done: seq<byte>)
    requires Absorbed(f, iv, [], state, done)
    ensures state == Compressed(f, iv, done)
  {
    assert done[..|done|] == done;
  }

  /** The common end of all three final functions: 0x80, zero bytes, the length. They
      write the zero bytes by memset or by a loop, and the length up or down. */
  method Finish(f: Compress, ghost iv: Words, block: array<byte>, used: nat, state: Words, bits: nat,
                ghost done: seq<byte>)
    returns (digest: Words)
    requires block.Length == 64 && used < 64 && Absorbed(f, iv, block[..used], state, done)
    modifies block
    ensures digest == Compressed(f, iv, Padded(done, bits))
  {
    UsedIsRest(f, iv, block[..used], state, done);
    if used + 1 > 56 {
      digest := FinishTwo(f, iv, block, used, state, bits, done);
    } else {
      Append(f, iv, block, used, state, [0x80], done);
      PadOneBlock(done, bits, used);
      digest := Length(f, iv, block, used + 1, state, bits, done + [0x80]);
    }
  }

  lemma UsedIsRest(f: Compress, iv: Words, buffered: seq<byte>, state: Words, done: seq<byte>)
    requires Absorbed(f, iv, buffered, state, done)
    ensures |buffered| == |done| % 64
  {
  }

  method FinishTwo(f: Compress, ghost iv: Words, block: array<byte>, used: nat, state: Words, bits: nat,
                   ghost done: seq<byte>)
    returns (digest: Words)
    requires block.Length == 64 && 56 <= used < 64 && used == |done| % 64 && Absorbed(f, iv, block[..used], state, done)
    modifies block
    ensures digest == Compressed(f, iv, Padded(done, bits))
  {
    digest := FillOut(f, iv, block, used, state, done);
    digest := Length(f, iv, block, 0, digest, bits, done + [0x80] + Zeros(64 - (used + 1)));
    PadTwoBlocks(done, bits, used);
  }

  /** No room for the length: 0x80 and zero bytes fill this block. */
  method FillOut(f: Compress, ghost iv: Words, block: array<byte>, used: nat, state: Words, ghost done: seq<byte>)
    returns (state': Words)
    requires block.Length == 64 && used < 64 && Absorbed(f, iv, block[..used], state, done)
    modifies block
    ensures Absorbed(f, iv, block[..0], state', done + [0x80] + Zeros(64 - (used + 1)))
  {
    if used == 63 {
      state' := Fill(f, iv, block, used, state, [0x80], done);
      assert Zeros(0) == [] && done + [0x80] + [] == done + [0x80];
    } else {
      Append(f, iv, block, used, state, [0x80], done);
      state' := Fill(f, iv, block, used + 1, state, Zeros(64 - (used + 1)), done + [0x80]);
    }
    assert block[..0] == [];
  }

  /** Zero bytes up to 56, then the length. */
  method Length(f: Compress, ghost iv: Words, block: array<byte>, used: nat, state: Words, bits: nat,
                ghost done: seq<byte>)
    returns (digest: Words)
    requires block.Length == 64 && used <= 56 && Absorbed(f, iv, block[..used], state, done)
    modifies block
    ensures digest == Compressed(f, iv, done + Zeros(56 - used) + BigEndian(bits))
  {
    Append(f, iv, block, used, state, Zeros(56 - used), done);
    digest := Fill(f, iv, block, 56, state, BigEndian(bits), done + Zeros(56 - used));
    WholeBlocks(f, iv, digest, done + Zeros(56 - used) + BigEndian(bits));
  }

  lemma BitsAdd(m: nat, d: nat)
    ensures (8 * m % TWO_TO_64 + 8 * d) % TWO_TO_64 == 8 * (m + d) % TWO_TO_64
  {
  }

  // ---- The contexts --------------------------------------------------------------------

  /** RcSha and samosa_fs's Sha256: a wrapping count of bits. */
  class BitCounting {
    const f: Compress
    const iv: Words
    const block: array<byte>
    var used: nat
    var state: Words
    var bits: nat
    ghost var message: seq<byte>

    ghost predicate Valid()
      reads this, block
    {
      && block.Length == 64 && used < 64 && Absorbed(f, iv, block[..used], state, message)
      && bits == 8 * |message| % TWO_TO_64
    }

    constructor (f: Compress, iv: Words)
      ensures Valid() && fresh(block) && message == [] && this.f == f && this.iv == iv
    {
      this.f, this.iv, state := f, iv, iv;
      block := new byte[64](i => 0);
      used, bits, message := 0, 0, [];
    }

    method Update(data: seq<byte>)
      requires Valid()
      modifies this, block
      ensures Valid() && message == old(message) + data
    {
      BitsAdd(|message|, |data|);
      bits := (bits + 8 * |data|) % TWO_TO_64;
      used, state := Absorb(f, iv, block, used, state, data, message);
      message := message + data;
    }

    method Final() returns (digest: Words)
      requires Valid()
      modifies block
      ensures digest == Digest(f, iv, message)
    {
      digest := Finish(f, iv, block, used, state, bits, message);
    }
  }

  /** RefineSha256: a count of bytes that refuses to pass 2^64 - 1. */
  class ByteCounting {
    const f: Compress
    const iv: Words
    const block: array<byte>
    var used: nat
    var state: Words
    var total: nat
    ghost var message: seq<byte>

    ghost predicate Valid()
      reads this, block
    {
      && block.Length == 64 && used < 64 && Absorbed(f, iv, block[..used], state, message)
      && total == |message| < TWO_TO_64
    }

    constructor (f: Compress, iv: Words)
      ensures Valid() && fresh(block) && message == [] && this.f == f && this.iv == iv
    {
      this.f, this.iv, state := f, iv, iv;
      block := new byte[64](i => 0);
      used, total, message := 0, 0, [];
    }

    method Update(data: seq<byte>) returns (ok: bool)
      requires Valid()
      modifies this, block
      ensures Valid() && (ok <==> |old(message)| + |data| < TWO_TO_64)
      ensures message == if ok then old(message) + data else old(message)
    {
      if TWO_TO_64 - 1 - total < |data| { return false; }
      total := total + |data|;
      used, state := Absorb(f, iv, block, used, state, data, message);
      message := message + data;
      ok := true;
    }

    method Final() returns (digest: Words)
      requires Valid()
      modifies block
      ensures digest == Digest(f, iv, message)
    {
      digest := Finish(f, iv, block, used, state, total * 8 % TWO_TO_64, message);
    }
  }

  // ---- However the bytes arrive ------------------------------------------------------------

  function Flat(chunks: seq<seq<byte>>): seq<byte> {
    if chunks == [] then [] else Flat(chunks[..|chunks| - 1]) + chunks[|chunks| - 1]
  }

  /** Any split of the input, on any of the three: one function of the bytes. */
  method HashChunks(f: Compress, iv: Words, chunks: seq<seq<byte>>, others: seq<seq<byte>>)
    returns (a: Words, b: Words)
    requires Flat(chunks) == Flat(others) && |Flat(chunks)| < TWO_TO_64
    ensures a == b == Digest(f, iv, Flat(chunks))
  {
    a := HashByBits(f, iv, chunks);
    b := HashByBytes(f, iv, others);
  }

  method HashByBits(f: Compress, iv: Words, chunks: seq<seq<byte>>) returns (digest: Words)
    ensures digest == Digest(f, iv, Flat(chunks))
  {
    var x := new BitCounting(f, iv);
    for i := 0 to |chunks|
      invariant x.Valid() && fresh(x) && fresh(x.block) && x.f == f && x.iv == iv && x.message == Flat(chunks[..i])
    {
      FlatSnoc(chunks, i);
      x.Update(chunks[i]);
    }
    assert chunks[..|chunks|] == chunks;
    digest := x.Final();
  }

  method HashByBytes(f: Compress, iv: Words, chunks: seq<seq<byte>>) returns (digest: Words)
    requires |Flat(chunks)| < TWO_TO_64
    ensures digest == Digest(f, iv, Flat(chunks))
  {
    var x := new ByteCounting(f, iv);
    for i := 0 to |chunks|
      invariant x.Valid() && fresh(x) && fresh(x.block) && x.f == f && x.iv == iv && x.message == Flat(chunks[..i])
    {
      FlatGrows(chunks, i + 1);
      FlatSnoc(chunks, i);
      var ok := x.Update(chunks[i]);
    }
    assert chunks[..|chunks|] == chunks;
    digest := x.Final();
  }

  lemma {:induction false} FlatSnoc(chunks: seq<seq<byte>>, i: nat)
    requires i < |chunks|
    ensures Flat(chunks[..i + 1]) == Flat(chunks[..i]) + chunks[i]
  {
    assert chunks[..i + 1][..i] == chunks[..i];
  }

  lemma {:induction false} FlatGrows(chunks: seq<seq<byte>>, i: nat)
    requires i <= |chunks|
    ensures |Flat(chunks[..i])| <= |Flat(chunks)|
    decreases |chunks|
  {
    if i < |chunks| {
      var front := chunks[..|chunks| - 1];
      FlatGrows(front, i);
      assert front[..i] == chunks[..i];
    } else {
      assert chunks[..i] == chunks;
    }
  }
}
