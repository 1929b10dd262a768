/** One key or value cache of an attention layer: a flat buffer laid out
    [head][capacity][head_dim]. A stride is capacity * head_dim words, and what
    has been stepped so far is the first `used` words of every head. */
module KvPlane {

  type Word = int

  function Zeros(n: nat): (z: seq<Word>)
    ensures |z| == n
  {
    seq(n, (i: nat) => 0)
  }

  /** Where head `g` starts: `g * stride`, counted up so that proofs stay linear. */
  function Base(stride: nat, g: nat): nat {
    if g == 0 then 0 else Base(stride, g - 1) + stride
  }

  lemma {:induction false} BaseIsProduct(stride: nat, g: nat)
    ensures Base(stride, g) == g * stride
  {
    if g > 0 { BaseIsProduct(stride, g - 1); }
  }

  predicate Fits(plane: seq<Word>, heads: nat, stride: nat) { |plane| == Base(stride, heads) }

  lemma {:induction false} HeadsApart(stride: nat, g: nat, h: nat)
    requires g < h
    ensures Base(stride, g) + stride <= Base(stride, h)
  {
    if g < h - 1 { HeadsApart(stride, g, h - 1); }
  }

  /** The stepped words of one head. */
  function Head(plane: seq<Word>, stride: nat, used: nat, g: nat): (words: seq<Word>) {
    var b := Base(stride, g);
    if b + used <= |plane| then plane[b..b + used] else []
  }

  function View(plane: seq<Word>, heads: nat, stride: nat, used: nat): (parts: seq<seq<Word>>) {
    seq(heads, (g: nat) => Head(plane, stride, used, g))
  }

  /** memcpy of a run of words into a buffer. */
  function Copied(buffer: seq<Word>, at: nat, words: seq<Word>): (r: seq<Word>)
    requires at + |words| <= |buffer|
    ensures |r| == |buffer|
  {
    seq(|buffer|, (i: nat) requires i < |buffer| => if at <= i < at + |words| then words[i - at] else buffer[i])
  }

  /** Parts of one length, one for each head. */
  predicate Uniform(parts: seq<seq<Word>>, heads: nat, size: nat) {
    |parts| == heads && forall g :: 0 <= g < heads ==> |parts[g]| == size
  }

  /** Copies `parts[g]` to word `at` of head `g` for the first `k` heads. */
  function Placed(plane: seq<Word>, heads: nat, stride: nat, at: nat, parts: seq<seq<Word>>, size: nat, k: nat)
    : (r: seq<Word>)
    requires Fits(plane, heads, stride) && Uniform(parts, heads, size) && at + size <= stride && k <= heads
    ensures |r| == |plane|
    decreases k
  {
    if k == 0 then plane
    else
      HeadsApart(stride, k - 1, heads);
      Copied(Placed(plane, heads, stride, at, parts, size, k - 1), Base(stride, k - 1) + at, parts[k - 1])
  }

  /** Word `x` of head `g` after placing. */
  lemma {:induction false} PlacedWord(plane: seq<Word>, heads: nat, stride: nat, at: nat, parts: seq<seq<Word>>,
                                      size: nat, k: nat, g: nat, x: nat)
    requires Fits(plane, heads, stride) && Uniform(parts, heads, size) && at + size <= stride && k <= heads
    requires g < heads && x < stride
    ensures Base(stride, g) + stride <= |plane|
    ensures Placed(plane, heads, stride, at, parts, size, k)[Base(stride, g) + x]
            == if g < k && at <= x < at + size then parts[g][x - at] else plane[Base(stride, g) + x]
    decreases k
  {
    HeadsApart(stride, g, heads);
    if k > 0 {
      PlacedWord(plane, heads, stride, at, parts, size, k - 1, g, x);
      HeadsApart(stride, k - 1, heads);
      if g < k - 1 { HeadsApart(stride, g, k - 1); }
      if k - 1 < g { HeadsApart(stride, k - 1, g); }
      PlacedStep(plane, heads, stride, at, parts, size, k, Base(stride, g) + x);
    }
  }

  /** One more copy, seen at one word. */
  lemma {:induction false} PlacedStep(plane: seq<Word>, heads: nat, stride: nat, at: nat, parts: seq<seq<Word>>,
                                      size: nat, k: nat, j: nat)
    requires Fits(plane, heads, stride) && Uniform(parts, heads, size) && at + size <= stride && 0 < k <= heads
    requires j < |plane|
    ensures var from := Base(stride, k - 1) + at;
            Placed(plane, heads, stride, at, parts, size, k)[j]
            == if from <= j < from + size then parts[k - 1][j - from]
               else Placed(plane, heads, stride, at, parts, size, k - 1)[j]
  {
    HeadsApart(stride, k - 1, heads);
  }

  /** Appends one part to every head. */
  function Appended(heads: seq<seq<Word>>, parts: seq<seq<Word>>): (r: seq<seq<Word>>)
    requires |heads| == |parts|
  {
    seq(|heads|, (g: nat) requires g < |heads| => heads[g] + parts[g])
  }

  /** All words of head `g` as far as the part reaches. */
  lemma {:induction false} PlacedWords(plane: seq<Word>, heads: nat, stride: nat, at: nat, parts: seq<seq<Word>>,
                                       size: nat, g: nat, r: seq<Word>)
    requires Fits(plane, heads, stride) && Uniform(parts, heads, size) && at + size <= stride && g < heads
    requires r == Placed(plane, heads, stride, at, parts, size, heads)
    ensures Base(stride, g) + stride <= |plane|
    ensures var b := Base(stride, g);
            forall j :: b <= j < b + at + size ==> r[j] == if j < b + at then plane[j] else parts[g][j - b - at]
  {
    HeadsApart(stride, g, heads);
    var b := Base(stride, g);
    forall j | b <= j < b + at + size
      ensures r[j] == if j < b + at then plane[j] else parts[g][j - b - at]
    {
      PlacedWord(plane, heads, stride, at, parts, size, heads, g, j - b);
    }
  }

  lemma {:induction false} PlacedHead(plane: seq<Word>, heads: nat, stride: nat, at: nat, parts: seq<seq<Word>>,
                                      size: nat, g: nat)
    requires Fits(plane, heads, stride) && Uniform(parts, heads, size) && at + size <= stride && g < heads
    ensures Head(Placed(plane, heads, stride, at, parts, size, heads), stride, at + size, g)
            == Head(plane, stride, at, g) + parts[g]
  {
    var r := Placed(plane, heads, stride, at, parts, size, heads);
    PlacedWords(plane, heads, stride, at, parts, size, g, r);
    Spliced(r, plane, Base(stride, g), at, parts[g]);
  }

  lemma Spliced(r: seq<Word>, plane: seq<Word>, b: nat, at: nat, part: seq<Word>)
    requires b + at + |part| <= |plane| == |r|
    requires forall j :: b <= j < b + at + |part| ==> r[j] == if j < b + at then plane[j] else part[j - b - at]
    ensures r[b..b + at + |part|] == plane[b..b + at] + part
  {
  }

  /** Placing a part after the stepped words of every head appends it to every head. */
  lemma {:induction false} PlacedView(plane: seq<Word>, heads: nat, stride: nat, at: nat, parts: seq<seq<Word>>,
                                      size: nat)
    requires Fits(plane, heads, stride) && Uniform(parts, heads, size) && at + size <= stride
    ensures View(Placed(plane, heads, stride, at, parts, size, heads), heads, stride, at + size)
            == Appended(View(plane, heads, stride, at), parts)
  {
    var r := Placed(plane, heads, stride, at, parts, size, heads);
    forall g | 0 <= g < heads
      ensures Head(r, stride, at + size, g) == Head(plane, stride, at, g) + parts[g]
    {
      PlacedHead(plane, heads, stride, at, parts, size, g);
    }
  }

  /** Placing at the front of every head leaves exactly the parts there. */
  lemma {:induction false} LoadedView(plane: seq<Word>, heads: nat, stride: nat, parts: seq<seq<Word>>, size: nat)
    requires Fits(plane, heads, stride) && Uniform(parts, heads, size) && size <= stride
    ensures View(Placed(plane, heads, stride, 0, parts, size, heads), heads, stride, size) == parts
  {
    PlacedView(plane, heads, stride, 0, parts, size);
    var none := View(plane, heads, stride, 0);
    forall g | 0 <= g < heads
      ensures Appended(none, parts)[g] == parts[g]
    {
      HeadsApart(stride, g, heads);
      assert none[g] == [];
    }
  }

  lemma {:induction false} ViewUniform(plane: seq<Word>, heads: nat, stride: nat, used: nat)
    requires Fits(plane, heads, stride) && used <= stride
    ensures Uniform(View(plane, heads, stride, used), heads, used)
  {
    forall g | 0 <= g < heads
      ensures |View(plane, heads, stride, used)[g]| == used
    {
      HeadsApart(stride, g, heads);
    }
  }

  /** The per-head read loop of resuming: the parts land at the front of every
      head of a zeroed buffer. */
  method Load(heads: nat, stride: nat, parts: seq<seq<Word>>, size: nat) returns (plane: seq<Word>)
    requires Uniform(parts, heads, size) && size <= stride
    ensures Fits(plane, heads, stride)
    ensures View(plane, heads, stride, size) == parts
  {
    plane := Zeros(Base(stride, heads));
    ghost var zeros := plane;
    for g := 0 to heads
      invariant plane == Placed(zeros, heads, stride, 0, parts, size, g)
    {
      HeadsApart(stride, g, heads);
      plane := Copied(plane, Base(stride, g), parts[g]);
    }
    LoadedView(zeros, heads, stride, parts, size);
  }

  /** The per-head memcpy loop of growing to a new stride: only stepped words move. */
  method Regrow(from: seq<Word>, heads: nat, oldStride: nat, stride: nat, used: nat) returns (plane: seq<Word>)
    requires Fits(from, heads, oldStride) && used <= oldStride && used <= stride
    ensures Fits(plane, heads, stride)
    ensures View(plane, heads, stride, used) == View(from, heads, oldStride, used)
  {
    plane := Zeros(Base(stride, heads));
    ghost var zeros, parts := plane, View(from, heads, oldStride, used);
    ViewUniform(from, heads, oldStride, used);
    for g := 0 to heads
      invariant plane == Placed(zeros, heads, stride, 0, parts, used, g)
    {
      HeadsApart(stride, g, heads);
      HeadsApart(oldStride, g, heads);
      assert parts[g] == Head(from, oldStride, used, g);
      plane := Copied(plane, Base(stride, g), from[Base(oldStride, g)..Base(oldStride, g) + used]);
    }
    LoadedView(zeros, heads, stride, parts, used);
  }
}
