/** The running model of src/qwen36b.c: cached layers stepped in place, and the
    session operations around them. Every operation is proved against the
    cache-free meaning in SessionSpec. */
module SessionModel {
  import opened Basics
  import opened KvPlane
  import opened SessionSpec
  import opened SessionFile

  // ---- Cached layers --------------------------------------------------------------

  datatype Layer =
    | Attention(k: seq<Word>, v: seq<Word>)
    | Delta(conv: seq<Word>, state: seq<Word>)

  predicate LayerFits(geo: Geometry, attention: bool, cap: nat, layer: Layer) {
    if attention then
      layer.Attention? && Fits(layer.k, geo.heads, Base(geo.dim, cap)) && Fits(layer.v, geo.heads, Base(geo.dim, cap))
    else
      layer.Delta? && |layer.conv| == geo.convWords && |layer.state| == geo.recurrentWords
  }

  predicate AllFit(geo: Geometry, cap: nat, layers: seq<Layer>) {
    && |layers| == |geo.attention|
    && forall i :: 0 <= i < |layers| ==> LayerFits(geo, geo.attention[i], cap, layers[i])
  }

  /** What a layer remembers of the first `n` positions. */
  function LayerView(geo: Geometry, cap: nat, n: nat, layer: Layer): Memory {
    match layer
    case Attention(k, v) =>
      Rows(View(k, geo.heads, Base(geo.dim, cap), Base(geo.dim, n)),
        View(v, geo.heads, Base(geo.dim, cap), Base(geo.dim, n)))
    case Delta(conv, state) => Recurrent(conv, state)
  }

  function Views(geo: Geometry, cap: nat, n: nat, layers: seq<Layer>): Mind {
    seq(|layers|, (i: nat) requires i < |layers| => LayerView(geo, cap, n, layers[i]))
  }

  lemma {:induction false} BaseGrows(dim: nat, m: nat, n: nat)
    requires m <= n
    ensures Base(dim, m) <= Base(dim, n)
  {
    if m < n { HeadsApart(dim, m, n); }
  }

  // ---- One token -------------------------------------------------------------------

  /** Writes the row of position `pos`, or the new recurrent state. */
  function LayerStepped(geo: Geometry, attention: bool, cap: nat, pos: nat, layer: Layer, u: Memory): Layer
    requires LayerFits(geo, attention, cap, layer) && MemoryShaped(geo, attention, 1, u) && pos < cap
  {
    if attention then
      HeadsApart(geo.dim, pos, cap);
      assert Base(geo.dim, 1) == Base(geo.dim, 0) + geo.dim;
      var stride, at := Base(geo.dim, cap), Base(geo.dim, pos);
      Attention(Placed(layer.k, geo.heads, stride, at, u.k, Base(geo.dim, 1), geo.heads),
                Placed(layer.v, geo.heads, stride, at, u.v, Base(geo.dim, 1), geo.heads))
    else
      Delta(u.conv, u.state)
  }

  lemma {:induction false} LayerStepView(geo: Geometry, attention: bool, cap: nat, pos: nat, layer: Layer, u: Memory)
    requires LayerFits(geo, attention, cap, layer) && MemoryShaped(geo, attention, 1, u) && pos < cap
    ensures LayerFits(geo, attention, cap, LayerStepped(geo, attention, cap, pos, layer, u))
    ensures LayerView(geo, cap, pos + 1, LayerStepped(geo, attention, cap, pos, layer, u))
            == Extend(LayerView(geo, cap, pos, layer), u)
  {
    if attention {
      HeadsApart(geo.dim, pos, cap);
      var stride, at := Base(geo.dim, cap), Base(geo.dim, pos);
      assert Base(geo.dim, pos + 1) == at + Base(geo.dim, 1);
      PlacedView(layer.k, geo.heads, stride, at, u.k, Base(geo.dim, 1));
      PlacedView(layer.v, geo.heads, stride, at, u.v, Base(geo.dim, 1));
    }
  }

  function Stepped(geo: Geometry, cap: nat, pos: nat, layers: seq<Layer>, u: Mind): seq<Layer>
    requires AllFit(geo, cap, layers) && Shaped(geo, 1, u) && pos < cap
  {
    seq(|layers|, (i: nat) requires i < |layers| => LayerStepped(geo, geo.attention[i], cap, pos, layers[i], u[i]))
  }

  /** Stepping the cached layers extends what they remember. */
  lemma {:induction false} SteppedView(geo: Geometry, cap: nat, pos: nat, layers: seq<Layer>, u: Mind)
    requires AllFit(geo, cap, layers) && Shaped(geo, 1, u) && pos < cap
    ensures AllFit(geo, cap, Stepped(geo, cap, pos, layers, u))
    ensures Views(geo, cap, pos + 1, Stepped(geo, cap, pos, layers, u)) == Extended(Views(geo, cap, pos, layers), u)
  {
    var after := Stepped(geo, cap, pos, layers, u);
    forall i | 0 <= i < |layers|
      ensures LayerFits(geo, geo.attention[i], cap, after[i])
      ensures LayerView(geo, cap, pos + 1, after[i]) == Extend(LayerView(geo, cap, pos, layers[i]), u[i])
    {
      LayerStepView(geo, geo.attention[i], cap, pos, layers[i], u[i]);
    }
  }

  /** Fresh layers remember nothing. */
  function Blank(geo: Geometry, cap: nat): (layers: seq<Layer>)
    ensures |layers| == |geo.attention|
  {
    seq(|geo.attention|, (i: nat) requires i < |geo.attention| =>
      if geo.attention[i]
      then Attention(Zeros(Base(Base(geo.dim, cap), geo.heads)), Zeros(Base(Base(geo.dim, cap), geo.heads)))
      else Delta(Zeros(geo.convWords), Zeros(geo.recurrentWords)))
  }

  lemma {:induction false} BlankView(geo: Geometry, cap: nat)
    ensures AllFit(geo, cap, Blank(geo, cap)) && Views(geo, cap, 0, Blank(geo, cap)) == Empty(geo)
  {
    var layers := Blank(geo, cap);
    forall i | 0 <= i < |layers|
      ensures LayerView(geo, cap, 0, layers[i]) == EmptyMemory(geo, geo.attention[i])
    {
    }
  }

  lemma Tail(s: seq<Token>, transcript: seq<Token>, answer: seq<Token>)
    requires s == transcript + answer
    ensures s[|transcript|..] == answer
  {
  }

  lemma {:induction false} Snoc(s: seq<Token>, transcript: seq<Token>, answer: seq<Token>, t: Token)
    requires |s| == |transcript| + |answer| + 1
    requires s[..|s| - 1] == transcript + answer && s[|s| - 1] == t
    ensures s == transcript + (answer + [t]) && s == transcript + answer + [t]
    ensures s[|transcript|..] == answer + [t]
  {
    assert s == s[..|s| - 1] + [t];
  }

  lemma AnswerStep(net: Net, policy: Policy, transcript: seq<Token>, soFar: seq<Token>, budget: nat)
    requires budget > 0
    ensures var longer := soFar + [policy.choose(LogitsOf(net, transcript + soFar), soFar)];
            Answer(net, policy, transcript, soFar, budget)
            == if policy.ends(longer) || budget == 1 then longer
              else Answer(net, policy, transcript, longer, budget - 1)
  {
  }

  /** A transcript buffer of the given size that starts with some tokens. */
  method Buffer(tokens: seq<Token>, size: nat) returns (buffer: array<Token>)
    requires |tokens| <= size
    ensures fresh(buffer) && buffer.Length == size && buffer[..|tokens|] == tokens
  {
    buffer := new Token[size];
    for i := 0 to |tokens|
      invariant buffer[..i] == tokens[..i]
    {
      buffer[i] := tokens[i];
      assert buffer[..i + 1] == buffer[..i] + [tokens[i]];
    }
    assert tokens[..|tokens|] == tokens;
  }

  // ---- Growing, saving and loading a layer ----------------------------------------------

  ghost predicate LayerGrown(geo: Geometry, attention: bool, cap: nat, capacity: nat, used: nat, layer: Layer,
                             r: Layer) {
    && LayerFits(geo, attention, capacity, r)
    && forall n: nat :: n <= used ==> LayerView(geo, capacity, n, r) == LayerView(geo, cap, n, layer)
  }

  /** What is seen of the first words of a head is seen of fewer of them. */
  lemma {:induction false} ViewNarrows(p: seq<Word>, q: seq<Word>, heads: nat, pStride: nat, qStride: nat, used: nat,
                                       n: nat)
    requires Fits(p, heads, pStride) && Fits(q, heads, qStride) && n <= used <= pStride && used <= qStride
    requires View(p, heads, pStride, used) == View(q, heads, qStride, used)
    ensures View(p, heads, pStride, n) == View(q, heads, qStride, n)
  {
    forall g | 0 <= g < heads
      ensures Head(p, pStride, n, g) == Head(q, qStride, n, g)
    {
      HeadsApart(pStride, g, heads);
      HeadsApart(qStride, g, heads);
      assert View(p, heads, pStride, used)[g] == View(q, heads, qStride, used)[g];
      HeadNarrows(p, pStride, used, n, g);
      HeadNarrows(q, qStride, used, n, g);
    }
  }

  lemma HeadNarrows(p: seq<Word>, stride: nat, used: nat, n: nat, g: nat)
    requires n <= used && Base(stride, g) + used <= |p|
    ensures Head(p, stride, n, g) == Head(p, stride, used, g)[..n]
  {
  }

  method GrowLayer(geo: Geometry, attention: bool, cap: nat, capacity: nat, used: nat, layer: Layer) returns (r: Layer)
    requires LayerFits(geo, attention, cap, layer) && used <= cap < capacity
    ensures LayerGrown(geo, attention, cap, capacity, used, layer, r)
  {
    if !attention { return layer; }
    BaseGrows(geo.dim, used, cap);
    BaseGrows(geo.dim, used, capacity);
    var narrow, wide, n := Base(geo.dim, cap), Base(geo.dim, capacity), Base(geo.dim, used);
    var k := Regrow(layer.k, geo.heads, narrow, wide, n);
    var v := Regrow(layer.v, geo.heads, narrow, wide, n);
    r := Attention(k, v);
    forall m: nat | m <= used
      ensures LayerView(geo, capacity, m, r) == LayerView(geo, cap, m, layer)
    {
      BaseGrows(geo.dim, m, used);
      ViewNarrows(k, layer.k, geo.heads, wide, narrow, n, Base(geo.dim, m));
      ViewNarrows(v, layer.v, geo.heads, wide, narrow, n, Base(geo.dim, m));
    }
  }

  lemma GrownViews(geo: Geometry, cap: nat, capacity: nat, used: nat, layers: seq<Layer>, grown: seq<Layer>)
    requires |layers| == |grown| == |geo.attention|
    requires forall j :: 0 <= j < |layers| ==> LayerGrown(geo, geo.attention[j], cap, capacity, used, layers[j],
      grown[j])
    ensures AllFit(geo, capacity, grown)
    ensures forall n: nat :: n <= used ==> Views(geo, capacity, n, grown) == Views(geo, cap, n, layers)
  {
  }

  /** The words of one cache as they are written: head by head, stepped rows only. */
  method PlaneWords(plane: seq<Word>, heads: nat, stride: nat, used: nat) returns (words: seq<Word>)
    requires Fits(plane, heads, stride) && used <= stride
    ensures words == Joined(View(plane, heads, stride, used))
  {
    words := [];
    ghost var parts := View(plane, heads, stride, used);
    for g := 0 to heads
      invariant words == Joined(parts[..g])
    {
      HeadsApart(stride, g, heads);
      words := words + plane[Base(stride, g)..Base(stride, g) + used];
      assert parts[..g + 1][..g] == parts[..g];
    }
    assert parts[..heads] == parts;
  }

  method LayerWords(geo: Geometry, attention: bool, cap: nat, rows: nat, layer: Layer) returns (words: seq<Word>)
    requires LayerFits(geo, attention, cap, layer) && rows <= cap
    ensures words == MemoryWords(LayerView(geo, cap, rows, layer))
  {
    if attention {
      BaseGrows(geo.dim, rows, cap);
      var k := PlaneWords(layer.k, geo.heads, Base(geo.dim, cap), Base(geo.dim, rows));
      var v := PlaneWords(layer.v, geo.heads, Base(geo.dim, cap), Base(geo.dim, rows));
      words := k + v;
    } else {
      words := layer.conv + layer.state;
    }
  }

  lemma {:induction false} MindWordsSnoc(mind: Mind, i: nat)
    requires i < |mind|
    ensures MindWords(mind[..i + 1]) == MindWords(mind[..i]) + MemoryWords(mind[i])
  {
    assert mind[..i + 1][..i] == mind[..i];
  }

  method LoadLayer(geo: Geometry, attention: bool, cap: nat, rows: nat, m: Memory) returns (layer: Layer)
    requires MemoryShaped(geo, attention, rows, m) && rows <= cap
    ensures LayerFits(geo, attention, cap, layer) && LayerView(geo, cap, rows, layer) == m
  {
    if attention {
      BaseGrows(geo.dim, rows, cap);
      var k := Load(geo.heads, Base(geo.dim, cap), m.k, Base(geo.dim, rows));
      var v := Load(geo.heads, Base(geo.dim, cap), m.v, Base(geo.dim, rows));
      layer := Attention(k, v);
    } else {
      layer := Delta(m.conv, m.state);
    }
  }

  /** The words of the layers from `i` on, in front of what follows them. */
  ghost function WordsFrom(mind: Mind, i: nat, tail: seq<Word>): seq<Word>
    requires i <= |mind|
    decreases |mind| - i
  {
    if i == |mind| then tail else MemoryWords(mind[i]) + WordsFrom(mind, i + 1, tail)
  }

  lemma {:induction false} WordsFromFront(mind: Mind, i: nat, tail: seq<Word>)
    requires i <= |mind|
    ensures MindWords(mind) + tail == MindWords(mind[..i]) + WordsFrom(mind, i, tail)
    decreases |mind| - i
  {
    if i == |mind| {
      assert mind[..i] == mind;
    } else {
      WordsFromFront(mind, i + 1, tail);
      MindWordsSnoc(mind, i);
      Assoc(MindWords(mind[..i]), MemoryWords(mind[i]), WordsFrom(mind, i + 1, tail));
    }
  }

  /** Reads one layer into fresh buffers. */
  method LoadNext(geo: Geometry, attention: bool, cap: nat, rows: nat, words: seq<Word>, ghost m: Memory,
                  ghost after: seq<Word>)
    returns (layer: Layer, rest: seq<Word>)
    requires words == MemoryWords(m) + after && MemoryShaped(geo, attention, rows, m) && rows <= cap
    ensures LayerFits(geo, attention, cap, layer) && LayerView(geo, cap, rows, layer) == m && rest == after
  {
    MemoryComplete(geo, attention, rows, m, after);
    var read := ReadMemory(geo, attention, rows, words);
    layer := LoadLayer(geo, attention, cap, rows, read.value);
    rest := read.rest;
  }

  ghost predicate LoadedAt(geo: Geometry, cap: nat, rows: nat, layers: seq<Layer>, mind: Mind, j: nat) {
    && j < |layers| && j < |mind| && j < |geo.attention|
    && LayerFits(geo, geo.attention[j], cap, layers[j]) && LayerView(geo, cap, rows, layers[j]) == mind[j]
  }

  lemma {:induction false} LoadedSnoc(geo: Geometry, cap: nat, rows: nat, layers: seq<Layer>, layer: Layer, mind: Mind)
    requires |layers| < |mind| && |layers| < |geo.attention|
    requires forall j :: 0 <= j < |layers| ==> LoadedAt(geo, cap, rows, layers, mind, j)
    requires LayerFits(geo, geo.attention[|layers|], cap, layer) && LayerView(geo, cap, rows, layer) == mind[|layers|]
    ensures forall j :: 0 <= j < |layers| + 1 ==> LoadedAt(geo, cap, rows, layers + [layer], mind, j)
  {
    forall j | 0 <= j < |layers| + 1
      ensures LoadedAt(geo, cap, rows, layers + [layer], mind, j)
    {
      if j < |layers| { assert LoadedAt(geo, cap, rows, layers, mind, j); }
    }
  }

  lemma {:induction false} LoadedViews(geo: Geometry, cap: nat, rows: nat, layers: seq<Layer>, mind: Mind)
    requires |layers| == |mind| == |geo.attention|
    requires forall j :: 0 <= j < |layers| ==> LoadedAt(geo, cap, rows, layers, mind, j)
    ensures AllFit(geo, cap, layers) && Views(geo, cap, rows, layers) == mind
  {
    forall j | 0 <= j < |layers|
      ensures LayerFits(geo, geo.attention[j], cap, layers[j]) && Views(geo, cap, rows, layers)[j] == mind[j]
    {
      assert LoadedAt(geo, cap, rows, layers, mind, j);
    }
  }

  /** The read loop over the layers. */
  method LoadLayers(geo: Geometry, cap: nat, rows: nat, words: seq<Word>, ghost mind: Mind, ghost tail: seq<Word>)
    returns (loaded: seq<Layer>)
    requires Shaped(geo, rows, mind) && words == MindWords(mind) + tail && rows <= cap
    ensures AllFit(geo, cap, loaded) && Views(geo, cap, rows, loaded) == mind
  {
    loaded := [];
    var rest := words;
    WordsFromFront(mind, 0, tail);
    assert mind[..0] == [] && [] + WordsFrom(mind, 0, tail) == WordsFrom(mind, 0, tail);
    for i := 0 to |geo.attention|
      invariant |loaded| == i && rest == WordsFrom(mind, i, tail)
      invariant forall j :: 0 <= j < i ==> LoadedAt(geo, cap, rows, loaded, mind, j)
    {
      var layer;
      layer, rest := LoadNext(geo, geo.attention[i], cap, rows, rest, mind[i], WordsFrom(mind, i + 1, tail));
      LoadedSnoc(geo, cap, rows, loaded, layer, mind);
      loaded := loaded + [layer];
    }
    LoadedViews(geo, cap, rows, loaded, mind);
  }

  /** Every check of resuming: the transcript of a file that starts with a sealed
      session that fits, and where its layers begin. */
  method OpenFile(geo: Geometry, hash: Hash, limit: nat, reserve: nat, file: seq<Word>)
    returns (tokens: Read<Word, seq<Token>>, ghost mind: Mind, ghost tail: seq<Word>)
    requires HashShaped(hash)
    ensures tokens.Bad? ==> forall t: seq<Token>, m: Mind ::
              Acceptable(geo, limit, reserve, t, m) ==> !(Sealed(geo, hash, t, m) <= file)
    ensures tokens.Got? ==>
              && Acceptable(geo, limit, reserve, tokens.value, mind) && Sealed(geo, hash, tokens.value, mind) <= file
              && tokens.rest == MindWords(mind) + tail
  {
    mind, tail := [], [];
    if ReadFile(geo, hash, limit, reserve, file).Bad? {
      RefusedRight(geo, hash, limit, reserve, file);
      return Bad, [], [];
    }
    ReadFileSound(geo, hash, limit, reserve, file);
    tokens := ReadTokens(geo, limit, reserve, file);
    RestSound(geo, hash, tokens.value, tokens.rest);
    ghost var r := ReadRest(geo, hash, tokens.value, tokens.rest);
    mind, tail := r.value.1, hash(Body(geo, tokens.value, r.value.1)) + r.rest;
  }

  /** A whole file, loaded with room for `reserve` more positions. */
  method LoadFile(geo: Geometry, hash: Hash, limit: nat, reserve: nat, file: seq<Word>)
    returns (transcript: Option<seq<Token>>, cap: nat, loaded: seq<Layer>)
    requires HashShaped(hash)
    ensures transcript.None? ==> forall t: seq<Token>, m: Mind ::
              Acceptable(geo, limit, reserve, t, m) ==> !(Sealed(geo, hash, t, m) <= file)
    ensures transcript.Some? ==>
              var t := transcript.value;
              && |t| >= 2 && cap == |t| + reserve && AllFit(geo, cap, loaded)
              && Acceptable(geo, limit, reserve, t, Views(geo, cap, |t| - 1, loaded))
              && Sealed(geo, hash, t, Views(geo, cap, |t| - 1, loaded)) <= file
  {
    cap, loaded := 0, [];
    var tokens, mind, tail := OpenFile(geo, hash, limit, reserve, file);
    if tokens.Bad? { return None, 0, []; }
    cap := |tokens.value| + reserve;
    loaded := LoadLayers(geo, cap, |tokens.value| - 1, tokens.rest, mind, tail);
    transcript := Some(tokens.value);
  }

  /** Two sealed sessions that start the same file are the same session. */
  lemma {:induction false} SealedOnce(geo: Geometry, hash: Hash, limit: nat, reserve: nat, t: seq<Token>, m: Mind,
                                      t': seq<Token>, m': Mind)
    requires HashShaped(hash) && Acceptable(geo, limit, reserve, t, m) && Acceptable(geo, limit, reserve, t', m')
    requires Sealed(geo, hash, t', m') <= Sealed(geo, hash, t, m)
    ensures t == t' && m == m'
  {
    var file, file' := Sealed(geo, hash, t, m), Sealed(geo, hash, t', m');
    ReadFileComplete(geo, hash, limit, reserve, t, m, []);
    ReadFileComplete(geo, hash, limit, reserve, t', m', file[|file'|..]);
    assert file + [] == file && file == file' + file[|file'|..];
  }

  // ---- The object --------------------------------------------------------------------

  datatype Resumed = Resumed(buffer: array<Token>, len: nat) | Refused

  class Model {
    const net: Net
    const limit: nat
    const hash: Hash
    var cap: nat
    var layers: seq<Layer>

    constructor (net: Net, limit: nat, hash: Hash)
      ensures this.net == net && this.limit == limit && this.hash == hash
      ensures Holds([])
    {
      this.net, this.limit, this.hash := net, limit, hash;
      cap, layers := 0, Blank(net.geo, 0);
      BlankView(net.geo, 0);
    }

    function Remembers(n: nat): Mind
      reads this
    {
      Views(net.geo, cap, n, layers)
    }

    /** The cached state is that of exactly these tokens. */
    ghost predicate Holds(tokens: seq<Token>)
      reads this
    {
      AllFit(net.geo, cap, layers) && |tokens| <= cap && Remembers(|tokens|) == MindOf(net, tokens)
    }

    /** Allocates the state of a new sequence. */
    method Begin(capacity: nat)
      modifies this
      ensures cap == capacity && Holds([])
    {
      cap, layers := capacity, Blank(net.geo, capacity);
      BlankView(net.geo, capacity);
    }

    /** The forward pass over a chunk at absolute positions from `pos`. */
    method Step(ids: seq<Token>, pos: nat, ghost done: seq<Token>) returns (logits: Logits)
      requires WellShaped(net) && Holds(done) && pos == |done| && pos + |ids| <= cap
      modifies this
      ensures cap == old(cap) && Holds(done + ids)
      ensures ids != [] ==> logits == LogitsOf(net, done + ids)
    {
      logits := [];
      assert done + ids[..0] == done;
      for s := 0 to |ids|
        invariant cap == old(cap) && Holds(done + ids[..s])
        invariant s > 0 ==> logits == LogitsOf(net, done + ids[..s])
      {
        logits := StepOne(ids[s], pos + s, done + ids[..s]);
        assert done + ids[..s] + [ids[s]] == done + ids[..s + 1];
      }
      assert ids[..|ids|] == ids;
    }

    method StepOne(t: Token, pos: nat, ghost done: seq<Token>) returns (logits: Logits)
      requires WellShaped(net) && Holds(done) && pos == |done| < cap
      modifies this
      ensures cap == old(cap) && Holds(done + [t]) && logits == LogitsOf(net, done + [t])
    {
      var mind := Remembers(pos);
      var u := net.update(mind, t);
      logits := net.logits(mind, t);
      SteppedView(net.geo, cap, pos, layers, u);
      layers := Stepped(net.geo, cap, pos, layers, u);
      MindOfSnoc(net, done, t);
      assert (done + [t])[..|done|] == done;
    }

    /** prefill_with_cancel, not cancelled: chunks of 32 when the server may cancel,
        one chunk otherwise. */
    method Prefill(ids: seq<Token>, pos: nat, chunked: bool, ghost done: seq<Token>) returns (logits: Logits)
      requires WellShaped(net) && Holds(done) && pos == |done| && pos + |ids| <= cap
      modifies this
      ensures cap == old(cap) && Holds(done + ids)
      ensures ids != [] ==> logits == LogitsOf(net, done + ids)
    {
      logits := [];
      var chunk := if chunked then 32 else |ids|;
      var start := 0;
      assert done + ids[..0] == done;
      while start < |ids|
        invariant 0 <= start <= |ids| && cap == old(cap) && Holds(done + ids[..start])
        invariant start > 0 ==> logits == LogitsOf(net, done + ids[..start])
      {
        var n := if |ids| - start > chunk then chunk else |ids| - start;
        logits := Step(ids[start..start + n], pos + start, done + ids[..start]);
        assert done + ids[..start] + ids[start..start + n] == done + ids[..start + n];
        start := start + n;
      }
      assert ids[..|ids|] == ids;
    }

    /** The decode loop both generate functions share: the last token chosen is
        stored and not stepped. */
    method Decode(buffer: array<Token>, base: nat, budget: nat, first: Logits, policy: Policy) returns (len: nat)
      requires WellShaped(net) && budget > 0 && base + budget <= buffer.Length && base + budget <= cap
      requires Holds(buffer[..base]) && first == LogitsOf(net, buffer[..base])
      modifies this, buffer
      ensures cap == old(cap) && base < len <= base + budget
      ensures buffer[..len] == old(buffer[..base]) + Answer(net, policy, old(buffer[..base]), [], budget)
      ensures Holds(buffer[..len - 1])
    {
      ghost var transcript, answer := buffer[..base], [];
      ghost var goal := Answer(net, policy, transcript, [], budget);
      var logits, s := first, 0;
      len := base;
      assert transcript + [] == transcript;
      while true
        invariant 0 <= s < budget && len == base + s && |answer| == s && cap == old(cap)
        invariant buffer[..len] == transcript + answer
        invariant Holds(transcript + answer) && logits == LogitsOf(net, transcript + answer)
        invariant Answer(net, policy, transcript, answer, budget - s) == goal
        decreases budget - s
      {
        Tail(buffer[..len], transcript, answer);
        assert buffer[base..len] == buffer[..len][base..];
        var best := policy.choose(logits, buffer[base..len]);
        AnswerStep(net, policy, transcript, answer, budget - s);
        ghost var longer := answer + [best];
        buffer[len] := best;
        Snoc(buffer[..len + 1], transcript, answer, best);
        len := len + 1;
        assert buffer[..len - 1] == buffer[..len][..len - 1];
        assert buffer[base..len] == buffer[..len][base..];
        if policy.ends(buffer[base..len]) { return; }
        if s == budget - 1 { return; }
        logits := StepOne(best, len - 1, transcript + answer);
        answer := longer;
        s := s + 1;
      }
    }

    /** generate: a new conversation. */
    method Generate(prompt: seq<Token>, budget: nat, policy: Policy, chunked: bool)
      returns (out: array<Token>, len: nat)
      requires WellShaped(net) && budget > 0 && prompt != []
      modifies this
      ensures fresh(out) && cap == |prompt| + budget == out.Length && 2 <= len <= out.Length
      ensures out[..len] == prompt + Answer(net, policy, prompt, [], budget)
      ensures Holds(out[..len - 1])
    {
      Begin(|prompt| + budget);
      out := Buffer(prompt, |prompt| + budget);
      assert [] + prompt == prompt;
      var logits := Prefill(prompt, 0, chunked, []);
      len := Decode(out, |prompt|, budget, logits, policy);
    }

    /** generate_continue: the stored transcript's last token is stepped first. */
    method GenerateContinue(hist: array<Token>, histLen: nat, extra: seq<Token>, budget: nat, policy: Policy,
                            chunked: bool)
      returns (len: nat)
      requires WellShaped(net) && budget > 0 && 1 <= histLen
      requires histLen + |extra| + budget <= hist.Length && histLen + |extra| + budget <= cap
      requires Holds(hist[..histLen - 1])
      modifies this, hist
      ensures cap == old(cap) && histLen + |extra| < len <= hist.Length
      ensures hist[..len] == old(hist[..histLen]) + extra + Answer(net, policy, old(hist[..histLen]) + extra, [],
        budget)
      ensures Holds(hist[..len - 1])
    {
      ghost var before := hist[..histLen];
      assert before[..histLen - 1] == hist[..histLen - 1];
      var cont := [hist[histLen - 1]] + extra;
      for i := 0 to |extra|
        invariant hist[..histLen + i] == before + extra[..i]
        invariant cap == old(cap) && layers == old(layers)
      {
        hist[histLen + i] := extra[i];
        assert hist[..histLen + i + 1] == hist[..histLen + i] + [extra[i]];
      }
      assert extra[..|extra|] == extra;
      assert before[..histLen - 1] + cont == before + extra;
      var logits := Prefill(cont, histLen - 1, chunked, before[..histLen - 1]);
      len := Decode(hist, histLen + |extra|, budget, logits, policy);
    }

    /** teacher_state_grow: a larger capacity changes every head's stride, and only
        the stepped rows are copied. */
    method Grow(capacity: nat, used: nat) returns (ok: bool)
      requires AllFit(net.geo, cap, layers)
      modifies this
      ensures ok <==> capacity <= old(cap) || used <= old(cap)
      ensures AllFit(net.geo, cap, layers)
      ensures cap == if ok && capacity > old(cap) then capacity else old(cap)
      ensures ok ==> forall n: nat :: n <= used && n <= old(cap) ==> Remembers(n) == old(Remembers(n))
      ensures !ok ==> layers == old(layers)
    {
      if capacity <= cap { return true; }
      if used > cap { return false; }
      var grown: seq<Layer> := [];
      for i := 0 to |layers|
        invariant |grown| == i && layers == old(layers) && cap == old(cap)
        invariant forall j :: 0 <= j < i ==> LayerGrown(net.geo, net.geo.attention[j], cap, capacity, used, layers[j],
          grown[j])
      {
        var layer := GrowLayer(net.geo, net.geo.attention[i], cap, capacity, used, layers[i]);
        grown := grown + [layer];
      }
      GrownViews(net.geo, cap, capacity, used, layers, grown);
      cap, layers := capacity, grown;
      ok := true;
    }

    /** session_save: the first len - 1 rows go to the file with all len tokens. */
    method Save(tokens: array<Token>, len: nat) returns (saved: bool, file: seq<Word>)
      requires AllFit(net.geo, cap, layers) && len <= tokens.Length && len <= cap + 1
      ensures saved <==> len >= 2
      ensures saved ==> file == Sealed(net.geo, hash, tokens[..len], Remembers(len - 1))
    {
      if len < 2 { return false, []; }
      file := Header(net.geo, tokens[..len]);
      ghost var mind := Remembers(len - 1);
      for i := 0 to |layers|
        invariant file == Header(net.geo, tokens[..len]) + MindWords(mind[..i])
      {
        var words := LayerWords(net.geo, net.geo.attention[i], cap, len - 1, layers[i]);
        ghost var before := file;
        file := file + words;
        MindWordsSnoc(mind, i);
        Assoc(Header(net.geo, tokens[..len]), MindWords(mind[..i]), words);
      }
      assert mind[..|mind|] == mind;
      BodySplits(net.geo, tokens[..len], mind);
      file := file + hash(file);
      saved := true;
    }

    /** session_resume: every check, then fresh layers with room for `reserve` more.
        It accepts exactly the files that start with a sealed session that fits. */
    method Resume(file: seq<Word>, reserve: nat) returns (r: Resumed)
      requires HashShaped(hash)
      modifies this
      ensures r.Resumed? ==>
                && reserve >= 1 && fresh(r.buffer) && 2 <= r.len && r.buffer.Length == r.len + reserve == cap
                && AllFit(net.geo, cap, layers)
                && Acceptable(net.geo, limit, reserve, r.buffer[..r.len], Remembers(r.len - 1))
                && Sealed(net.geo, hash, r.buffer[..r.len], Remembers(r.len - 1)) <= file
      ensures r.Refused? ==> reserve < 1 || forall tokens: seq<Token>, mind: Mind ::
                Acceptable(net.geo, limit, reserve, tokens, mind) ==> !(Sealed(net.geo, hash, tokens, mind) <= file)
    {
      if reserve < 1 { return Refused; }
      var transcript, capacity, loaded := LoadFile(net.geo, hash, limit, reserve, file);
      if transcript.None? { return Refused; }
      cap, layers := capacity, loaded;
      var buffer := Buffer(transcript.value, capacity);
      r := Resumed(buffer, |transcript.value|);
      assert buffer[..r.len] == transcript.value;
      assert Remembers(r.len - 1) == Views(net.geo, capacity, r.len - 1, loaded);
    }

    /** A session saved from a state that holds all but the last token, when resumed,
        holds them again with room for more. */
    method Reload(file: seq<Word>, reserve: nat, ghost tokens: seq<Token>) returns (buffer: array<Token>)
      requires WellShaped(net) && HashShaped(hash) && reserve >= 1
      requires |tokens| >= 2 && |tokens| + reserve <= limit
      requires file == Sealed(net.geo, hash, tokens, MindOf(net, tokens[..|tokens| - 1]))
      modifies this
      ensures fresh(buffer) && buffer.Length == cap == |tokens| + reserve
      ensures buffer[..|tokens|] == tokens && Holds(tokens[..|tokens| - 1])
    {
      ghost var mind := MindOf(net, tokens[..|tokens| - 1]);
      MindShaped(net, tokens[..|tokens| - 1]);
      assert file <= file;
      var r := Resume(file, reserve);
      assert r.Resumed?;
      SealedOnce(net.geo, hash, limit, reserve, tokens, mind, r.buffer[..r.len], Remembers(r.len - 1));
      buffer := r.buffer;
    }

    /** session_prefill_save_tokens, not cancelled: chunks of 256 over all but the
        last token, then a save. */
    method PrefillSave(tokens: array<Token>, len: nat) returns (saved: bool, file: seq<Word>)
      requires WellShaped(net) && len <= tokens.Length
      modifies this
      ensures saved <==> 2 <= len <= limit
      ensures saved ==> file == Sealed(net.geo, hash, tokens[..len], MindOf(net, tokens[..len - 1]))
    {
      if len < 2 || !ContextFits(limit, 0, len, 0) { return false, []; }
      Begin(len);
      var prefix, position := len - 1, 0;
      ghost var all := tokens[..prefix];
      assert all[..0] == [];
      while position < prefix
        invariant 0 <= position <= prefix && cap == len && Holds(all[..position])
      {
        var count := if prefix - position > 256 then 256 else prefix - position;
        var _ := Step(tokens[position..position + count], position, all[..position]);
        assert all[..position] + tokens[position..position + count] == all[..position + count];
        position := position + count;
      }
      assert all[..prefix] == all;
      saved, file := Save(tokens, len);
    }
  }

  // ---- A whole conversation -----------------------------------------------------------

  /** Between turns the file holds all tokens but the last, and so does the live
      state while it is resident. */
  ghost predicate Resting(m: Model, tokens: seq<Token>, file: seq<Word>, resident: bool)
    reads m
  {
    && |tokens| >= 2
    && (resident ==> m.Holds(tokens[..|tokens| - 1]))
    && file == Sealed(m.net.geo, m.hash, tokens, MindOf(m.net, tokens[..|tokens| - 1]))
  }

  /** A whole conversation on the caches. A first turn generates from scratch; a
      later one grows the resident state or resumes the file, then continues; every
      turn saves. Wherever it was evicted, resumed, grown or compacted, the
      transcript is that of the cache-free meaning. */
  method Converse(m: Model, events: seq<Event>) returns (tokens: seq<Token>)
    requires WellShaped(m.net) && HashShaped(m.hash)
    requires Spoken(events)
    modifies m
    ensures tokens == Conversation(m.net, m.limit, events) && |tokens| <= m.limit
  {
    tokens := [];
    var file: seq<Word>, resident := [], false;
    for i := 0 to |events|
      invariant tokens == Conversation(m.net, m.limit, events[..i])
      invariant tokens != [] ==> Resting(m, tokens, file, resident)
    {
      ConversationStep(m.net, m.limit, events, i);
      match events[i] {
        case Ask(turn) =>
          if Accepts(m.limit, tokens, turn) {
            tokens, file := RunTurn(m, turn, tokens, file, resident);
            resident := true;
          }
        case Compact(shorter) =>
          resident := false;
          tokens, file := RunCompaction(m, tokens, file, shorter);
        case Evict => resident := false;
      }
    }
    assert events[..|events|] == events;
    ConversationFits(m.net, m.limit, events);
  }

  /** Two runs of one conversation, one as it came and one never evicted and never
      chunked, give one transcript. */
  method ConverseBoth(m: Model, n: Model, events: seq<Event>) returns (tokens: seq<Token>, plain: seq<Token>)
    requires m != n && m.net == n.net && m.limit == n.limit
    requires WellShaped(m.net) && HashShaped(m.hash) && HashShaped(n.hash)
    requires Spoken(events)
    modifies m, n
    ensures tokens == plain == Conversation(m.net, m.limit, events)
  {
    ResumingIsInvisible(m.net, m.limit, events);
    UnbrokenSpoken(events);
    tokens := Converse(m, events);
    plain := Converse(n, Unbroken(events));
  }

  lemma {:induction false} UnbrokenSpoken(events: seq<Event>)
    requires Spoken(events)
    ensures Spoken(Unbroken(events))
  {
    if events != [] {
      UnbrokenSpoken(events[..|events| - 1]);
      assert events[|events| - 1].Ask? ==> events[|events| - 1].turn.budget >= 1;
    }
  }

  /** A shorter transcript takes the place of the old one, in the file only. */
  method RunCompaction(m: Model, before: seq<Token>, file: seq<Word>, shorter: seq<Token>)
    returns (after: seq<Token>, afterFile: seq<Word>)
    requires WellShaped(m.net) && HashShaped(m.hash)
    requires before != [] ==> Resting(m, before, file, false)
    modifies m
    ensures after == if Shortens(m.limit, before, shorter) then shorter else before
    ensures after != [] ==> Resting(m, after, afterFile, false)
  {
    after, afterFile := before, file;
    if |shorter| < |before| {
      var buffer := Buffer(shorter, |shorter|);
      var saved, words := m.PrefillSave(buffer, |shorter|);
      if saved {
        after, afterFile := shorter, words;
        assert buffer[..|shorter| - 1] == shorter[..|shorter| - 1];
      }
    }
  }

  method RunTurn(m: Model, turn: Turn, before: seq<Token>, file: seq<Word>, resident: bool)
    returns (after: seq<Token>, afterFile: seq<Word>)
    requires WellShaped(m.net) && HashShaped(m.hash) && turn.budget >= 1
    requires Accepts(m.limit, before, turn)
    requires before != [] ==> Resting(m, before, file, resident)
    modifies m
    ensures after == Answered(m.net, before + turn.text, turn)
    ensures Resting(m, after, afterFile, true)
  {
    var buffer, len := Respond(m, turn, before, file, resident);
    after := buffer[..len];
    afterFile := SaveTurn(m, buffer, len);
  }

  /** The save that ends a turn. */
  method SaveTurn(m: Model, buffer: array<Token>, len: nat) returns (file: seq<Word>)
    requires 2 <= len <= buffer.Length && m.Holds(buffer[..len - 1])
    ensures Resting(m, buffer[..len], file, true)
  {
    var saved;
    saved, file := m.Save(buffer, len);
    assert buffer[..len][..len - 1] == buffer[..len - 1];
  }

  method Respond(m: Model, turn: Turn, before: seq<Token>, file: seq<Word>, resident: bool)
    returns (buffer: array<Token>, len: nat)
    requires WellShaped(m.net) && HashShaped(m.hash) && turn.budget >= 1
    requires Accepts(m.limit, before, turn)
    requires before != [] ==> Resting(m, before, file, resident)
    modifies m
    ensures 2 <= len <= buffer.Length && m.Holds(buffer[..len - 1])
    ensures buffer[..len] == Answered(m.net, before + turn.text, turn)
  {
    if before == [] {
      assert before + turn.text == turn.text;
      buffer, len := m.Generate(turn.text, turn.budget, turn.policy, turn.chunked);
    } else {
      buffer := Rouse(m, turn, before, file, resident);
      assert buffer[..|before| - 1] == before[..|before| - 1];
      len := m.GenerateContinue(buffer, |before|, turn.text, turn.budget, turn.policy, turn.chunked);
    }
  }

  /** The resident path grows in place; the cold one reads the file. */
  method Rouse(m: Model, turn: Turn, before: seq<Token>, file: seq<Word>, resident: bool) returns (hist: array<Token>)
    requires WellShaped(m.net) && HashShaped(m.hash) && turn.budget >= 1
    requires Resting(m, before, file, resident) && ContextFits(m.limit, |before|, |turn.text|, turn.budget)
    modifies m
    ensures fresh(hist) && hist.Length == |before| + |turn.text| + turn.budget <= m.cap
    ensures hist[..|before|] == before && m.Holds(before[..|before| - 1])
  {
    var needed := |before| + |turn.text| + turn.budget;
    if resident {
      var ok := m.Grow(needed, |before| - 1);
      hist := Buffer(before, needed);
    } else {
      hist := m.Reload(file, |turn.text| + turn.budget, before);
    }
  }
}
