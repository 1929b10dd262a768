/** What a conversation means, with no cache at all: the state after some tokens
    is the fold of the network over them from nothing, and every answer token is
    chosen from the logits recomputed over the whole transcript. */
module SessionSpec {
  import opened KvPlane

  type Token = int
  type Logits = seq<int>

  /** The network's shape; `numbers` are the nine words a saved session carries. */
  datatype Geometry = Geometry(numbers: seq<Word>, attention: seq<bool>, heads: nat, dim: nat,
                               convWords: nat, recurrentWords: nat)

  /** What a layer remembers of the tokens stepped so far: the words of every head
      for an attention layer, a state of fixed size for a recurrent one. */
  datatype Memory =
    | Rows(k: seq<seq<Word>>, v: seq<seq<Word>>)
    | Recurrent(conv: seq<Word>, state: seq<Word>)

  type Mind = seq<Memory>

  predicate MemoryShaped(geo: Geometry, attention: bool, n: nat, m: Memory) {
    if attention then
      m.Rows? && Uniform(m.k, geo.heads, Base(geo.dim, n)) && Uniform(m.v, geo.heads, Base(geo.dim, n))
    else
      m.Recurrent? && |m.conv| == geo.convWords && |m.state| == geo.recurrentWords
  }

  predicate Shaped(geo: Geometry, n: nat, mind: Mind) {
    && |mind| == |geo.attention|
    && forall i :: 0 <= i < |mind| ==> MemoryShaped(geo, geo.attention[i], n, mind[i])
  }

  /** The network: from what is remembered and one token it computes a row or a new
      state for each layer, and the logits. */
  datatype Net = Net(geo: Geometry, update: (Mind, Token) -> Mind, logits: (Mind, Token) -> Logits)

  ghost predicate WellShaped(net: Net) {
    forall mind: Mind, t: Token :: Shaped(net.geo, 1, net.update(mind, t))
  }

  function Extend(m: Memory, u: Memory): Memory {
    if m.Rows? && u.Rows? && |m.k| == |u.k| && |m.v| == |u.v|
    then Rows(Appended(m.k, u.k), Appended(m.v, u.v)) else u
  }

  function Extended(mind: Mind, u: Mind): Mind {
    seq(|u|, (i: nat) requires i < |u| => if i < |mind| then Extend(mind[i], u[i]) else u[i])
  }

  function Advance(net: Net, mind: Mind, t: Token): Mind { Extended(mind, net.update(mind, t)) }

  function EmptyMemory(geo: Geometry, attention: bool): Memory {
    if attention then Rows(seq(geo.heads, (g: nat) => []), seq(geo.heads, (g: nat) => []))
    else Recurrent(Zeros(geo.convWords), Zeros(geo.recurrentWords))
  }

  function Empty(geo: Geometry): Mind {
    seq(|geo.attention|, (i: nat) requires i < |geo.attention| => EmptyMemory(geo, geo.attention[i]))
  }

  /** The state after `tokens`, from nothing. */
  function MindOf(net: Net, tokens: seq<Token>): Mind {
    if tokens == [] then Empty(net.geo)
    else Advance(net, MindOf(net, tokens[..|tokens| - 1]), tokens[|tokens| - 1])
  }

  lemma {:induction false} MindOfSnoc(net: Net, tokens: seq<Token>, t: Token)
    ensures MindOf(net, tokens + [t]) == Advance(net, MindOf(net, tokens), t)
  {
    assert (tokens + [t])[..|tokens|] == tokens;
  }

  /** The logits after `tokens`, from nothing. */
  function LogitsOf(net: Net, tokens: seq<Token>): Logits {
    if tokens == [] then [] else net.logits(MindOf(net, tokens[..|tokens| - 1]), tokens[|tokens| - 1])
  }

  // ---- Shapes -------------------------------------------------------------------

  lemma {:induction false} ExtendShaped(geo: Geometry, attention: bool, n: nat, m: Memory, u: Memory)
    requires MemoryShaped(geo, attention, n, m) && MemoryShaped(geo, attention, 1, u)
    ensures MemoryShaped(geo, attention, n + 1, Extend(m, u))
  {
    assert Base(geo.dim, 1) == Base(geo.dim, 0) + geo.dim;
    assert Base(geo.dim, n + 1) == Base(geo.dim, n) + geo.dim;
  }

  lemma {:induction false} MindShaped(net: Net, tokens: seq<Token>)
    requires WellShaped(net)
    ensures Shaped(net.geo, |tokens|, MindOf(net, tokens))
  {
    if tokens != [] {
      var front, t := tokens[..|tokens| - 1], tokens[|tokens| - 1];
      MindShaped(net, front);
      var mind, u := MindOf(net, front), net.update(MindOf(net, front), t);
      assert Shaped(net.geo, 1, u);
      forall i | 0 <= i < |u|
        ensures MemoryShaped(net.geo, net.geo.attention[i], |tokens|, Extend(mind[i], u[i]))
      {
        ExtendShaped(net.geo, net.geo.attention[i], |front|, mind[i], u[i]);
      }
    }
  }

  // ---- Answers --------------------------------------------------------------------

  /** How an answer is steered: the token chosen from the logits and the answer so
      far, and whether the answer ends there. */
  datatype Policy = Policy(choose: (Logits, seq<Token>) -> Token, ends: seq<Token> -> bool)

  /** The answer to a transcript, recomputing the state for every token. */
  function Answer(net: Net, policy: Policy, transcript: seq<Token>, soFar: seq<Token>, budget: nat): (r: seq<Token>)
    ensures |soFar| <= |r| <= |soFar| + budget
    ensures r[..|soFar|] == soFar
    ensures budget > 0 ==> |r| > |soFar|
    decreases budget
  {
    if budget == 0 then soFar
    else
      var longer := soFar + [policy.choose(LogitsOf(net, transcript + soFar), soFar)];
      if policy.ends(longer) then longer else Answer(net, policy, transcript, longer, budget - 1)
  }

  /** One request: new text, the most tokens to answer with, and how. `chunked`
      says only how the server happens to run it. */
  datatype Turn = Turn(text: seq<Token>, budget: nat, policy: Policy, chunked: bool)

  /** What happens to a conversation: a request, its replacement by a shorter
      transcript, or the live state being dropped to leave only the file. */
  datatype Event = Ask(turn: Turn) | Compact(shorter: seq<Token>) | Evict

  predicate ContextFits(limit: nat, existing: nat, extra: nat, generated: nat) {
    existing <= limit && extra <= limit - existing && generated <= limit - existing - extra
  }

  /** A turn must fit the context, and a first turn must say something. */
  predicate Accepts(limit: nat, before: seq<Token>, turn: Turn) {
    ContextFits(limit, |before|, |turn.text|, turn.budget) && (before != [] || turn.text != [])
  }

  function Answered(net: Net, transcript: seq<Token>, turn: Turn): seq<Token> {
    transcript + Answer(net, turn.policy, transcript, [], turn.budget)
  }

  predicate Shortens(limit: nat, before: seq<Token>, shorter: seq<Token>) {
    2 <= |shorter| < |before| && ContextFits(limit, 0, |shorter|, 0)
  }

  /** The transcript of a whole conversation; refused events leave no trace. */
  function Conversation(net: Net, limit: nat, events: seq<Event>): seq<Token> {
    if events == [] then []
    else Continued(net, limit, Conversation(net, limit, events[..|events| - 1]), events[|events| - 1])
  }

  /** The transcript after one more event. */
  function Continued(net: Net, limit: nat, before: seq<Token>, event: Event): seq<Token> {
    match event
    case Ask(turn) => if Accepts(limit, before, turn) then Answered(net, before + turn.text, turn) else before
    case Compact(shorter) => if Shortens(limit, before, shorter) then shorter else before
    case Evict => before
  }

  lemma {:induction false} ConversationStep(net: Net, limit: nat, events: seq<Event>, i: nat)
    requires i < |events|
    ensures Conversation(net, limit, events[..i + 1])
            == Continued(net, limit, Conversation(net, limit, events[..i]), events[i])
  {
    assert events[..i + 1][..i] == events[..i];
  }

  /** The same conversation never evicted and never chunked. */
  function Unbroken(events: seq<Event>): (r: seq<Event>)
    ensures Evict !in r
  {
    if events == [] then []
    else
      var front := Unbroken(events[..|events| - 1]);
      match events[|events| - 1]
      case Ask(turn) => front + [Ask(turn.(chunked := false))]
      case Compact(shorter) => front + [Compact(shorter)]
      case Evict => front
  }

  /** Stopping and resuming leaves no trace. */
  lemma {:induction false} ResumingIsInvisible(net: Net, limit: nat, events: seq<Event>)
    ensures Conversation(net, limit, events) == Conversation(net, limit, Unbroken(events))
  {
    if events != [] {
      var front := events[..|events| - 1];
      ResumingIsInvisible(net, limit, front);
      var plain := Unbroken(front);
      if !events[|events| - 1].Evict? {
        assert Unbroken(events)[..|plain|] == plain;
      }
    }
  }

  // ---- What the definitions above come to -------------------------------------------------

  /** Every event asks for an answer of at least one token, if it asks. */
  predicate Spoken(events: seq<Event>) {
    forall i :: 0 <= i < |events| && events[i].Ask? ==> events[i].turn.budget >= 1
  }

  /** No transcript is longer than the context. */
  lemma {:induction false} ConversationFits(net: Net, limit: nat, events: seq<Event>)
    ensures |Conversation(net, limit, events)| <= limit
  {
    if events != [] { ConversationFits(net, limit, events[..|events| - 1]); }
  }

  /** A turn that may be answered by a token or more is refused, and leaves no trace, if
      and only if the old transcript, the new text and the longest answer do not fit the
      context together, or nothing has been said at all. */
  lemma {:induction false} TurnExactly(net: Net, limit: nat, before: seq<Token>, turn: Turn)
    requires turn.budget >= 1
    ensures var after := Continued(net, limit, before, Ask(turn));
            if |before| + |turn.text| + turn.budget > limit || |before| + |turn.text| == 0 then after == before
            else
              && |before| + |turn.text| < |after| <= |before| + |turn.text| + turn.budget
              && before + turn.text <= after
  {
    var transcript := before + turn.text;
    assert transcript <= transcript + Answer(net, turn.policy, transcript, [], turn.budget);
  }

  /** A compaction takes place if and only if it leaves at least two tokens and fewer than
      there were, within the context. */
  lemma CompactionExactly(net: Net, limit: nat, before: seq<Token>, shorter: seq<Token>)
    ensures Continued(net, limit, before, Compact(shorter))
            == if |shorter| >= 2 && |shorter| < |before| && |shorter| <= limit then shorter else before
  {
  }

  /** An answer, token by token: each is the one chosen from the logits of everything
      before it; it goes on while it has not ended and the budget is not spent. */
  lemma {:induction false} AnswerExactly(net: Net, policy: Policy, transcript: seq<Token>, soFar: seq<Token>,
                                         budget: nat, k: nat)
    requires |soFar| <= k < |Answer(net, policy, transcript, soFar, budget)|
    ensures var r := Answer(net, policy, transcript, soFar, budget);
            && r[k] == policy.choose(LogitsOf(net, transcript + r[..k]), r[..k])
            && (k > |soFar| ==> !policy.ends(r[..k]))
            && (policy.ends(r) || |r| == |soFar| + budget)
    decreases budget
  {
    var r := Answer(net, policy, transcript, soFar, budget);
    var longer := soFar + [policy.choose(LogitsOf(net, transcript + soFar), soFar)];
    assert r[..|soFar|] == soFar;
    if policy.ends(longer) {
      assert r == longer;
    } else {
      var rest := Answer(net, policy, transcript, longer, budget - 1);
      assert r == rest && rest[..|longer|] == longer;
      if budget > 1 { AnswerExactly(net, policy, transcript, longer, budget - 1, if k == |soFar| then k + 1 else k); }
      assert r[|soFar|] == longer[|soFar|] && r[..|longer|] == longer;
    }
  }
}
