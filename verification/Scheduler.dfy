/** The request scheduler of src/qwen36b.c: tickets, one slot, interactive
    requests ahead of background ones. Each step is one critical section. */
module Scheduler {
  import opened Basics

  type Ticket = nat
  type Thread = nat
  datatype Waiter = Waiter(thread: Thread, background: bool)

  /** The scheduler's own fields. */
  datatype Fields = Fields(next: Ticket, serving: Ticket, active: bool, waiting: int, maxWaiting: int,
                           stopping: bool, interactive: int)

  /** The fields together with who is really parked on which ticket, which of
      those sleep with no signal since their last look, who holds the slot, and
      the tickets admitted so far in order. */
  datatype State = State(f: Fields, parked: map<Ticket, Waiter>, asleep: set<Ticket>,
                         holder: Option<Thread>, admitted: seq<Ticket>)

  datatype Event =
    | Acquire(thread: Thread, background: bool)  // serve_scheduler_acquire up to the wait
    | Wake(ticket: Ticket)                       // a parked thread rechecks, signalled or not
    | Release                                    // serve_scheduler_release by the holder
    | TryIdle(thread: Thread)                    // serve_scheduler_try_idle
    | Stop                                       // shutdown

  function InitialFields(maxWaiting: nat): Fields { Fields(0, 0, false, 0, maxWaiting, false, 0) }

  function Initial(maxWaiting: nat): State { State(InitialFields(maxWaiting), map[], {}, None, []) }

  // ---- Steps -----------------------------------------------------------------------

  /** What a ticket waits for, apart from shutdown. */
  predicate MayGo(f: Fields, ticket: Ticket, background: bool) {
    !f.active && ticket == f.serving && !(background && f.interactive > 0)
  }

  ghost predicate Outside(s: State, t: Thread) {
    s.holder != Some(t) && forall k :: k in s.parked ==> s.parked[k].thread != t
  }

  predicate Refuses(f: Fields) {
    f.stopping || ((f.active || f.waiting != 0) && f.waiting >= f.maxWaiting)
  }

  function Joined(f: Fields, background: bool): Fields {
    f.(next := f.next + 1, waiting := f.waiting + 1,
       interactive := if background then f.interactive else f.interactive + 1)
  }

  function Departed(f: Fields, background: bool): Fields {
    var g := f.(waiting := f.waiting - 1,
                interactive := if background then f.interactive else f.interactive - 1);
    if f.stopping then g else g.(active := true, serving := f.serving + 1)
  }

  /** A new ticket joins the queue. */
  function Enqueue(s: State, t: Thread, background: bool): State {
    s.(f := Joined(s.f, background), parked := s.parked[s.f.next := Waiter(t, background)])
  }

  /** A parked ticket stops waiting: admitted, or sent away by the shutdown. */
  function Leave(s: State, ticket: Ticket): State
    requires ticket in s.parked
  {
    var w := s.parked[ticket];
    var u := s.(f := Departed(s.f, w.background), parked := s.parked - {ticket}, asleep := s.asleep - {ticket});
    if s.f.stopping then u else u.(holder := Some(w.thread), admitted := s.admitted + [ticket])
  }

  function Recheck(s: State, ticket: Ticket): State {
    if ticket !in s.parked then s
    else if s.f.stopping || MayGo(s.f, ticket, s.parked[ticket].background) then Leave(s, ticket)
    else s.(asleep := s.asleep + {ticket})
  }

  ghost function Next(s: State, e: Event): State {
    match e
    case Acquire(t, background) =>
      if !Outside(s, t) || Refuses(s.f) then s else Recheck(Enqueue(s, t, background), s.f.next)
    case Wake(ticket) => Recheck(s, ticket)
    case Release => if s.holder.None? then s else s.(f := s.f.(active := false), asleep := {}, holder := None)
    case TryIdle(t) =>
      if Outside(s, t) && !s.f.stopping && !s.f.active && s.f.waiting == 0
      then s.(f := s.f.(active := true), holder := Some(t)) else s
    case Stop => s.(f := s.f.(stopping := true), asleep := {})
  }

  ghost function Run(s: State, events: seq<Event>): State {
    if events == [] then s else Next(Run(s, events[..|events| - 1]), events[|events| - 1])
  }

  // ---- Invariant ---------------------------------------------------------------------

  function InteractiveTickets(parked: map<Ticket, Waiter>): set<Ticket> {
    set k | k in parked && !parked[k].background
  }

  /** The counters count. */
  ghost predicate Counted(s: State) {
    s.f.waiting == |s.parked| && s.f.interactive == |InteractiveTickets(s.parked)|
  }

  /** Until shutdown the parked tickets are exactly those between serving and next. */
  ghost predicate Queued(s: State) {
    && s.f.serving <= s.f.next
    && (forall k :: k in s.parked ==> s.f.serving <= k < s.f.next)
    && (!s.f.stopping ==> forall k :: s.f.serving <= k < s.f.next ==> k in s.parked)
    && |s.admitted| == s.f.serving
    && (forall i :: 0 <= i < |s.admitted| ==> s.admitted[i] == i)
  }

  /** One thread at most holds the slot, and no thread is in two places. */
  ghost predicate Exclusive(s: State) {
    && s.f.active == s.holder.Some?
    && (forall j, k :: j in s.parked && k in s.parked && j != k ==> s.parked[j].thread != s.parked[k].thread)
    && (forall k :: k in s.parked ==> s.holder != Some(s.parked[k].thread))
  }

  /** No wake-up is lost: whoever sleeps has nothing to do yet. */
  ghost predicate NoLostWakeup(s: State) {
    forall k :: k in s.asleep ==>
      k in s.parked && !s.f.stopping && !MayGo(s.f, k, s.parked[k].background)
  }

  ghost predicate Core(s: State) { Counted(s) && Queued(s) && Exclusive(s) && NoLostWakeup(s) }

  ghost predicate Inv(s: State) { Core(s) && s.f.waiting <= s.f.maxWaiting }

  lemma {:induction false} RemoveParked(parked: map<Ticket, Waiter>, k: Ticket)
    requires k in parked
    ensures |parked - {k}| == |parked| - 1
    ensures |InteractiveTickets(parked - {k})|
            == |InteractiveTickets(parked)| - (if parked[k].background then 0 else 1)
  {
    assert (parked - {k}).Keys == parked.Keys - {k};
    assert InteractiveTickets(parked - {k}) == InteractiveTickets(parked) - {k};
  }

  lemma {:induction false} AddParked(parked: map<Ticket, Waiter>, k: Ticket, w: Waiter)
    requires k !in parked
    ensures |parked[k := w]| == |parked| + 1
    ensures |InteractiveTickets(parked[k := w])| == |InteractiveTickets(parked)| + (if w.background then 0 else 1)
  {
    var more := parked[k := w];
    assert more - {k} == parked;
    RemoveParked(more, k);
  }

  lemma {:induction false} RecheckCounted(s: State, ticket: Ticket)
    requires Counted(s)
    ensures Counted(Recheck(s, ticket))
  {
    if ticket in s.parked {
      RemoveParked(s.parked, ticket);
    }
  }

  lemma {:induction false} RecheckKeepsCore(s: State, ticket: Ticket)
    requires Core(s)
    ensures Core(Recheck(s, ticket)) && Recheck(s, ticket).f.waiting <= s.f.waiting
  {
    RecheckCounted(s, ticket);
  }

  lemma {:induction false} EnqueueKeepsCore(s: State, t: Thread, background: bool)
    requires Core(s) && Outside(s, t) && !s.f.stopping
    ensures Core(Enqueue(s, t, background))
  {
    AddParked(s.parked, s.f.next, Waiter(t, background));
    EnqueueQueued(s, t, background);
    EnqueueExclusive(s, t, background);
    EnqueueWakes(s, t, background);
  }

  lemma EnqueueQueued(s: State, t: Thread, background: bool)
    requires Queued(s)
    ensures Queued(Enqueue(s, t, background))
  {
  }

  lemma EnqueueExclusive(s: State, t: Thread, background: bool)
    requires Queued(s) && Exclusive(s) && Outside(s, t)
    ensures Exclusive(Enqueue(s, t, background))
  {
  }

  lemma EnqueueWakes(s: State, t: Thread, background: bool)
    requires Queued(s) && NoLostWakeup(s)
    ensures NoLostWakeup(Enqueue(s, t, background))
  {
  }

  /** An idle scheduler admits a newcomer at once, whatever its class. */
  lemma {:induction false} IdleAdmitsAtOnce(s: State, t: Thread, background: bool)
    requires Core(s) && Outside(s, t) && !s.f.stopping && !s.f.active && s.f.waiting == 0
    ensures Next(s, Acquire(t, background)).holder == Some(t)
    ensures Next(s, Acquire(t, background)).parked == map[]
    ensures Next(s, Acquire(t, background)).f.waiting == 0
  {
    assert s.parked == map[];
    assert InteractiveTickets(s.parked) == {};
    assert s.f.serving in s.parked || s.f.serving == s.f.next;
    var u := Enqueue(s, t, background);
    assert MayGo(u.f, s.f.next, background);
    assert u.parked - {s.f.next} == map[];
  }

  lemma {:induction false} NextKeepsInv(s: State, e: Event)
    requires Inv(s)
    ensures Inv(Next(s, e))
  {
    match e {
      case Acquire(t, background) =>
        if Outside(s, t) && !Refuses(s.f) {
          EnqueueKeepsCore(s, t, background);
          RecheckKeepsCore(Enqueue(s, t, background), s.f.next);
          if !s.f.active && s.f.waiting == 0 {
            IdleAdmitsAtOnce(s, t, background);
          }
        }
      case Wake(ticket) => RecheckKeepsCore(s, ticket);
      case _ =>
    }
  }

  lemma {:induction false} RunKeepsInv(maxWaiting: nat, events: seq<Event>)
    ensures Inv(Run(Initial(maxWaiting), events))
  {
    if events != [] {
      RunKeepsInv(maxWaiting, events[..|events| - 1]);
      NextKeepsInv(Run(Initial(maxWaiting), events[..|events| - 1]), events[|events| - 1]);
    }
  }

  // ---- Safety --------------------------------------------------------------------------

  /** A step that hands out the slot by ticket hands it to the serving ticket,
      the slot was free, no shutdown is on, and a background request gets it only
      when no interactive one is waiting. */
  lemma {:induction false} AdmissionRule(s: State, ticket: Ticket)
    requires Inv(s) && ticket in s.parked && Recheck(s, ticket).admitted != s.admitted
    ensures s.holder.None? && !s.f.stopping && ticket == s.f.serving
    ensures Recheck(s, ticket).admitted == s.admitted + [ticket]
    ensures Recheck(s, ticket).holder == Some(s.parked[ticket].thread)
    ensures s.parked[ticket].background ==> forall k :: k in s.parked ==> s.parked[k].background
  {
    assert s.parked[ticket].background ==> InteractiveTickets(s.parked) == {};
    assert forall k :: k in s.parked && !s.parked[k].background ==> k in InteractiveTickets(s.parked);
  }

  /** A newcomer is turned away if and only if the scheduler is shutting down, or it is in
      use and as many threads are parked as may be; otherwise it holds the slot or is
      parked on the next ticket. */
  lemma {:induction false} RefusedExactly(s: State, t: Thread, background: bool)
    requires Inv(s) && Outside(s, t)
    ensures var u := Next(s, Acquire(t, background));
            if s.f.stopping || ((s.holder.Some? || s.parked != map[]) && |s.parked| >= s.f.maxWaiting) then u == s
            else u.holder == Some(t)
                 || (s.f.next in u.parked && u.parked[s.f.next] == Waiter(t, background) && u.holder == s.holder)
  {
    NobodyParked(s.parked);
    if !Refuses(s.f) { Arrives(s, t, background); }
  }

  lemma NobodyParked(parked: map<Ticket, Waiter>)
    ensures |parked| == 0 <==> parked == map[]
  {
  }

  /** A parked thread that looks is admitted if and only if its ticket is served, the slot
      is free, and it does not go before a waiting interactive request as a background
      one; at shutdown it leaves, and otherwise it sleeps on. */
  lemma {:induction false} LookExactly(s: State, ticket: Ticket)
    requires Inv(s) && ticket in s.parked
    ensures var u, w := Next(s, Wake(ticket)), s.parked[ticket];
            if s.f.stopping then ticket !in u.parked && u.holder == s.holder && u.admitted == s.admitted
            else if s.holder.None? && ticket == s.f.serving
                    && (w.background ==> forall k :: k in s.parked ==> s.parked[k].background)
            then ticket !in u.parked && u.holder == Some(w.thread) && u.admitted == s.admitted + [ticket]
            else u == s.(asleep := s.asleep + {ticket})
  {
    var some := InteractiveTickets(s.parked);
    assert (forall k :: k in s.parked ==> s.parked[k].background) <==> some == {} by {
      assert forall k :: k in s.parked && !s.parked[k].background ==> k in some;
    }
    assert some == {} <==> |some| == 0;
  }

  /** The slot is taken without a ticket exactly when nobody holds it or waits for it. */
  lemma {:induction false} IdleExactly(s: State, t: Thread)
    requires Inv(s) && Outside(s, t)
    ensures Next(s, TryIdle(t)).holder == Some(t) <==> !s.f.stopping && s.holder.None? && s.parked == map[]
    ensures Next(s, TryIdle(t)).holder != Some(t) ==> Next(s, TryIdle(t)) == s
  {
    NobodyParked(s.parked);
  }

  /** A release frees the slot and leaves nobody asleep. */
  lemma ReleaseExactly(s: State)
    ensures Next(s, Release).holder.None? && (s.holder.Some? ==> Next(s, Release).asleep == {})
    ensures Next(s, Release).parked == s.parked && Next(s, Release).admitted == s.admitted
  {
  }

  // ---- Progress --------------------------------------------------------------------------

  predicate Admissible(s: State, ticket: Ticket) {
    ticket in s.parked && MayGo(s.f, ticket, s.parked[ticket].background)
  }

  /** The head of the queue is a background request with an interactive one behind. */
  predicate HeadBlocked(s: State) {
    && !s.f.active && !s.f.stopping
    && s.f.serving in s.parked && s.parked[s.f.serving].background
    && exists k :: k in s.parked && !s.parked[k].background
  }

  /** With the slot free and someone waiting, some waiter may go if and only if
      the head is not a background request blocking an interactive one. */
  lemma {:induction false} ProgressExactly(s: State)
    requires Inv(s) && !s.f.active && !s.f.stopping && s.f.waiting > 0
    ensures (exists k :: Admissible(s, k)) <==> !HeadBlocked(s)
  {
    assert s.parked != map[];
    var k :| k in s.parked;
    var head := s.f.serving;
    assert head in s.parked;
    assert Admissible(s, head) <==> !(s.parked[head].background && s.f.interactive > 0);
    if s.f.interactive > 0 {
      assert InteractiveTickets(s.parked) != {};
      var j :| j in InteractiveTickets(s.parked);
    }
    if j :| j in s.parked && !s.parked[j].background {
      assert j in InteractiveTickets(s.parked);
    }
  }

  /** Once blocked, nothing but shutdown ever changes that. */
  lemma {:induction false} BlockedForever(s: State, events: seq<Event>)
    requires Inv(s) && HeadBlocked(s)
    requires forall i :: 0 <= i < |events| ==> events[i] != Stop
    ensures HeadBlocked(Run(s, events)) && Inv(Run(s, events)) && Run(s, events).admitted == s.admitted
  {
    if events != [] {
      var before := Run(s, events[..|events| - 1]);
      BlockedForever(s, events[..|events| - 1]);
      NextKeepsInv(before, events[|events| - 1]);
      BlockedStep(before, events[|events| - 1]);
    }
  }

  lemma {:induction false} BlockedStep(s: State, e: Event)
    requires Inv(s) && HeadBlocked(s) && e != Stop
    ensures HeadBlocked(Next(s, e)) && Next(s, e).admitted == s.admitted
  {
    var j :| j in s.parked && !s.parked[j].background;
    assert j in InteractiveTickets(s.parked);
    match e {
      case Acquire(t, background) =>
        if Outside(s, t) && !Refuses(s.f) {
          var u := Enqueue(s, t, background);
          assert j in u.parked && !u.parked[j].background;
          assert s.f.serving in u.parked && s.f.next != s.f.serving;
          assert !MayGo(u.f, s.f.next, background);
        }
      case _ =>
    }
  }

  lemma {:induction false} RunSnoc(s: State, events: seq<Event>, e: Event)
    ensures Run(s, events + [e]) == Next(Run(s, events), e)
  {
    assert (events + [e])[..|events|] == events;
  }

  /** An interactive request runs, a background one queues, and another
      interactive one queues behind it. */
  lemma {:induction false} ThreeArrivals(maxWaiting: nat)
    requires maxWaiting >= 2
    ensures var s := Next(Next(Next(Initial(maxWaiting), Acquire(0, false)), Acquire(1, true)), Acquire(2, false));
            && s.f == Fields(3, 1, true, 2, maxWaiting, false, 1)
            && s.holder == Some(0)
            && s.parked == map[1 := Waiter(1, true), 2 := Waiter(2, false)]
  {
    var s1 := Next(Initial(maxWaiting), Acquire(0, false));
    IdleAdmitsAtOnce(Initial(maxWaiting), 0, false);
    assert s1.f == Fields(1, 1, true, 0, maxWaiting, false, 0);
    var s2 := Next(s1, Acquire(1, true));
    assert s2.parked == map[1 := Waiter(1, true)];
    assert s2.f == Fields(2, 1, true, 1, maxWaiting, false, 0);
  }

  /** The blocked state is reachable: after those three arrivals the first finishes. */
  lemma {:induction false} BlockedIsReachable(maxWaiting: nat) returns (events: seq<Event>)
    requires maxWaiting >= 2
    ensures HeadBlocked(Run(Initial(maxWaiting), events))
    ensures Stop !in events
  {
    var s0 := Initial(maxWaiting);
    var e1, e2, e3 := Acquire(0, false), Acquire(1, true), Acquire(2, false);
    events := [] + [e1] + [e2] + [e3] + [Release];
    RunFour(s0, e1, e2, e3, Release);
    ThreeArrivals(maxWaiting);
    BlockedByRelease(Next(Next(Next(s0, e1), e2), e3));
  }

  lemma BlockedByRelease(s: State)
    requires s.holder.Some? && !s.f.stopping && s.f.serving in s.parked && s.parked[s.f.serving].background
    requires exists k :: k in s.parked && !s.parked[k].background
    ensures HeadBlocked(Next(s, Release))
  {
  }

  lemma {:induction false} RunFour(s: State, a: Event, b: Event, c: Event, d: Event)
    ensures Run(s, [] + [a] + [b] + [c] + [d]) == Next(Next(Next(Next(s, a), b), c), d)
  {
    RunSnoc(s, [], a);
    RunSnoc(s, [] + [a], b);
    RunSnoc(s, [] + [a] + [b], c);
    RunSnoc(s, [] + [a] + [b] + [c], d);
  }

  // ---- Shutdown ------------------------------------------------------------------------

  /** What a shut-down scheduler keeps through a step. */
  ghost predicate Draining(s: State, u: State) {
    && u.f.stopping && u.admitted == s.admitted && (u.holder.None? || u.holder == s.holder)
    && forall k :: k in u.parked ==> k in s.parked
  }

  lemma DrainStep(s: State, e: Event)
    requires s.f.stopping
    ensures Draining(s, Next(s, e))
    ensures e.Wake? ==> e.ticket !in Next(s, e).parked
  {
  }

  lemma {:induction false} DrainRun(s: State, events: seq<Event>)
    requires s.f.stopping
    ensures Draining(s, Run(s, events))
    ensures forall k :: k in Run(s, events).parked ==> Wake(k) !in events
  {
    if events != [] {
      var front, e := events[..|events| - 1], events[|events| - 1];
      DrainRun(s, front);
      DrainStep(Run(s, front), e);
      assert events == front + [e];
    }
  }

  /** After shutdown, once every parked thread has looked again, in any order and
      with anything else in between, nobody waits and nobody was admitted. */
  lemma {:induction false} StopDrains(s: State, events: seq<Event>)
    requires s.f.stopping && forall k :: k in s.parked ==> Wake(k) in events
    ensures Run(s, events).parked == map[] && Run(s, events).admitted == s.admitted
  {
    DrainRun(s, events);
  }

  // ---- The object -------------------------------------------------------------------------

  datatype Outcome = Admitted | Full | Stopping | Parked

  /** A newcomer ends up with the slot or parked on its own ticket. */
  lemma Arrives(s: State, t: Thread, background: bool)
    requires Core(s) && Outside(s, t) && !s.f.stopping
    ensures var u := Recheck(Enqueue(s, t, background), s.f.next);
            && (s.f.next in u.parked ==> u.parked[s.f.next] == Waiter(t, background) && u.holder != Some(t))
            && (s.f.next !in u.parked ==> u.holder == Some(t) && Outside(u.(holder := None), t))
  {
  }

  /** ServeScheduler. Each method is one stretch of code under the mutex; the
      ghost state says who is where. */
  class ServeScheduler {
    var next: Ticket
    var serving: Ticket
    var active: bool
    var waiting: int
    const maxWaiting: int
    var stopping: bool
    var interactive: int
    ghost var state: State

    ghost function View(): Fields
      reads this
    {
      Fields(next, serving, active, waiting, maxWaiting, stopping, interactive)
    }

    ghost predicate Valid()
      reads this
    {
      Inv(state) && state.f == View()
    }

    constructor (limit: nat)
      ensures Valid() && state == Initial(limit)
    {
      next, serving, active, waiting, stopping, interactive := 0, 0, false, 0, false, 0;
      maxWaiting := limit;
      state := Initial(limit);
    }

    /** serve_scheduler_acquire up to its return or its first wait. */
    method Acquire(ghost thread: Thread, background: bool) returns (r: Outcome, ticket: Ticket)
      requires Valid() && Outside(state, thread)
      modifies this
      ensures Valid() && state == Next(old(state), Event.Acquire(thread, background))
      ensures r == Admitted <==> state.holder == Some(thread)
      ensures r == Parked ==> ticket in state.parked && state.parked[ticket] == Waiter(thread, background)
      ensures r == Stopping <==> old(stopping)
      ensures r == Full || r == Stopping ==> state == old(state)
      ensures r == Full <==> old(!stopping && (state.holder.Some? || state.parked != map[])
                                 && |state.parked| >= maxWaiting)
    {
      ghost var before := state;
      NextKeepsInv(before, Event.Acquire(thread, background));
      RefusedExactly(before, thread, background);
      NobodyParked(before.parked);
      ticket := next;
      if stopping { return Stopping, ticket; }
      if (active || waiting != 0) && waiting >= maxWaiting { return Full, ticket; }
      Arrives(before, thread, background);
      r := Join(thread, background);
    }

    /** Takes the next ticket and looks once. */
    method Join(ghost thread: Thread, background: bool) returns (r: Outcome)
      requires state.f == View() && !stopping
      modifies this
      ensures state == Recheck(Enqueue(old(state), thread, background), old(next)) && state.f == View()
      ensures r == if old(next) in state.parked then Parked else Admitted
    {
      var ticket := next;
      next := next + 1;
      waiting := waiting + 1;
      if !background { interactive := interactive + 1; }
      state := Enqueue(state, thread, background);
      r := Look(ticket, background);
    }

    /** One test of the wait loop and, when it ends, the code after it. */
    method Look(ticket: Ticket, background: bool) returns (r: Outcome)
      requires ticket in state.parked && state.parked[ticket].background == background
      requires state.f == View()
      modifies this
      ensures state == Recheck(old(state), ticket) && state.f == View()
      ensures r == if ticket in state.parked then Parked else if old(stopping) then Stopping else Admitted
      ensures old(Inv(state)) ==> Valid()
    {
      if Inv(state) { RecheckKeepsCore(state, ticket); }
      if !stopping && (active || ticket != serving || (background && interactive > 0)) {
        state := Recheck(state, ticket);
        return Parked;
      }
      waiting := waiting - 1;
      if !background { interactive := interactive - 1; }
      state := Recheck(state, ticket);
      if stopping { return Stopping; }
      active := true;
      serving := serving + 1;
      r := Admitted;
    }

    /** serve_scheduler_release; the broadcast wakes every sleeper. */
    method Release()
      requires Valid() && active
      modifies this
      ensures Valid() && state == Next(old(state), Event.Release)
    {
      NextKeepsInv(state, Event.Release);
      active := false;
      state := Next(state, Event.Release);
    }

    /** serve_scheduler_try_idle. */
    method TryIdle(ghost thread: Thread) returns (acquired: bool)
      requires Valid() && Outside(state, thread)
      modifies this
      ensures Valid() && state == Next(old(state), Event.TryIdle(thread))
      ensures acquired <==> state.holder == Some(thread)
      ensures acquired <==> old(!stopping && state.holder.None? && state.parked == map[])
    {
      IdleExactly(state, thread);
      NextKeepsInv(state, Event.TryIdle(thread));
      state := Next(state, Event.TryIdle(thread));
      acquired := !stopping && !active && waiting == 0;
      if acquired { active := true; }
    }

    /** The shutdown request. */
    method Shutdown()
      requires Valid()
      modifies this
      ensures Valid() && state == Next(old(state), Event.Stop)
    {
      NextKeepsInv(state, Event.Stop);
      stopping := true;
      state := Next(state, Event.Stop);
    }
  }
}
