/** copy and undo-copy with a receipt (command_copy in src/samosa_fs.c), as a
    state machine over directory entries and inodes. An attempt may be cut after
    any system call, any call may fail, and the files may be edited from outside
    between attempts. A failed look at the destination or the receipt counts as
    absence, as in the source; the results say exactly what that costs. */
module CopyProtocol {
  import opened Basics

  type Ino = nat
  type Pid = nat
  datatype File = Regular(bytes: seq<nat>) | Other

  /** The names an operation works on: destination, receipt (what opening it
      without following links yields), source, the partial copies of each process;
      `elsewhere` are inodes linked under other names. */
  datatype Disk = Disk(dst: Option<Ino>, receipt: Option<Ino>, src: Option<Ino>, partial: map<Pid, Ino>,
                       elsewhere: set<Ino>, files: map<Ino, File>)

  /** What the caller expects, and the content hash. */
  datatype Request = Request(digest: seq<nat> -> nat, hash: nat, size: nat, ino: Ino)

  datatype Mode = Copy | Undo

  datatype Reply = Applied(already: bool) | Refused

  datatype Step =
    | StatDst                        // lock held; look up the destination
    | OpenReceipt(saw: Option<Ino>)  // with what the look at the destination found
    | ReadReceipt(saw: Option<Ino>)  // check the content of the opened receipt
    | OpenSource
    | Stage                          // create the partial file
    | Fill(done: nat)                // bytes copied so far
    | Publish                        // rename the partial file to the receipt
    | Link                           // link the receipt to the destination
    | UnlinkDst
    | UnlinkReceipt(already: bool)
    | Cleanup                        // remove the partial file after a failure
    | Done(reply: Reply)

  datatype Process = Idle | Running(mode: Mode, pid: Pid, at: Step)

  datatype State = State(disk: Disk, process: Process)

  /** How the next system call turns out: it fails; it takes effect but the sync after
      it fails; or it succeeds, a write taking `size` bytes and a create handing out
      the inode `ino`. */
  datatype Outcome = Fails | Unsynced | Succeeds(size: nat, ino: Ino)

  datatype Event =
    | Begin(mode: Mode, pid: Pid)
    | Call(outcome: Outcome)
    | Crash
    | Edit(disk: Disk)               // anything, but only between attempts

  // ---- Observations ---------------------------------------------------------------

  predicate IsReceipt(r: Request, d: Disk, i: Ino) {
    i in d.files && d.files[i].Regular? && r.digest(d.files[i].bytes) == r.hash
  }

  predicate SourceOk(r: Request, d: Disk) {
    && d.src.Some? && d.src.value == r.ino && d.src.value in d.files
    && d.files[d.src.value].Regular? && |d.files[d.src.value].bytes| == r.size
  }

  function SourceBytes(d: Disk): seq<nat> {
    if d.src.Some? && d.src.value in d.files && d.files[d.src.value].Regular? then d.files[d.src.value].bytes else []
  }

  /** An inode number the file system may hand out: linked under no name. */
  predicate Unused(d: Disk, i: Ino) {
    && d.dst != Some(i) && d.receipt != Some(i) && d.src != Some(i)
    && i !in d.partial.Values && i !in d.elsewhere
  }

  predicate Staged(d: Disk, pid: Pid) {
    pid in d.partial && d.partial[pid] in d.files && d.files[d.partial[pid]].Regular?
  }

  // ---- One system call ----------------------------------------------------------------

  /** What an attempt does that has opened no receipt. */
  function WithoutReceipt(mode: Mode, saw: Option<Ino>): Step {
    if mode == Undo then Done(if saw.None? then Applied(true) else Refused)
    else if saw.Some? then Done(Refused)
    else OpenSource
  }

  /** What it does with a receipt of the expected content, inode `a`. */
  function WithReceipt(mode: Mode, saw: Option<Ino>, a: Ino): Step {
    if saw.None? then (if mode == Undo then UnlinkReceipt(true) else Link)
    else if saw.value != a then Done(Refused)
    else if mode == Undo then UnlinkDst
    else Done(Applied(true))
  }

  function Least(a: nat, b: nat): nat { if a < b then a else b }

  function Advance(r: Request, d: Disk, mode: Mode, pid: Pid, at: Step, outcome: Outcome): (Disk, Step) {
    match at
    case StatDst => (d, OpenReceipt(if outcome.Fails? then None else d.dst))
    case OpenReceipt(saw) =>
      (d, if outcome.Fails? || d.receipt.None? then WithoutReceipt(mode, saw) else ReadReceipt(saw))
    case ReadReceipt(saw) =>
      if outcome.Fails? || d.receipt.None? || !IsReceipt(r, d, d.receipt.value) then (d, Done(Refused))
      else (d, WithReceipt(mode, saw, d.receipt.value))
    case OpenSource => (d, if outcome.Succeeds? && SourceOk(r, d) then Stage else Done(Refused))
    case Stage =>
      if outcome.Succeeds? && pid !in d.partial && Unused(d, outcome.ino) then
        (d.(partial := d.partial[pid := outcome.ino], files := d.files[outcome.ino := Regular([])]), Fill(0))
      else (d, Done(Refused))
    case Fill(done) =>
      if !outcome.Succeeds? || outcome.size == 0 || !Staged(d, pid) then (d, Cleanup)
      else
        var source, copy := SourceBytes(d), d.files[d.partial[pid]].bytes;
        if done < |source| then
          var n := Least(outcome.size, |source| - done);
          (d.(files := d.files[d.partial[pid] := Regular(copy + source[done..done + n])]), Fill(done + n))
        else (d, if done == r.size && r.digest(source) == r.hash then Publish else Cleanup)
    case Publish =>
      if outcome.Fails? || pid !in d.partial then (d, Cleanup)
      else (d.(receipt := Some(d.partial[pid]), partial := d.partial - {pid}),
            if outcome.Succeeds? then Link else Cleanup)
    case Link =>
      if outcome.Fails? || d.dst.Some? || d.receipt.None? then (d, Done(Refused))
      else (d.(dst := d.receipt), Done(if outcome.Succeeds? then Applied(false) else Refused))
    case UnlinkDst =>
      if outcome.Fails? then (d, Done(Refused))
      else (d.(dst := None), if outcome.Succeeds? then UnlinkReceipt(false) else Done(Refused))
    case UnlinkReceipt(already) =>
      if outcome.Fails? then (d, Done(Refused))
      else (d.(receipt := None), Done(if outcome.Succeeds? then Applied(already) else Refused))
    case Cleanup => (if !outcome.Fails? then d.(partial := d.partial - {pid}) else d, Done(Refused))
    case Done(reply) => (d, at)
  }

  function Next(r: Request, s: State, e: Event): State {
    match e
    case Begin(mode, pid) => if s.process.Idle? then s.(process := Running(mode, pid, StatDst)) else s
    case Call(outcome) =>
      if s.process.Idle? then s
      else
        var (d, at) := Advance(r, s.disk, s.process.mode, s.process.pid, s.process.at, outcome);
        State(d, s.process.(at := at))
    case Crash => s.(process := Idle)
    case Edit(disk) => if s.process.Idle? then s.(disk := disk) else s
  }

  function Run(r: Request, s: State, events: seq<Event>): State {
    if events == [] then s
    else Next(r, Run(r, s, events[..|events| - 1]), events[|events| - 1])
  }

  // ---- Failed reads -------------------------------------------------------------------

  /** What failed reads of the attempt under way have taken for absent although it was
      there. */
  datatype Missed = Missed(dst: bool, receipt: bool)

  const Nothing: Missed := Missed(false, false)

  function MissAt(d: Disk, at: Step, outcome: Outcome, m: Missed): Missed {
    match at
    case StatDst => m.(dst := outcome.Fails? && d.dst.Some?)
    case OpenReceipt(_) => m.(receipt := outcome.Fails? && d.receipt.Some?)
    case _ => m
  }

  function Miss(s: State, e: Event, m: Missed): Missed {
    if s.process.Idle? then (if e.Begin? then Nothing else m)
    else if e.Call? then MissAt(s.disk, s.process.at, e.outcome, m)
    else m
  }

  function MissedIn(r: Request, s: State, events: seq<Event>): Missed {
    if events == [] then Nothing
    else
      var front := events[..|events| - 1];
      Miss(Run(r, s, front), events[|events| - 1], MissedIn(r, s, front))
  }

  // ---- What holds in the middle of an attempt ---------------------------------------

  /** The copy under way: its inode is this process's own, linked nowhere else. */
  predicate OwnsPartial(d: Disk, pid: Pid) {
    && Staged(d, pid)
    && d.dst != Some(d.partial[pid]) && d.receipt != Some(d.partial[pid]) && d.src != Some(d.partial[pid])
    && d.partial[pid] !in d.elsewhere
    && forall q :: q in d.partial && q != pid ==> d.partial[q] != d.partial[pid]
  }

  /** What the look at the destination found is there; what it did not find is absent
      or missed. */
  predicate Sight(d: Disk, saw: Option<Ino>, m: Missed) {
    if saw.Some? then d.dst == saw && !m.dst else (m.dst <==> d.dst.Some?)
  }

  /** The names that are there are those that failed reads have missed. */
  predicate Unseen(d: Disk, m: Missed) {
    (m.dst <==> d.dst.Some?) && (m.receipt <==> d.receipt.Some?)
  }

  predicate StepInv(r: Request, d: Disk, mode: Mode, pid: Pid, at: Step, m: Missed) {
    match at
    case StatDst => m == Nothing
    case OpenReceipt(saw) => !m.receipt && Sight(d, saw, m)
    case ReadReceipt(saw) => !m.receipt && Sight(d, saw, m) && d.receipt.Some?
    case OpenSource => mode == Copy && Unseen(d, m)
    case Stage => mode == Copy && Unseen(d, m) && SourceOk(r, d)
    case Fill(done) =>
      && mode == Copy && Unseen(d, m) && SourceOk(r, d) && OwnsPartial(d, pid)
      && done <= |SourceBytes(d)| && d.files[d.partial[pid]].bytes == SourceBytes(d)[..done]
    case Publish => mode == Copy && Unseen(d, m) && OwnsPartial(d, pid) && IsReceipt(r, d, d.partial[pid])
    case Link => mode == Copy && (m.dst <==> d.dst.Some?) && d.receipt.Some? && IsReceipt(r, d, d.receipt.value)
    case UnlinkDst =>
      mode == Undo && m == Nothing && d.receipt.Some? && d.dst == d.receipt && IsReceipt(r, d, d.receipt.value)
    case UnlinkReceipt(already) =>
      && mode == Undo && (m.dst <==> d.dst.Some?) && !m.receipt
      && d.receipt.Some? && IsReceipt(r, d, d.receipt.value)
    case Cleanup => mode == Copy && (m.dst <==> d.dst.Some?)
    case Done(reply) =>
      reply.Applied? ==>
        if mode == Copy then d.dst.Some? && d.dst == d.receipt && IsReceipt(r, d, d.dst.value) else Unseen(d, m)
  }

  predicate Inv(r: Request, s: State, m: Missed) {
    s.process.Running? ==> StepInv(r, s.disk, s.process.mode, s.process.pid, s.process.at, m)
  }

  lemma {:induction false} AdvanceKeepsInv(r: Request, d: Disk, mode: Mode, pid: Pid, at: Step, outcome: Outcome,
                                           m: Missed)
    requires StepInv(r, d, mode, pid, at, m)
    ensures var (d', at') := Advance(r, d, mode, pid, at, outcome);
            StepInv(r, d', mode, pid, at', MissAt(d, at, outcome, m))
  {
    match at {
      case Fill(done) => FillKeepsInv(r, d, mode, pid, done, outcome, m);
      case _ =>
    }
  }

  lemma {:induction false} FillKeepsInv(r: Request, d: Disk, mode: Mode, pid: Pid, done: nat, outcome: Outcome,
                                        m: Missed)
    requires StepInv(r, d, mode, pid, Fill(done), m)
    ensures var (d', at') := Advance(r, d, mode, pid, Fill(done), outcome); StepInv(r, d', mode, pid, at', m)
  {
    var source := SourceBytes(d);
    if outcome.Succeeds? && outcome.size > 0 {
      if done < |source| {
        var n := Least(outcome.size, |source| - done);
        assert source[..done] + source[done..done + n] == source[..done + n];
      } else {
        assert source[..done] == source;
      }
    }
  }

  /** In every reachable state, whatever has been cut, failed or edited. */
  lemma {:induction false} RunKeepsInv(r: Request, s: State, events: seq<Event>)
    requires s.process.Idle?
    ensures Inv(r, Run(r, s, events), MissedIn(r, s, events))
  {
    if events != [] {
      var front, e := events[..|events| - 1], events[|events| - 1];
      var before := Run(r, s, front);
      RunKeepsInv(r, s, front);
      if e.Call? && before.process.Running? {
        AdvanceKeepsInv(r, before.disk, before.process.mode, before.process.pid, before.process.at, e.outcome,
                        MissedIn(r, s, front));
      }
    }
  }

  // ---- Safety -----------------------------------------------------------------------------

  /** What one system call may do to the disk: source and unrelated names stay;
      no file changes except the process's own partial copy; a destination is
      removed only if it is the receipt with the expected content, and is
      created only where there was none, as such a receipt. */
  ghost predicate Harmless(r: Request, d: Disk, d': Disk, pid: Pid) {
    && d'.src == d.src && d'.elsewhere == d.elsewhere
    && (forall q :: q != pid && q in d.partial ==> q in d'.partial && d'.partial[q] == d.partial[q])
    && (forall i :: i in d.files && !Unused(d, i) && !(pid in d.partial && i == d.partial[pid]) ==>
          i in d'.files && d'.files[i] == d.files[i])
    && (d'.dst != d.dst ==>
          if d.dst.Some? then d'.dst.None? && d.dst == d.receipt && IsReceipt(r, d, d.dst.value)
          else d'.dst == d'.receipt && IsReceipt(r, d', d'.dst.value))
  }

  lemma AdvanceHarmless(r: Request, d: Disk, mode: Mode, pid: Pid, at: Step, outcome: Outcome, m: Missed)
    requires StepInv(r, d, mode, pid, at, m)
    ensures Harmless(r, d, Advance(r, d, mode, pid, at, outcome).0, pid)
  {
  }

  /** Every system call of every attempt in every reachable state is harmless. */
  lemma {:induction false} CallsAreHarmless(r: Request, s: State, events: seq<Event>, outcome: Outcome)
    requires s.process.Idle?
    ensures var t := Run(r, s, events);
            t.process.Running? ==> Harmless(r, t.disk, Next(r, t, Call(outcome)).disk, t.process.pid)
  {
    RunKeepsInv(r, s, events);
    var t := Run(r, s, events);
    if t.process.Running? {
      AdvanceHarmless(r, t.disk, t.process.mode, t.process.pid, t.process.at, outcome, MissedIn(r, s, events));
    }
  }

  predicate NoEdits(events: seq<Event>) {
    forall k :: 0 <= k < |events| ==> !events[k].Edit?
  }

  /** A destination that is not this operation's receipt with the expected content. */
  predicate Foreign(r: Request, d: Disk) {
    d.dst.Some? && !(d.dst == d.receipt && IsReceipt(r, d, d.dst.value))
  }

  /** Whatever attempts do, a destination that is someone else's stays, with its content. */
  lemma {:induction false} ForeignStays(r: Request, s: State, events: seq<Event>)
    requires s.process.Idle? && Foreign(r, s.disk) && NoEdits(events)
    ensures var d, u := s.disk, Run(r, s, events).disk;
            && u.dst == d.dst && Foreign(r, u)
            && (d.dst.value in d.files ==> d.dst.value in u.files && u.files[d.dst.value] == d.files[d.dst.value])
  {
    if events != [] {
      var front, e := events[..|events| - 1], events[|events| - 1];
      var before := Run(r, s, front);
      ForeignStays(r, s, front);
      RunKeepsInv(r, s, front);
      if e.Call? && before.process.Running? {
        AdvanceForeign(r, before.disk, before.process.mode, before.process.pid, before.process.at, e.outcome,
                       MissedIn(r, s, front));
      }
    }
  }

  lemma AdvanceForeign(r: Request, d: Disk, mode: Mode, pid: Pid, at: Step, outcome: Outcome, m: Missed)
    requires StepInv(r, d, mode, pid, at, m) && Foreign(r, d)
    ensures var u := Advance(r, d, mode, pid, at, outcome).0;
            && u.dst == d.dst && Foreign(r, u)
            && (d.dst.value in d.files ==> d.dst.value in u.files && u.files[d.dst.value] == d.files[d.dst.value])
  {
  }

  /** Event `k` goes past a destination that a failed look has missed: it creates a
      partial copy or removes the receipt. */
  predicate Oversteps(r: Request, s: State, events: seq<Event>, k: nat)
    requires k < |events|
  {
    var t, e := Run(r, s, events[..k]), events[k];
    && t.process.Running? && e.Call? && MissedIn(r, s, events[..k]).dst
    && Takes(t.disk, t.process.pid, t.process.at, e.outcome)
  }

  /** A call that goes through and creates a partial copy or removes the receipt. */
  predicate Takes(d: Disk, pid: Pid, at: Step, outcome: Outcome) {
    || (at.UnlinkReceipt? && !outcome.Fails?)
    || (at == Stage && outcome.Succeeds? && pid !in d.partial && Unused(d, outcome.ino))
  }

  ghost predicate Untouched(r: Request, s: State, events: seq<Event>) {
    forall k: nat :: k <= |events| ==> Run(r, s, events[..k]).disk == s.disk
  }

  /** Attempts leave a disk whose destination is someone else's file wholly untouched if
      and only if none of them, having missed it, creates a partial copy or removes the
      receipt; and an attempt that has not missed it gets no further than a refusal. */
  lemma {:induction false} ForeignUntouched(r: Request, s: State, events: seq<Event>)
    requires s.process.Idle? && Foreign(r, s.disk) && NoEdits(events)
    ensures Untouched(r, s, events) <==> forall k: nat :: k < |events| ==> !Oversteps(r, s, events, k)
    ensures var t := Run(r, s, events);
            t.process.Running? && !MissedIn(r, s, events).dst ==> Reading(t.process.at) || t.process.at == Done(Refused)
  {
    if events != [] {
      var front, e := events[..|events| - 1], events[|events| - 1];
      var before := Run(r, s, front);
      ForeignUntouched(r, s, front);
      ForeignStays(r, s, front);
      RunKeepsInv(r, s, front);
      UntouchedFront(r, s, events);
      assert events[..|front|] == front;
      if Untouched(r, s, front) {
        UntouchedAt(r, s, front);
        assert front[..|front|] == front && before.disk == s.disk;
        NextTouches(r, s, events);
      }
      if e.Call? && before.process.Running? {
        var d, p, m := before.disk, before.process, MissedIn(r, s, front);
        AdvanceReads(r, d, p.mode, p.pid, p.at, e.outcome, m);
      }
    }
  }

  /** With the disk still untouched an attempt is not past staging. */
  lemma {:induction false} UntouchedAt(r: Request, s: State, events: seq<Event>)
    requires s.process.Idle? && Foreign(r, s.disk) && NoEdits(events) && Untouched(r, s, events)
    ensures var t := Run(r, s, events); t.process.Running? ==> Early(t.process.at)
  {
    if events != [] {
      var front, e := events[..|events| - 1], events[|events| - 1];
      var before := Run(r, s, front);
      UntouchedFront(r, s, events);
      UntouchedAt(r, s, front);
      RunKeepsInv(r, s, front);
      if e.Call? && before.process.Running? {
        AdvanceEarly(r, before.disk, before.process.mode, before.process.pid, before.process.at, e.outcome,
                     MissedIn(r, s, front));
      }
    }
  }

  predicate Early(at: Step) { !at.Fill? && !at.Publish? && !at.Cleanup? }

  lemma AdvanceEarly(r: Request, d: Disk, mode: Mode, pid: Pid, at: Step, outcome: Outcome, m: Missed)
    requires StepInv(r, d, mode, pid, at, m) && Foreign(r, d) && Early(at)
    ensures var (u, next) := Advance(r, d, mode, pid, at, outcome); u == d ==> Early(next)
    ensures Advance(r, d, mode, pid, at, outcome).0 == d
            <==> !(m.dst && Takes(d, pid, at, outcome))
  {
  }

  lemma {:induction false} NextTouches(r: Request, s: State, events: seq<Event>)
    requires s.process.Idle? && NoEdits(events) && events != []
    requires var t := Run(r, s, events[..|events| - 1]);
             Foreign(r, t.disk) && (t.process.Running? ==> Early(t.process.at))
    ensures Run(r, s, events).disk == Run(r, s, events[..|events| - 1]).disk
            <==> !Oversteps(r, s, events, |events| - 1)
  {
    var front, e := events[..|events| - 1], events[|events| - 1];
    var t := Run(r, s, front);
    RunKeepsInv(r, s, front);
    if e.Call? && t.process.Running? {
      AdvanceEarly(r, t.disk, t.process.mode, t.process.pid, t.process.at, e.outcome, MissedIn(r, s, front));
    }
  }

  /** An attempt that has seen the destination only reads. */
  lemma AdvanceReads(r: Request, d: Disk, mode: Mode, pid: Pid, at: Step, outcome: Outcome, m: Missed)
    requires StepInv(r, d, mode, pid, at, m) && Foreign(r, d)
    requires !m.dst ==> Reading(at) || at == Done(Refused)
    ensures var (u, next) := Advance(r, d, mode, pid, at, outcome);
            !MissAt(d, at, outcome, m).dst ==> Reading(next) || next == Done(Refused)
  {
  }

  lemma {:induction false} UntouchedFront(r: Request, s: State, events: seq<Event>)
    requires events != []
    ensures var front := events[..|events| - 1];
            && (Untouched(r, s, events) <==> Untouched(r, s, front) && Run(r, s, events).disk == s.disk)
            && ((forall k: nat :: k < |events| ==> !Oversteps(r, s, events, k))
                <==> (forall k: nat :: k < |front| ==> !Oversteps(r, s, front, k))
                     && !Oversteps(r, s, events, |front|))
  {
    var front := events[..|events| - 1];
    assert events[..|front|] == front && events[..|events|] == events;
    forall k: nat | k <= |front|
      ensures events[..k] == front[..k]
      ensures k < |front| ==> (Oversteps(r, s, events, k) <==> Oversteps(r, s, front, k))
    {
      assert events[..k] == front[..k];
    }
    if Untouched(r, s, events) {
      forall k: nat | k <= |front|
        ensures Run(r, s, front[..k]).disk == s.disk
      {
        assert Run(r, s, events[..k]).disk == s.disk;
      }
    }
    if Untouched(r, s, front) && Run(r, s, events).disk == s.disk {
      forall k: nat | k <= |events|
        ensures Run(r, s, events[..k]).disk == s.disk
      {
        if k <= |front| { assert Run(r, s, front[..k]).disk == s.disk; }
      }
    }
  }

  predicate Reading(at: Step) { at.StatDst? || at.OpenReceipt? || at.ReadReceipt? }

  /** A copy that reports success has linked the receipt, with the expected content,
      to the destination. An undo that does has removed both, except for what its own
      failed reads have missed: that is still there. */
  lemma {:induction false} CompletionMeansDone(r: Request, s: State, events: seq<Event>)
    requires s.process.Idle?
    ensures var t, m := Run(r, s, events), MissedIn(r, s, events);
            Succeeded(t) ==>
              if t.process.mode == Copy
              then t.disk.dst.Some? && t.disk.dst == t.disk.receipt && IsReceipt(r, t.disk, t.disk.dst.value)
              else (t.disk.dst.None? <==> !m.dst) && (t.disk.receipt.None? <==> !m.receipt)
  {
    RunKeepsInv(r, s, events);
  }

  // ---- What success reports -----------------------------------------------------------

  /** The disk when the attempt under way began. */
  function Begun(r: Request, s: State, events: seq<Event>): Disk {
    if events == [] then s.disk
    else
      var front := events[..|events| - 1];
      var t := Run(r, s, front);
      if events[|events| - 1].Begin? && t.process.Idle? then t.disk else Begun(r, s, front)
  }

  /** A call of the attempt under way that was to change something, or to open the source,
      has failed or could not be synced. */
  predicate Faulted(r: Request, s: State, events: seq<Event>) {
    if events == [] then false
    else
      var front, e := events[..|events| - 1], events[|events| - 1];
      var p := Run(r, s, front).process;
      if e.Begin? && p.Idle? then false
      else Faulted(r, s, front) || (e.Call? && p.Running? && Working(p.at) && !e.outcome.Succeeds?)
  }

  predicate Working(at: Step) { !Reading(at) && !at.Done? }

  /** How far an attempt that began on `b` may have come. */
  predicate Since(b: Disk, d: Disk, mode: Mode, pid: Pid, at: Step, faulted: bool) {
    match at
    case UnlinkReceipt(already) => !faulted && if already then d == b else b.dst.Some? && d == b.(dst := None)
    case Fill(_) => !faulted && Staging(b, d, pid)
    case Publish => !faulted && Staging(b, d, pid)
    case Link => !faulted && d.dst == b.dst && d.src == b.src && d.partial == b.partial
    case Cleanup => true
    case Done(reply) =>
      reply.Applied? ==> !faulted && d.partial == b.partial && d.src == b.src && Reports(b, d, mode, reply.already)
    case _ => !faulted && d == b
  }

  predicate Staging(b: Disk, d: Disk, pid: Pid) {
    && d.dst == b.dst && d.src == b.src && pid !in b.partial
    && pid in d.partial && d.partial - {pid} == b.partial
  }

  /** `already` says that the destination was as asked for before. */
  predicate Reports(b: Disk, d: Disk, mode: Mode, already: bool) {
    if mode == Copy then (if already then d == b else b.dst.None? && d.dst.Some?)
    else if already then d == b || d == b.(receipt := None)
    else b.dst.Some? && d == b.(dst := None, receipt := None)
  }

  lemma {:induction false} AdvanceSince(r: Request, b: Disk, d: Disk, mode: Mode, pid: Pid, at: Step,
                                        outcome: Outcome, m: Missed, faulted: bool)
    requires StepInv(r, d, mode, pid, at, m) && Since(b, d, mode, pid, at, faulted)
    ensures var (u, next) := Advance(r, d, mode, pid, at, outcome);
            Since(b, u, mode, pid, next, faulted || (Working(at) && !outcome.Succeeds?))
  {
    match at {
      case Stage =>
        if outcome.Succeeds? && pid !in d.partial {
          assert d.partial[pid := outcome.ino] - {pid} == d.partial;
        }
      case _ =>
    }
  }

  lemma {:induction false} RunSince(r: Request, s: State, events: seq<Event>)
    requires s.process.Idle?
    ensures var t := Run(r, s, events);
            t.process.Running? ==>
              Since(Begun(r, s, events), t.disk, t.process.mode, t.process.pid, t.process.at, Faulted(r, s, events))
  {
    if events != [] {
      var front, e := events[..|events| - 1], events[|events| - 1];
      var t := Run(r, s, front);
      RunSince(r, s, front);
      RunKeepsInv(r, s, front);
      if e.Call? && t.process.Running? {
        AdvanceSince(r, Begun(r, s, front), t.disk, t.process.mode, t.process.pid, t.process.at, e.outcome,
                     MissedIn(r, s, front), Faulted(r, s, front));
      }
    }
  }

  /** An attempt reports success only when every call that was to change something went
      through and was synced; it has left no partial copy; and it reports `already` exactly
      when the destination was before as it was asked to be. */
  lemma {:induction false} SuccessIsEarned(r: Request, s: State, events: seq<Event>)
    requires s.process.Idle? && Succeeded(Run(r, s, events))
    ensures var b, t := Begun(r, s, events), Run(r, s, events);
            && !Faulted(r, s, events) && t.disk.partial == b.partial && t.disk.src == b.src
            && Reports(b, t.disk, t.process.mode, t.process.at.reply.already)
            && (t.process.at.reply.already <==> t.disk.dst == b.dst)
  {
    RunSince(r, s, events);
  }

  // ---- Recovery ----------------------------------------------------------------------------

  /** Nothing yet, a receipt waiting to be linked, or a finished copy. */
  predicate Healthy(r: Request, d: Disk) {
    if d.receipt.None? then d.dst.None?
    else IsReceipt(r, d, d.receipt.value) && (d.dst.None? || d.dst == d.receipt)
  }

  /** Event `k` removes or replaces the receipt of a destination that a failed look has
      missed. */
  predicate Orphans(r: Request, s: State, events: seq<Event>, k: nat)
    requires k < |events|
  {
    var t, e := Run(r, s, events[..k]), events[k];
    && t.process.Running? && e.Call? && MissedIn(r, s, events[..k]).dst
    && !e.outcome.Fails? && (t.process.at.UnlinkReceipt? || t.process.at.Publish?)
  }

  /** Left alone, an operation stays healthy however its attempts are cut, if and only
      if none of them orphans a destination; what they orphan stays orphaned. */
  lemma {:induction false} StaysHealthy(r: Request, s: State, events: seq<Event>)
    requires s.process.Idle? && Healthy(r, s.disk) && NoEdits(events)
    ensures Healthy(r, Run(r, s, events).disk) <==> forall k: nat :: k < |events| ==> !Orphans(r, s, events, k)
    ensures var u := Run(r, s, events).disk; Healthy(r, u) || Orphaned(u)
  {
    if events != [] {
      var front, e := events[..|events| - 1], events[|events| - 1];
      var before := Run(r, s, front);
      StaysHealthy(r, s, front);
      RunKeepsInv(r, s, front);
      assert events[..|front|] == front;
      forall k: nat | k < |front|
        ensures Orphans(r, s, events, k) <==> Orphans(r, s, front, k)
      {
        assert events[..k] == front[..k];
      }
      if e.Call? && before.process.Running? {
        AdvanceHealthy(r, before.disk, before.process.mode, before.process.pid, before.process.at, e.outcome,
                       MissedIn(r, s, front));
      }
      assert Healthy(r, Run(r, s, events).disk) <==> Healthy(r, before.disk) && !Orphans(r, s, events, |front|);
    }
  }

  predicate Orphaned(d: Disk) { d.dst.Some? && d.dst != d.receipt }

  lemma AdvanceHealthy(r: Request, d: Disk, mode: Mode, pid: Pid, at: Step, outcome: Outcome, m: Missed)
    requires StepInv(r, d, mode, pid, at, m) && (Healthy(r, d) || Orphaned(d))
    ensures var u := Advance(r, d, mode, pid, at, outcome).0;
            && (Healthy(r, u) || Orphaned(u))
            && (Healthy(r, u)
                <==> Healthy(r, d) && !(m.dst && !outcome.Fails? && (at.UnlinkReceipt? || at.Publish?)))
  {
  }


  lemma {:induction false} RunConcat(r: Request, s: State, a: seq<Event>, b: seq<Event>)
    ensures Run(r, s, a + b) == Run(r, Run(r, s, a), b)
  {
    if b == [] {
      assert a + b == a;
    } else {
      var front, e := b[..|b| - 1], b[|b| - 1];
      RunConcat(r, s, a, front);
      assert (a + b)[..|a + b| - 1] == a + front;
    }
  }

  lemma {:induction false} RunBegin(r: Request, s: State, mode: Mode, pid: Pid)
    requires s.process.Idle?
    ensures Run(r, s, [Begin(mode, pid)]) == s.(process := Running(mode, pid, StatDst))
  {
    assert [Begin(mode, pid)][..0] == [];
  }

  /** A call that succeeds: a write takes something, a create hands out an inode that
      was free when the attempt began. */
  predicate Smooth(d: Disk, e: Event) {
    e.Call? && e.outcome.Succeeds? && e.outcome.size > 0 && Unused(d, e.outcome.ino)
  }

  predicate AllSmooth(d: Disk, calls: seq<Event>) {
    forall k :: 0 <= k < |calls| ==> Smooth(d, calls[k])
  }

  predicate Succeeded(t: State) {
    t.process.Running? && t.process.at.Done? && t.process.at.reply.Applied?
  }

  // ---- What a failed read costs ---------------------------------------------------------

  lemma {:induction false} RunSnoc(r: Request, s: State, events: seq<Event>, e: Event)
    ensures Run(r, s, events + [e]) == Next(r, Run(r, s, events), e)
  {
    assert (events + [e])[..|events|] == events;
  }

  function BlindUndo(pid: Pid): seq<Event> {
    [Begin(Undo, pid)] + [Call(Fails)] + [Call(Succeeds(0, 0))] + [Call(Succeeds(0, 0))] + [Call(Succeeds(0, 0))]
  }

  /** An undo whose look at the destination fails removes the receipt, reports success
      and leaves the destination, whoever it belongs to. */
  lemma {:induction false} FailedStatDropsReceipt(r: Request, s: State, pid: Pid)
    requires s.process.Idle? && s.disk.dst.Some? && s.disk.receipt.Some? && IsReceipt(r, s.disk, s.disk.receipt.value)
    ensures var t := Run(r, s, BlindUndo(pid)); Succeeded(t) && t.disk == s.disk.(receipt := None)
  {
    var ok := Call(Succeeds(0, 0));
    RunBegin(r, s, Undo, pid);
    RunSnoc(r, s, [Begin(Undo, pid)], Call(Fails));
    RunSnoc(r, s, [Begin(Undo, pid)] + [Call(Fails)], ok);
    RunSnoc(r, s, [Begin(Undo, pid)] + [Call(Fails)] + [ok], ok);
    RunSnoc(r, s, [Begin(Undo, pid)] + [Call(Fails)] + [ok] + [ok], ok);
  }

  /** An undo that fails to open a receipt waiting to be linked reports success and
      leaves it there. */
  lemma {:induction false} FailedOpenKeepsReceipt(r: Request, s: State, pid: Pid)
    requires s.process.Idle? && s.disk.dst.None? && s.disk.receipt.Some?
    ensures var t := Run(r, s, [Begin(Undo, pid)] + [Call(Succeeds(0, 0))] + [Call(Fails)]);
            Succeeded(t) && t.disk == s.disk
  {
    var ok := Call(Succeeds(0, 0));
    RunBegin(r, s, Undo, pid);
    RunSnoc(r, s, [Begin(Undo, pid)], ok);
    RunSnoc(r, s, [Begin(Undo, pid)] + [ok], Call(Fails));
  }

  /** A finished copy and a stranger's file on which an undo does just that. */
  lemma {:induction false} UndoCanMislead() returns (r: Request, finished: State, strange: State)
    ensures finished.process.Idle? && Healthy(r, finished.disk) && strange.process.Idle? && Foreign(r, strange.disk)
    ensures var t := Run(r, finished, BlindUndo(1)); Succeeded(t) && t.disk.dst.Some? && !Healthy(r, t.disk)
    ensures var t := Run(r, strange, BlindUndo(1)); Succeeded(t) && t.disk != strange.disk
  {
    r := Request((bytes: seq<nat>) => 0, 0, 0, 5);
    var d := Disk(Some(1), Some(1), None, map[], {}, map[1 := Regular([]), 2 := Other]);
    finished, strange := State(d, Idle), State(d.(dst := Some(2)), Idle);
    FailedStatDropsReceipt(r, finished, 1);
    FailedStatDropsReceipt(r, strange, 1);
  }

  // ---- Undo: five calls at most ---------------------------------------------------------

  /** An undo that began on the healthy disk `d`, with `left` calls to go at most. */
  ghost predicate Undoing(r: Request, d: Disk, pid: Pid, t: State, left: nat) {
    && t.process.Running? && t.process.mode == Undo && t.process.pid == pid
    && match t.process.at
       case StatDst => t.disk == d && left >= 5
       case OpenReceipt(saw) => t.disk == d && saw == d.dst && left >= 4
       case ReadReceipt(saw) => t.disk == d && saw == d.dst && d.receipt.Some? && left >= 3
       case UnlinkDst => t.disk == d && d.receipt.Some? && left >= 2
       case UnlinkReceipt(_) => t.disk == d.(dst := None) && left >= 1
       case Done(reply) => t.disk == d.(dst := None, receipt := None) && reply.Applied?
       case _ => false
  }

  lemma UndoStep(r: Request, d: Disk, pid: Pid, t: State, left: nat, e: Event)
    requires Healthy(r, d) && Undoing(r, d, pid, t, left) && Smooth(d, e)
    ensures Undoing(r, d, pid, Next(r, t, e), if left > 0 then left - 1 else 0)
  {
  }

  lemma {:induction false} UndoRuns(r: Request, d: Disk, pid: Pid, t: State, left: nat, calls: seq<Event>)
    requires Healthy(r, d) && Undoing(r, d, pid, t, left) && AllSmooth(d, calls)
    ensures Undoing(r, d, pid, Run(r, t, calls), if left > |calls| then left - |calls| else 0)
  {
    if calls != [] {
      var front, e := calls[..|calls| - 1], calls[|calls| - 1];
      UndoRuns(r, d, pid, t, left, front);
      UndoStep(r, d, pid, Run(r, t, front), if left > |front| then left - |front| else 0, e);
    }
  }

  /** From any healthy disk, wherever the last attempt stopped, every undo whose calls
      succeed has removed destination and receipt, and nothing else, after five calls. */
  lemma {:induction false} UndoCompletes(r: Request, s: State, pid: Pid, calls: seq<Event>)
    requires s.process.Idle? && Healthy(r, s.disk) && AllSmooth(s.disk, calls) && |calls| >= 5
    ensures var t := Run(r, s, [Begin(Undo, pid)] + calls);
            Succeeded(t) && t.disk == s.disk.(dst := None, receipt := None)
  {
    RunConcat(r, s, [Begin(Undo, pid)], calls);
    RunBegin(r, s, Undo, pid);
    UndoRuns(r, s.disk, pid, s.(process := Running(Undo, pid, StatDst)), 5, calls);
  }

  // ---- Copy: seven calls more than there are bytes, at most -----------------------------------

  /** What a first copy needs: the source as scanned and a free name. */
  predicate CanStage(r: Request, d: Disk, pid: Pid) {
    SourceOk(r, d) && r.digest(SourceBytes(d)) == r.hash && pid !in d.partial
  }

  /** A copy that began on the healthy disk `d`, with `left` calls to go at most. */
  ghost predicate Copying(r: Request, d: Disk, pid: Pid, t: State, left: nat) {
    && t.process.Running? && t.process.mode == Copy && t.process.pid == pid && Inv(r, t, Nothing)
    && (d.receipt.None? ==> CanStage(r, d, pid))
    && match t.process.at
       case StatDst => t.disk == d && left >= |SourceBytes(d)| + 7
       case OpenReceipt(saw) => t.disk == d && saw == d.dst && left >= |SourceBytes(d)| + 6
       case ReadReceipt(saw) => t.disk == d && saw == d.dst && d.receipt.Some? && left >= 2
       case OpenSource => t.disk == d && d.receipt.None? && left >= |SourceBytes(d)| + 5
       case Stage => t.disk == d && d.receipt.None? && left >= |SourceBytes(d)| + 4
       case Fill(done) =>
         d.receipt.None? && SourceBytes(t.disk) == SourceBytes(d) && left >= |SourceBytes(d)| - done + 3
       case Publish => d.receipt.None? && left >= 2
       case Link => (d.receipt.Some? ==> t.disk == d) && left >= 1
       case Done(reply) => reply.Applied? && (d.receipt.Some? ==> t.disk == d.(dst := d.receipt))
       case _ => false
  }

  lemma {:induction false} CopyStep(r: Request, d: Disk, pid: Pid, t: State, left: nat, e: Event)
    requires Healthy(r, d) && Copying(r, d, pid, t, left) && Smooth(d, e)
    ensures Copying(r, d, pid, Next(r, t, e), if left > 0 then left - 1 else 0)
  {
    AdvanceKeepsInv(r, t.disk, Copy, pid, t.process.at, e.outcome, Nothing);
  }

  lemma {:induction false} CopyRuns(r: Request, d: Disk, pid: Pid, t: State, left: nat, calls: seq<Event>)
    requires Healthy(r, d) && Copying(r, d, pid, t, left) && AllSmooth(d, calls)
    ensures Copying(r, d, pid, Run(r, t, calls), if left > |calls| then left - |calls| else 0)
  {
    if calls != [] {
      var front, e := calls[..|calls| - 1], calls[|calls| - 1];
      CopyRuns(r, d, pid, t, left, front);
      CopyStep(r, d, pid, Run(r, t, front), if left > |front| then left - |front| else 0, e);
    }
  }

  /** From any healthy disk every copy whose calls succeed, whatever its writes take,
      ends with the receipt linked to the destination: it resumes from a receipt left
      by a cut attempt, and otherwise stages a new one. It needs at most seven calls more
      than the source has bytes. */
  lemma {:induction false} CopyCompletes(r: Request, s: State, pid: Pid, calls: seq<Event>)
    requires s.process.Idle? && Healthy(r, s.disk) && (s.disk.receipt.Some? || CanStage(r, s.disk, pid))
    requires AllSmooth(s.disk, calls) && |calls| >= |SourceBytes(s.disk)| + 7
    ensures var t := Run(r, s, [Begin(Copy, pid)] + calls);
            && Succeeded(t)
            && t.disk.dst.Some? && t.disk.dst == t.disk.receipt && IsReceipt(r, t.disk, t.disk.dst.value)
            && (s.disk.receipt.Some? ==> t.disk == s.disk.(dst := s.disk.receipt))
  {
    RunConcat(r, s, [Begin(Copy, pid)], calls);
    RunBegin(r, s, Copy, pid);
    CopyRuns(r, s.disk, pid, s.(process := Running(Copy, pid, StatDst)), |SourceBytes(s.disk)| + 7, calls);
  }
}
