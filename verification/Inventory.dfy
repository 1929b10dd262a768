/** The bounded inventory walk of src/samosa_fs.c over any tree, with the cancel signal
    and the end of the time allowed arriving at any two checks, or never. */
module Inventory {
  import opened Basics

  type Path = seq<string>

  /** A directory entry: what its name matches, and what lstat says of it. Reading a
      directory gives the first `given` of its entries; if it has more, readdir then
      fails, which the walk takes for the end. */
  datatype Node =
    Node(name: string, overlong: bool, hidden: bool, generated: bool, excluded: bool, store: bool, what: What)

  datatype What =
    | Unstattable | Symlink | Special
    | Regular(size: nat)
    | Directory(readable: bool, python: bool, sameDevice: bool, children: seq<Node>, given: nat)

  datatype Policy =
    Policy(includeHidden: bool, crossFilesystems: bool, maxDepth: nat, maxFiles: nat, maxDirectories: nat,
           maxFileBytes: nat, maxEligibleBytes: nat)

  datatype Reason =
    | Unreadable | SymlinkSkip | HiddenExcluded | GeneratedTree | UserExclusion | PythonEnvironment | DirectoryLimit
    | DepthLimit | CrossFilesystem | NotRegular | FileLimit | FileSizeLimit | EligibleBytesLimit

  datatype Limit = NoLimit | Deadline | MaxDirectories | MaxDepth | MaxFiles | MaxFileBytes | MaxEligibleBytes

  /** What a walk does, in order: two kinds of record it writes out, and two counts
      it keeps, of directories come across and of directories opened. */
  datatype Mark =
    | File(path: Path, size: nat)
    | Skip(path: Path, reason: Reason)
    | Seen(path: Path)
    | Entered(path: Path)

  predicate Written(m: Mark) { m.File? || m.Skip? }

  /** The records among the marks. */
  function Records(marks: seq<Mark>): seq<Mark> {
    if marks == [] then []
    else
      var front, last := Records(marks[..|marks| - 1]), marks[|marks| - 1];
      if Written(last) then front + [last] else front
  }

  /** How many entries reading a directory gives. */
  function Given(node: Node): (n: nat)
    requires node.what.Directory?
    ensures n <= |node.what.children|
  {
    if node.what.given < |node.what.children| then node.what.given else |node.what.children|
  }

  // ---- What a walk without budgets and interruptions does -----------------------------

  /** Why an entry is skipped by its name or its kind, if it is. */
  function NameSkip(policy: Policy, child: Node): Option<Reason> {
    if child.what.Unstattable? then Some(Unreadable)
    else if child.what.Symlink? then Some(SymlinkSkip)
    else if child.hidden && !policy.includeHidden then Some(HiddenExcluded)
    else if child.generated then Some(GeneratedTree)
    else if child.excluded then Some(UserExclusion)
    else if child.what.Directory? && child.store then Some(GeneratedTree)
    else if child.what.Directory? && child.what.python then Some(PythonEnvironment)
    else if child.what.Special? then Some(NotRegular)
    else None
  }

  /** A directory walked into. */
  function Listing(policy: Policy, node: Node, path: Path, depth: nat): seq<Mark>
    decreases node, 1, 0
  {
    if !node.what.Directory? then []
    else if !node.what.readable then [Skip(path, Unreadable)]
    else [Entered(path)] + Entries(policy, node, path, depth, Given(node))
  }

  /** Its first `count` entries. */
  function Entries(policy: Policy, node: Node, path: Path, depth: nat, count: nat): seq<Mark>
    requires node.what.Directory? && count <= |node.what.children|
    decreases node, 0, count
  {
    if count == 0 then []
    else Entries(policy, node, path, depth, count - 1) + Entry(policy, node.what.children[count - 1], path, depth)
  }

  /** One entry of the directory at `path`; a path too long to write is recorded
      under its directory. */
  function Entry(policy: Policy, child: Node, path: Path, depth: nat): seq<Mark>
    decreases child, 2, 0
  {
    var place := path + [child.name];
    if child.overlong then [Skip(path, Unreadable)]
    else if NameSkip(policy, child).Some? then [Skip(place, NameSkip(policy, child).value)]
    else if child.what.Regular? then
      [if child.what.size > policy.maxFileBytes then Skip(place, FileSizeLimit) else File(place, child.what.size)]
    else [Seen(place)] + Inside(policy, child, place, depth)
  }

  /** A directory that has been counted. */
  function Inside(policy: Policy, child: Node, place: Path, depth: nat): seq<Mark>
    decreases child, 1, 1
  {
    if !child.what.Directory? then []
    else if depth >= policy.maxDepth then [Skip(place, DepthLimit)]
    else if !policy.crossFilesystems && !child.what.sameDevice then [Skip(place, CrossFilesystem)]
    else Listing(policy, child, place, depth + 1)
  }

  // ---- Every mark fits its node --------------------------------------------------------

  /** `target` is the node at `goal`, looking down from `node` at `path`. */
  ghost predicate Below(node: Node, path: Path, goal: Path, target: Node)
    decreases node
  {
    || (goal == path && target == node)
    || (node.what.Directory? && node.what.readable
        && exists i :: 0 <= i < |node.what.children|
                       && Below(node.what.children[i], path + [node.what.children[i].name], goal, target))
  }

  /** Nothing of its name and kind keeps the entry out, up to its own contents. */
  predicate Named(policy: Policy, node: Node) {
    !node.what.Unstattable? && !node.what.Symlink? && (node.hidden ==> policy.includeHidden)
  }

  predicate Wanted(policy: Policy, node: Node) {
    Named(policy, node) && !node.generated && !node.excluded
  }

  predicate Admitted(policy: Policy, node: Node) {
    && Wanted(policy, node) && !node.what.Special?
    && (node.what.Directory? ==> !node.store && !node.what.python)
  }

  /** When a mark may be made for a node: a file record only for a regular file of
      that size within the limit that nothing keeps out, each skip reason only under its
      own guard and only when no earlier one applies. */
  predicate Fits(policy: Policy, node: Node, m: Mark) {
    match m
    case File(_, size) => Admitted(policy, node) && node.what == Regular(size) && size <= policy.maxFileBytes
    case Seen(_) => Admitted(policy, node) && node.what.Directory?
    case Entered(path) => node.what.Directory? && node.what.readable && |path| <= policy.maxDepth
    case Skip(path, reason) =>
      match reason
      case Unreadable =>
        || node.what.Unstattable?
        || (node.what.Directory? && (!node.what.readable || exists c :: c in node.what.children && c.overlong))
      case SymlinkSkip => node.what.Symlink?
      case HiddenExcluded =>
        !node.what.Unstattable? && !node.what.Symlink? && node.hidden && !policy.includeHidden
      case GeneratedTree =>
        Named(policy, node) && (node.generated || (!node.excluded && node.what.Directory? && node.store))
      case UserExclusion => Named(policy, node) && !node.generated && node.excluded
      case PythonEnvironment =>
        Wanted(policy, node) && node.what.Directory? && !node.store && node.what.python
      case NotRegular => Wanted(policy, node) && node.what.Special?
      case FileSizeLimit => Admitted(policy, node) && node.what.Regular? && node.what.size > policy.maxFileBytes
      case DepthLimit => Admitted(policy, node) && node.what.Directory? && |path| > policy.maxDepth
      case CrossFilesystem =>
        Admitted(policy, node) && node.what.Directory? && !policy.crossFilesystems && !node.what.sameDevice
      case _ => false
  }

  ghost predicate Explained(policy: Policy, node: Node, path: Path, m: Mark) {
    |m.path| <= policy.maxDepth + 1 && exists target :: Below(node, path, m.path, target) && Fits(policy, target, m)
  }

  lemma {:induction false} ExplainedHere(policy: Policy, node: Node, path: Path, m: Mark)
    requires m.path == path && |path| <= policy.maxDepth + 1 && Fits(policy, node, m)
    ensures Explained(policy, node, path, m)
  {
    assert Below(node, path, m.path, node);
  }

  lemma {:induction false} ExplainedBelow(policy: Policy, node: Node, path: Path, i: nat, m: Mark)
    requires node.what.Directory? && node.what.readable && i < |node.what.children|
    requires var c := node.what.children[i]; Explained(policy, c, path + [c.name], m)
    ensures Explained(policy, node, path, m)
  {
    var c := node.what.children[i];
    var target :| Below(c, path + [c.name], m.path, target) && Fits(policy, target, m);
    assert Below(node, path, m.path, target);
  }

  /** Every mark of a listing stands for a node of the tree that it fits, no deeper
      than the depth limit allows. */
  lemma {:induction false} ListingFits(policy: Policy, node: Node, path: Path, depth: nat, m: Mark)
    requires node.what.Directory? && depth == |path| <= policy.maxDepth && m in Listing(policy, node, path, depth)
    ensures Explained(policy, node, path, m)
    decreases node, 1, 0
  {
    if !node.what.readable || m == Entered(path) {
      ExplainedHere(policy, node, path, m);
    } else {
      EntriesFit(policy, node, path, depth, Given(node), m);
    }
  }

  lemma {:induction false} EntriesFit(policy: Policy, node: Node, path: Path, depth: nat, count: nat, m: Mark)
    requires node.what.Directory? && node.what.readable && count <= |node.what.children|
    requires depth == |path| <= policy.maxDepth && m in Entries(policy, node, path, depth, count)
    ensures Explained(policy, node, path, m)
    decreases node, 0, count
  {
    var child := node.what.children[count - 1];
    if m in Entry(policy, child, path, depth) {
      if child.overlong {
        ExplainedHere(policy, node, path, m);
      } else {
        EntryFits(policy, child, path, depth, m);
        ExplainedBelow(policy, node, path, count - 1, m);
      }
    } else {
      EntriesFit(policy, node, path, depth, count - 1, m);
    }
  }

  lemma {:induction false} EntryFits(policy: Policy, child: Node, path: Path, depth: nat, m: Mark)
    requires !child.overlong && depth == |path| <= policy.maxDepth && m in Entry(policy, child, path, depth)
    ensures Explained(policy, child, path + [child.name], m)
    decreases child, 2, 0
  {
    var place := path + [child.name];
    if child.what.Directory? && NameSkip(policy, child).None? && m != Seen(place) {
      assert m in Inside(policy, child, place, depth);
      if depth < policy.maxDepth && (policy.crossFilesystems || child.what.sameDevice) {
        ListingFits(policy, child, place, depth + 1, m);
      } else {
        ExplainedHere(policy, child, place, m);
      }
    } else {
      ExplainedHere(policy, child, place, m);
    }
  }

  // ---- Every entry has its mark ---------------------------------------------------------

  predicate Walkable(policy: Policy, child: Node, depth: nat) {
    && !child.overlong && Admitted(policy, child) && child.what.Directory? && child.what.readable
    && depth < policy.maxDepth && (policy.crossFilesystems || child.what.sameDevice)
  }

  /** An entry with a writable path at `goal`, all of whose ancestors may be walked,
      each given by reading its directory. */
  ghost predicate Reached(policy: Policy, node: Node, path: Path, depth: nat, goal: Path)
    decreases node
  {
    && node.what.Directory? && node.what.readable
    && exists i :: 0 <= i < Given(node) && ReachedBy(policy, node, path, depth, goal, i)
  }

  ghost predicate ReachedBy(policy: Policy, node: Node, path: Path, depth: nat, goal: Path, i: nat)
    requires node.what.Directory? && i < |node.what.children|
    decreases node, 0
  {
    var child := node.what.children[i];
    && !child.overlong
    && (goal == path + [child.name]
        || (Walkable(policy, child, depth) && Reached(policy, child, path + [child.name], depth + 1, goal)))
  }

  /** Whatever can be reached has a mark of its own in the listing. */
  lemma {:induction false} ListingReaches(policy: Policy, node: Node, path: Path, depth: nat, goal: Path)
    returns (m: Mark)
    requires Reached(policy, node, path, depth, goal)
    ensures m in Listing(policy, node, path, depth) && m.path == goal
    decreases node
  {
    var n := Given(node);
    var i :| 0 <= i < n && ReachedBy(policy, node, path, depth, goal, i);
    var child := node.what.children[i];
    if goal == path + [child.name] {
      m := Entry(policy, child, path, depth)[0];
    } else {
      m := ListingReaches(policy, child, path + [child.name], depth + 1, goal);
      assert m in Inside(policy, child, path + [child.name], depth);
    }
    EntryListed(policy, node, path, depth, i, n, m);
  }

  lemma {:induction false} EntryListed(policy: Policy, node: Node, path: Path, depth: nat, i: nat, n: nat, m: Mark)
    requires node.what.Directory? && i < n <= |node.what.children|
    requires m in Entry(policy, node.what.children[i], path, depth)
    ensures m in Entries(policy, node, path, depth, n)
    decreases n
  {
    if i < n - 1 { EntryListed(policy, node, path, depth, i, n - 1, m); }
  }

  // ---- Nothing is marked twice ------------------------------------------------------------

  /** No two entries of one directory have the same name. */
  predicate DistinctNames(node: Node)
    decreases node, 1
  {
    node.what.Directory? ==>
      DistinctFirst(node, |node.what.children|)
      && forall i, j :: 0 <= i < j < |node.what.children| ==> node.what.children[i].name != node.what.children[j].name
  }

  predicate DistinctFirst(node: Node, n: nat)
    requires node.what.Directory? && n <= |node.what.children|
    decreases node, 0, n
  {
    n == 0 || (DistinctFirst(node, n - 1) && DistinctNames(node.what.children[n - 1]))
  }

  /** Marks for one path that should not both be made. */
  predicate Alike(m: Mark, n: Mark) {
    m.path == n.path && ((Written(m) && Written(n)) || (m.Seen? && n.Seen?) || (m.Entered? && n.Entered?))
  }

  /** Marks are made once; only a directory that cannot be read to the last name is recorded
      as unreadable for each entry concerned. */
  ghost predicate Once(marks: seq<Mark>) {
    forall i, j :: 0 <= i < j < |marks| && Alike(marks[i], marks[j]) ==>
      marks[i] == marks[j] == Skip(marks[i].path, Unreadable)
  }

  /** All marks lie at or below a path. */
  ghost predicate Under(marks: seq<Mark>, path: Path) {
    forall m :: m in marks ==> path <= m.path
  }

  lemma {:induction false} OnceAppend(a: seq<Mark>, b: seq<Mark>)
    requires Once(a) && Once(b)
    requires forall m, n :: m in a && n in b && Alike(m, n) ==> m == n == Skip(m.path, Unreadable)
    ensures Once(a + b)
  {
    var c := a + b;
    forall i, j | 0 <= i < j < |c| && Alike(c[i], c[j])
      ensures c[i] == c[j] == Skip(c[i].path, Unreadable)
    {
      if j < |a| {
        assert c[i] == a[i] && c[j] == a[j];
      } else if i >= |a| {
        assert c[i] == b[i - |a|] && c[j] == b[j - |a|];
      } else {
        assert c[i] in a && c[j] in b;
      }
    }
  }

  /** Where the marks of an entry lie: below its own path, but for the record of a name too
      long to write. */
  ghost predicate Placed(marks: seq<Mark>, path: Path, place: Path) {
    forall m :: m in marks ==> m == Skip(path, Unreadable) || place <= m.path
  }

  lemma {:induction false} EntryPlaced(policy: Policy, child: Node, path: Path, depth: nat)
    ensures Placed(Entry(policy, child, path, depth), path, path + [child.name])
    decreases child, 2, 0
  {
    var place := path + [child.name];
    if child.what.Directory? && depth < policy.maxDepth { ListingPlaced(policy, child, place, depth + 1); }
  }

  lemma {:induction false} ListingPlaced(policy: Policy, node: Node, path: Path, depth: nat)
    ensures Under(Listing(policy, node, path, depth), path)
    decreases node, 1, 0
  {
    if node.what.Directory? && node.what.readable { EntriesPlaced(policy, node, path, depth, Given(node)); }
  }

  lemma {:induction false} EntriesPlaced(policy: Policy, node: Node, path: Path, depth: nat, n: nat)
    requires node.what.Directory? && n <= |node.what.children|
    ensures Under(Entries(policy, node, path, depth, n), path)
    ensures forall m :: m in Entries(policy, node, path, depth, n) ==>
              m == Skip(path, Unreadable) || exists i :: 0 <= i < n && path + [node.what.children[i].name] <= m.path
    decreases node, 0, n
  {
    if n > 0 {
      var child := node.what.children[n - 1];
      EntriesPlaced(policy, node, path, depth, n - 1);
      EntryPlaced(policy, child, path, depth);
      forall m | m in Entries(policy, node, path, depth, n)
        ensures path <= m.path
        ensures m == Skip(path, Unreadable) || exists i :: 0 <= i < n && path + [node.what.children[i].name] <= m.path
      {
        if m in Entry(policy, child, path, depth) && m != Skip(path, Unreadable) {
          assert path + [child.name] <= m.path;
        }
      }
    }
  }

  lemma {:induction false} EntryOnce(policy: Policy, child: Node, path: Path, depth: nat)
    requires DistinctNames(child)
    ensures Once(Entry(policy, child, path, depth))
    decreases child, 2, 0
  {
    var place := path + [child.name];
    if child.what.Directory? {
      ListingOnce(policy, child, place, depth + 1);
      SeenOnce(place, Inside(policy, child, place, depth));
    }
  }

  lemma {:induction false} SeenOnce(place: Path, marks: seq<Mark>)
    requires Once(marks) && forall m :: m in marks && m.path == place ==> !m.Seen?
    ensures Once([Seen(place)] + marks)
  {
    OnceAppend([Seen(place)], marks);
  }

  /** With distinct names no listing makes a mark twice. */
  lemma {:induction false} ListingOnce(policy: Policy, node: Node, path: Path, depth: nat)
    requires DistinctNames(node)
    ensures Once(Listing(policy, node, path, depth))
    ensures forall m :: m in Listing(policy, node, path, depth) && m.path == path ==> !m.Seen?
    decreases node, 1, 0
  {
    if node.what.Directory? && node.what.readable {
      var n := Given(node);
      FewerDistinct(node, n, |node.what.children|);
      EntriesOnce(policy, node, path, depth, n);
      EntriesPlaced(policy, node, path, depth, n);
      OwnPath(policy, node, path, depth, n);
      OnceAppend([Entered(path)], Entries(policy, node, path, depth, n));
    }
  }

  /** At its own path a directory's entries leave only records of names too long. */
  lemma {:induction false} OwnPath(policy: Policy, node: Node, path: Path, depth: nat, n: nat)
    requires node.what.Directory? && n <= |node.what.children|
    ensures forall m :: m in Entries(policy, node, path, depth, n) && m.path == path ==> m == Skip(path, Unreadable)
  {
    EntriesPlaced(policy, node, path, depth, n);
    forall m | m in Entries(policy, node, path, depth, n) && m.path == path
      ensures m == Skip(path, Unreadable)
    {
      forall i | 0 <= i < n
        ensures !(path + [node.what.children[i].name] <= m.path)
      {
        Longer(path, node.what.children[i].name, m.path);
      }
    }
  }

  lemma Longer(path: Path, name: string, p: Path)
    ensures path + [name] <= p ==> p != path
  {
  }

  lemma {:induction false} FewerDistinct(node: Node, n: nat, m: nat)
    requires node.what.Directory? && n <= m <= |node.what.children| && DistinctFirst(node, m)
    ensures DistinctFirst(node, n)
    decreases m
  {
    if n < m { FewerDistinct(node, n, m - 1); }
  }

  lemma Fork(path: Path, a: string, b: string, p: Path)
    requires path + [a] <= p && path + [b] <= p
    ensures a == b
  {
    assert p[|path|] == (path + [a])[|path|] == (path + [b])[|path|];
  }

  lemma {:induction false} EntriesOnce(policy: Policy, node: Node, path: Path, depth: nat, n: nat)
    requires node.what.Directory? && n <= |node.what.children| && DistinctFirst(node, n)
    requires forall i, j :: 0 <= i < j < n ==> node.what.children[i].name != node.what.children[j].name
    ensures Once(Entries(policy, node, path, depth, n))
    decreases node, 0, n
  {
    if n > 0 {
      var child, before := node.what.children[n - 1], Entries(policy, node, path, depth, n - 1);
      EntriesOnce(policy, node, path, depth, n - 1);
      EntryOnce(policy, child, path, depth);
      EntriesPlaced(policy, node, path, depth, n - 1);
      EntryPlaced(policy, child, path, depth);
      OwnPath(policy, node, path, depth, n - 1);
      forall m, k | m in before && k in Entry(policy, child, path, depth) && Alike(m, k)
        ensures m == k == Skip(m.path, Unreadable)
      {
        if m != Skip(path, Unreadable) && k != Skip(path, Unreadable) {
          var i :| 0 <= i < n - 1 && path + [node.what.children[i].name] <= m.path;
          Fork(path, node.what.children[i].name, child.name, m.path);
          assert false;
        }
        Longer(path, child.name, k.path);
      }
      OnceAppend(before, Entry(policy, child, path, depth));
    }
  }

  // ---- Directories read short -------------------------------------------------------------

  /** The same tree with nothing read short. */
  function Whole(node: Node): (r: Node)
    ensures r.what.Directory? <==> node.what.Directory?
    ensures node.what.Directory? ==> |r.what.children| == |node.what.children|
    decreases node, 1
  {
    if !node.what.Directory? then node
    else node.(what := node.what.(children := WholeFirst(node, |node.what.children|), given := |node.what.children|))
  }

  function WholeFirst(node: Node, n: nat): (r: seq<Node>)
    requires node.what.Directory? && n <= |node.what.children|
    ensures |r| == n && forall i :: 0 <= i < n ==> r[i] == Whole(node.what.children[i])
    decreases node, 0, n
  {
    if n == 0 then [] else WholeFirst(node, n - 1) + [Whole(node.what.children[n - 1])]
  }

  /** No directory that a walk from `node` reads is read short. */
  predicate ReadThrough(policy: Policy, node: Node, depth: nat)
    decreases node, 1
  {
    node.what.Directory? && node.what.readable ==>
      node.what.given >= |node.what.children| && AllThrough(policy, node, depth, |node.what.children|)
  }

  /** Nor is one that it reads for the first `n` entries. */
  predicate AllThrough(policy: Policy, node: Node, depth: nat, n: nat)
    requires node.what.Directory? && n <= |node.what.children|
    decreases node, 0, n
  {
    n == 0 || (AllThrough(policy, node, depth, n - 1) && ReadsThrough(policy, node.what.children[n - 1], depth))
  }

  predicate ReadsThrough(policy: Policy, child: Node, depth: nat)
    decreases child, 2
  {
    Walkable(policy, child, depth) ==> ReadThrough(policy, child, depth + 1)
  }

  /** The listing has every entry of the tree if and only if nothing was read short. */
  lemma {:induction false} CompleteExactly(policy: Policy, node: Node, path: Path, depth: nat)
    ensures var few, all := Listing(policy, node, path, depth), Listing(policy, Whole(node), path, depth);
            |few| <= |all| && (few == all <==> ReadThrough(policy, node, depth))
    decreases node, 2
  {
    if node.what.Directory? && node.what.readable {
      var g, n := Given(node), |node.what.children|;
      var few, some, all := Entries(policy, node, path, depth, g), Entries(policy, Whole(node), path, depth, g),
                            Entries(policy, Whole(node), path, depth, n);
      EntriesExactly(policy, node, path, depth, g);
      EntriesMore(policy, Whole(node), path, depth, g, n);
      assert Given(Whole(node)) == n;
      assert [Entered(path)] + few == [Entered(path)] + all <==> few == all by {
        assert ([Entered(path)] + few)[1..] == few && ([Entered(path)] + all)[1..] == all;
      }
    }
  }

  lemma {:induction false} EntriesExactly(policy: Policy, node: Node, path: Path, depth: nat, n: nat)
    requires node.what.Directory? && n <= |node.what.children|
    ensures var few, all := Entries(policy, node, path, depth, n), Entries(policy, Whole(node), path, depth, n);
            && |few| <= |all|
            && (few == all <==> AllThrough(policy, node, depth, n))
    decreases node, 1, n
  {
    if n > 0 {
      EntriesExactly(policy, node, path, depth, n - 1);
      EntryExactly(policy, node.what.children[n - 1], path, depth);
      assert Whole(node).what.children[n - 1] == Whole(node.what.children[n - 1]);
      Halves(Entries(policy, node, path, depth, n - 1), Entries(policy, Whole(node), path, depth, n - 1),
             Entry(policy, node.what.children[n - 1], path, depth),
             Entry(policy, Whole(node.what.children[n - 1]), path, depth));
    }
  }

  lemma {:induction false} EntryExactly(policy: Policy, child: Node, path: Path, depth: nat)
    ensures var few, all := Entry(policy, child, path, depth), Entry(policy, Whole(child), path, depth);
            && |few| <= |all|
            && (few == all <==> ReadsThrough(policy, child, depth))
    decreases child, 3
  {
    if !child.overlong && NameSkip(policy, child).None? && child.what.Directory? {
      var place := path + [child.name];
      var few, all := Inside(policy, child, place, depth), Inside(policy, Whole(child), place, depth);
      CompleteExactly(policy, child, place, depth + 1);
      assert ([Seen(place)] + few)[1..] == few && ([Seen(place)] + all)[1..] == all;
    }
  }

  /** Parts no longer than their counterparts make up the same only if each is the same. */
  lemma Halves(a: seq<Mark>, b: seq<Mark>, c: seq<Mark>, d: seq<Mark>)
    requires |a| <= |b| && |c| <= |d|
    ensures a + c == b + d <==> a == b && c == d
  {
    if a + c == b + d {
      assert |a + c| == |b + d|;
      assert a == (a + c)[..|a|] == b && c == (a + c)[|a|..] == d;
    }
  }

  /** Every entry has a mark, so more entries make a longer listing. */
  lemma {:induction false} EntriesMore(policy: Policy, node: Node, path: Path, depth: nat, i: nat, n: nat)
    requires node.what.Directory? && i <= n <= |node.what.children|
    ensures |Entries(policy, node, path, depth, n)| >= |Entries(policy, node, path, depth, i)| + (n - i)
    decreases n
  {
    if i < n {
      EntriesMore(policy, node, path, depth, i, n - 1);
      assert Entry(policy, node.what.children[n - 1], path, depth) != [];
    }
  }

  // ---- Budgets ---------------------------------------------------------------------------

  datatype Sums = Sums(files: nat, bytes: nat, skips: nat, seen: nat, entered: nat)

  function Plus(s: Sums, m: Mark): Sums {
    match m
    case File(_, size) => s.(files := s.files + 1, bytes := s.bytes + size)
    case Skip(_, _) => s.(skips := s.skips + 1)
    case Seen(_) => s.(seen := s.seen + 1)
    case Entered(_) => s.(entered := s.entered + 1)
  }

  function Tally(marks: seq<Mark>): Sums {
    if marks == [] then Sums(0, 0, 0, 0, 0) else Plus(Tally(marks[..|marks| - 1]), marks[|marks| - 1])
  }

  /** Limits that are met without stopping the walk. */
  predicate Limiting(m: Mark) { m.Skip? && (m.reason == DepthLimit || m.reason == FileSizeLimit) }

  predicate Limited(marks: seq<Mark>) { exists m :: m in marks && Limiting(m) }

  lemma {:induction false} Snoc(marks: seq<Mark>, m: Mark)
    ensures Tally(marks + [m]) == Plus(Tally(marks), m)
    ensures Limited(marks + [m]) <==> Limited(marks) || Limiting(m)
    ensures Records(marks + [m]) == if Written(m) then Records(marks) + [m] else Records(marks)
  {
    assert (marks + [m])[..|marks|] == marks;
  }

  /** The record that a spent budget puts in place of the next mark of the listing:
      only in place of a mark that the budget concerns, and only when it is spent. */
  predicate Spent(policy: Policy, full: seq<Mark>, k: nat, m: Mark) {
    && k < |full| && m.Skip? && full[k].path == m.path
    && match m.reason
       case FileLimit =>
         (full[k].File? || full[k] == Skip(m.path, FileSizeLimit)) && Tally(full[..k]).files >= policy.maxFiles
       case EligibleBytesLimit => full[k].File? && Tally(full[..k]).bytes + full[k].size > policy.maxEligibleBytes
       case DirectoryLimit => full[k].Seen? && Tally(full[..k]).seen + 1 >= policy.maxDirectories
       case _ => false
  }

  /** A walk cut short: a prefix of the listing, and at most one record of a spent budget. */
  predicate CutAt(policy: Policy, marks: seq<Mark>, full: seq<Mark>, k: nat) {
    && k <= |full| && k <= |marks| <= k + 1 && marks[..k] == full[..k]
    && (|marks| == k + 1 ==> Spent(policy, full, k, marks[k]))
  }

  ghost predicate Cut(policy: Policy, marks: seq<Mark>, full: seq<Mark>) {
    exists k: nat :: CutAt(policy, marks, full, k)
  }

  lemma {:induction false} CutPrefix(policy: Policy, marks: seq<Mark>, more: seq<Mark>)
    ensures Cut(policy, marks, marks + more)
  {
    assert (marks + more)[..|marks|] == marks[..|marks|];
    assert CutAt(policy, marks, marks + more, |marks|);
  }

  /** What was cut from a listing is cut from a longer one. */
  lemma {:induction false} CutLonger(policy: Policy, marks: seq<Mark>, full: seq<Mark>, more: seq<Mark>)
    requires Cut(policy, marks, full)
    ensures Cut(policy, marks, full + more)
  {
    var k: nat :| CutAt(policy, marks, full, k);
    assert (full + more)[..k] == full[..k];
    assert CutAt(policy, marks, full + more, k);
  }

  lemma {:induction false} CutHere(policy: Policy, marks: seq<Mark>, m: Mark, rest: seq<Mark>)
    requires Spent(policy, marks + rest, |marks|, m)
    ensures Cut(policy, marks + [m], marks + rest)
  {
    var k := |marks|;
    assert (marks + [m])[..k] == (marks + rest)[..k];
    assert CutAt(policy, marks + [m], marks + rest, k);
  }

  /** Partial or not, every mark made fits a node of the tree, except a record of a
      spent budget, which stands at the path of a mark that does. */
  lemma {:induction false} CutFits(policy: Policy, root: Node, marks: seq<Mark>, m: Mark)
    requires root.what.Directory? && Cut(policy, marks, Listing(policy, root, [], 0)) && m in marks
    ensures || Explained(policy, root, [], m)
            || (BudgetSkip(m) && exists f: Mark :: f.path == m.path && Explained(policy, root, [], f))
  {
    var full := Listing(policy, root, [], 0);
    var k: nat :| CutAt(policy, marks, full, k);
    var i :| 0 <= i < |marks| && marks[i] == m;
    if i < k {
      assert m == full[..k][i];
      ListingFits(policy, root, [], 0, m);
    } else {
      ListingFits(policy, root, [], 0, full[k]);
    }
  }

  /** Something that happens at check `at` has happened by check `now`. */
  predicate Due(at: Option<nat>, now: int) { at.Some? && now >= at.value }

  // ---- The walk ---------------------------------------------------------------------------

  class Walker {
    const policy: Policy
    const cancelAt: Option<nat>   // the check at which the cancel signal is first seen
    const lateAt: Option<nat>     // the check at which the deadline has passed
    var now: nat
    var files: nat
    var directoriesSeen: nat
    var directoriesEntered: nat
    var eligibleBytes: nat
    var skipped: nat
    var limit: Limit
    var stop: bool
    var records: seq<Mark>
    ghost var trace: seq<Mark>   // everything done so far
    ghost var cut: bool          // something was left undone

    ghost predicate Counted()
      reads this
    {
      && directoriesSeen > 0
      && Tally(trace) == Sums(files, eligibleBytes, skipped, directoriesSeen - 1, directoriesEntered)
      && records == Records(trace)
      && files <= policy.maxFiles && eligibleBytes <= policy.maxEligibleBytes
      && directoriesSeen <= policy.maxDirectories
    }

    /** Why a walk may be cut, and what the report will call partial. */
    ghost predicate Flagged()
      reads this
    {
      && (stop ==> cut)
      && (cut ==> stop || Canceled())
      && (cut ==> Canceled() || Due(lateAt, now - 1) || (trace != [] && BudgetSkip(trace[|trace| - 1])))
      && (limit != NoLimit <==> stop || Limited(trace))
    }

    ghost predicate Valid()
      reads this
    {
      Counted() && Flagged()
    }

    predicate Canceled()
      reads this
    {
      Due(cancelAt, now)
    }

    constructor (policy: Policy, cancelAt: Option<nat>, lateAt: Option<nat>)
      requires policy.maxDirectories > 0
      ensures this.policy == policy && this.cancelAt == cancelAt && this.lateAt == lateAt
      ensures Valid() && trace == [] && !cut
    {
      this.policy, this.cancelAt, this.lateAt := policy, cancelAt, lateAt;
      now, files, directoriesSeen, directoriesEntered, eligibleBytes, skipped := 0, 0, 1, 0, 0, 0;
      limit, stop, records := NoLimit, false, [];
      trace, cut := [], false;
    }

    /** A look at the clock; a deadline that has passed stops the walk. */
    method Late() returns (late: bool)
      requires Valid() && !cut
      modifies this`now, this`limit, this`stop, this`cut
      ensures Valid() && late == cut
    {
      late := Due(lateAt, now);
      now := now + 1;
      if late { limit, stop, cut := Deadline, true, true; }
    }

    /** A look at the signal and at the stop flag. */
    method Interrupted() returns (b: bool)
      requires Valid()
      modifies this`now, this`cut
      ensures Valid() && b == cut && (old(cut) ==> b)
    {
      b := Canceled() || stop;
      now := now + 1;
      cut := b;
    }

    /** Counts a directory come across. */
    method See(path: Path)
      requires Valid() && !cut && directoriesSeen < policy.maxDirectories
      modifies this`directoriesSeen, this`trace
      ensures Valid() && trace == old(trace) + [Seen(path)]
    {
      Snoc(trace, Seen(path));
      directoriesSeen := directoriesSeen + 1;
      trace := trace + [Seen(path)];
    }

    /** Counts a directory opened. */
    method Enter(path: Path)
      requires Valid() && !cut
      modifies this`directoriesEntered, this`trace
      ensures Valid() && trace == old(trace) + [Entered(path)]
    {
      Snoc(trace, Entered(path));
      directoriesEntered := directoriesEntered + 1;
      trace := trace + [Entered(path)];
    }

    /** Records a file that is within all budgets. */
    method EmitFile(path: Path, size: nat)
      requires Valid() && !cut && files < policy.maxFiles && eligibleBytes + size <= policy.maxEligibleBytes
      modifies this`records, this`files, this`eligibleBytes, this`trace
      ensures Valid() && trace == old(trace) + [File(path, size)]
    {
      Snoc(trace, File(path, size));
      records := records + [File(path, size)];
      files, eligibleBytes := files + 1, eligibleBytes + size;
      trace := trace + [File(path, size)];
    }

    /** Records a skipped entry; two of the reasons set a limit. */
    method EmitSkip(path: Path, reason: Reason)
      requires Valid() && !cut
      modifies this`records, this`skipped, this`limit, this`trace
      ensures Valid() && trace == old(trace) + [Skip(path, reason)]
    {
      var m := Skip(path, reason);
      Snoc(trace, m);
      records := records + [m];
      skipped := skipped + 1;
      trace := trace + [m];
      if reason == DepthLimit { limit := MaxDepth; }
      if reason == FileSizeLimit { limit := MaxFileBytes; }
    }

    /** Records that a budget is spent, and stops. */
    method EmitStop(path: Path, reason: Reason, met: Limit)
      requires Valid() && !cut && met != NoLimit && BudgetSkip(Skip(path, reason))
      modifies this`records, this`skipped, this`limit, this`stop, this`trace, this`cut
      ensures Valid() && cut && trace == old(trace) + [Skip(path, reason)]
    {
      var m := Skip(path, reason);
      Snoc(trace, m);
      records := records + [m];
      skipped := skipped + 1;
      trace := trace + [m];
      limit, stop, cut := met, true, true;
    }

    /** What has been done follows the listing, as far as it went. */
    ghost predicate Follows(before: seq<Mark>, listing: seq<Mark>)
      reads this
    {
      if cut then Cut(policy, trace, before + listing) else trace == before + listing
    }

    /** One regular file against the three budgets. */
    method VisitFile(path: Path, size: nat)
      requires Valid() && !cut
      modifies this
      ensures Valid()
      ensures Follows(old(trace), [if size > policy.maxFileBytes then Skip(path, FileSizeLimit) else File(path, size)])
    {
      ghost var before := trace;
      ghost var own := [if size > policy.maxFileBytes then Skip(path, FileSizeLimit) else File(path, size)];
      assert (before + own)[..|before|] == before;
      if files >= policy.maxFiles {
        CutHere(policy, before, Skip(path, FileLimit), own);
        EmitStop(path, FileLimit, MaxFiles);
      } else if size > policy.maxFileBytes {
        EmitSkip(path, FileSizeLimit);
      } else if size > policy.maxEligibleBytes - eligibleBytes {
        CutHere(policy, before, Skip(path, EligibleBytesLimit), own);
        EmitStop(path, EligibleBytesLimit, MaxEligibleBytes);
      } else {
        EmitFile(path, size);
      }
    }

    /** One entry. */
    method Visit(path: Path, child: Node, depth: nat)
      requires Valid() && !cut
      modifies this
      ensures Valid() && Follows(old(trace), Entry(policy, child, path, depth))
      decreases child, 2, 0
    {
      var place := path + [child.name];
      if child.overlong {
        EmitSkip(path, Unreadable);
      } else if NameSkip(policy, child).Some? {
        EmitSkip(place, NameSkip(policy, child).value);
      } else if child.what.Regular? {
        VisitFile(place, child.what.size);
      } else {
        VisitDirectory(place, child, depth);
      }
    }

    /** A directory against the directory budget. */
    method VisitDirectory(place: Path, child: Node, depth: nat)
      requires Valid() && !cut && child.what.Directory?
      modifies this
      ensures Valid() && Follows(old(trace), [Seen(place)] + Inside(policy, child, place, depth))
      decreases child, 1, 2
    {
      ghost var before, rest := trace, Inside(policy, child, place, depth);
      if directoriesSeen >= policy.maxDirectories {
        SeenHere(before, place, rest);
        CutHere(policy, before, Skip(place, DirectoryLimit), [Seen(place)] + rest);
        EmitStop(place, DirectoryLimit, MaxDirectories);
      } else {
        See(place);
        VisitInside(place, child, depth);
        Assoc(before, [Seen(place)], rest);
      }
    }

    /** Depth and file system, then the walk itself. */
    method VisitInside(place: Path, child: Node, depth: nat)
      requires Valid() && !cut && child.what.Directory?
      modifies this
      ensures Valid() && Follows(old(trace), Inside(policy, child, place, depth))
      decreases child, 1, 1
    {
      if depth >= policy.maxDepth {
        EmitSkip(place, DepthLimit);
      } else if !policy.crossFilesystems && !child.what.sameDevice {
        EmitSkip(place, CrossFilesystem);
      } else {
        Walk(place, child, depth + 1);
      }
    }

    /** chutni_walk. */
    method Walk(path: Path, node: Node, depth: nat)
      requires Valid() && !cut && node.what.Directory?
      modifies this
      ensures Valid() && Follows(old(trace), Listing(policy, node, path, depth))
      decreases node, 1, 0
    {
      CutPrefix(policy, trace, Listing(policy, node, path, depth));
      var out := Interrupted();
      if out { return; }
      out := Late();
      if out { return; }
      if !node.what.readable {
        EmitSkip(path, Unreadable);
      } else {
        ghost var before := trace;
        Enter(path);
        ReadAll(path, node, depth);
        Assoc(before, [Entered(path)], Entries(policy, node, path, depth, Given(node)));
      }
    }

    /** The read loop. */
    method ReadAll(path: Path, node: Node, depth: nat)
      requires Valid() && !cut && node.what.Directory?
      modifies this
      ensures Valid()
      ensures Follows(old(trace), Entries(policy, node, path, depth, Given(node)))
      decreases node, 0, |node.what.children|
    {
      ghost var before, n := trace, Given(node);
      assert before + [] == before;
      for i := 0 to Given(node)
        invariant Valid() && Follows(before, Entries(policy, node, path, depth, i))
      {
        ghost var sofar := Entries(policy, node, path, depth, i);
        EntriesGrow(policy, node, path, depth, i, n);
        var more := ReadOne(path, node.what.children[i], depth, before + sofar);
        Assoc(before, sofar, Entry(policy, node.what.children[i], path, depth));
        if !more {
          CutEntries(policy, trace, before, node, path, depth, i, n);
          return;
        }
      }
    }

    /** One turn of the read loop: the checks, then the entry. */
    method ReadOne(path: Path, child: Node, depth: nat, ghost sofar: seq<Mark>) returns (more: bool)
      requires Valid() && if cut then Cut(policy, trace, sofar) else trace == sofar
      modifies this
      ensures Valid() && (!more ==> cut && Cut(policy, trace, sofar))
      ensures more ==> Follows(sofar, Entry(policy, child, path, depth))
      decreases child, 3, 0
    {
      if !cut {
        assert sofar + [] == sofar;
        CutPrefix(policy, sofar, []);
      }
      var out := Interrupted();
      if out { return false; }
      out := Late();
      if out { return false; }
      out := Late();
      if out { return false; }
      Visit(path, child, depth);
      more := true;
    }
  }

  predicate BudgetSkip(m: Mark) {
    m.Skip? && (m.reason == FileLimit || m.reason == EligibleBytesLimit || m.reason == DirectoryLimit)
  }

  lemma SeenHere(before: seq<Mark>, place: Path, rest: seq<Mark>)
    ensures (before + ([Seen(place)] + rest))[|before|] == Seen(place)
    ensures (before + ([Seen(place)] + rest))[..|before|] == before
  {
  }

  /** The first entries are a prefix of all entries. */
  lemma {:induction false} EntriesGrow(policy: Policy, node: Node, path: Path, depth: nat, i: nat, n: nat)
    requires node.what.Directory? && i <= n <= |node.what.children|
    ensures Entries(policy, node, path, depth, i) <= Entries(policy, node, path, depth, n)
    decreases n
  {
    if i < n { EntriesGrow(policy, node, path, depth, i, n - 1); }
  }

  lemma {:induction false} CutEntries(policy: Policy, marks: seq<Mark>, before: seq<Mark>, node: Node, path: Path,
                                      depth: nat, i: nat, n: nat)
    requires node.what.Directory? && i <= n <= |node.what.children|
    requires Cut(policy, marks, before + Entries(policy, node, path, depth, i))
    ensures Cut(policy, marks, before + Entries(policy, node, path, depth, n))
  {
    EntriesGrow(policy, node, path, depth, i, n);
    var few, all := Entries(policy, node, path, depth, i), Entries(policy, node, path, depth, n);
    var more := all[|few|..];
    assert all == few + more;
    Assoc(before, few, more);
    CutLonger(policy, marks, before + few, more);
  }

  datatype Report = InvalidBudget
    | Done(canceled: bool, partial: bool, files: nat, eligibleBytes: nat, skipped: nat, directoriesSeen: nat,
           directoriesEntered: nat, records: seq<Mark>)

  /** command_chutni_inventory on a directory. The report counts what was done within
      every budget; what was done is the listing of the tree, or a prefix of it with at
      most one record of a spent budget; a report that is not partial has it all, and
      one that is has a reason. What it has is the listing of all that is there if and
      only if no directory walked was read short. `checks` is how often clock and signal were looked at. */
  method Inventory(policy: Policy, root: Node, cancelAt: Option<nat>, lateAt: Option<nat>)
    returns (r: Report, ghost trace: seq<Mark>, ghost checks: nat)
    requires root.what.Directory?
    ensures r.InvalidBudget? <==> policy.maxDirectories == 0 || policy.maxFiles == 0
    ensures r.Done? ==> Accounts(policy, r, trace) && Cut(policy, trace, Listing(policy, root, [], 0))
    ensures r.Done? && !r.partial ==>
              trace == Listing(policy, root, [], 0) && r.records == Records(trace) && !Limited(trace)
    ensures r.Done? && !r.partial ==> (trace == Listing(policy, Whole(root), [], 0) <==> ReadThrough(policy, root, 0))
    ensures r.Done? ==> (r.canceled <==> Due(cancelAt, checks))
    ensures r.Done? && r.partial ==>
              r.canceled || Due(lateAt, checks - 1) || Limited(trace) || (trace != [] && BudgetSkip(trace[|trace| - 1]))
  {
    trace, checks := [], 0;
    if policy.maxDirectories == 0 || policy.maxFiles == 0 { return InvalidBudget, [], 0; }
    var w := new Walker(policy, cancelAt, lateAt);
    w.Walk([], root, 0);
    WholeListing(policy, w.trace, Listing(policy, root, [], 0), w.cut);
    CompleteExactly(policy, root, [], 0);
    trace, checks := w.trace, w.now;
    r := Done(w.Canceled(), w.Canceled() || w.limit != NoLimit, w.files, w.eligibleBytes, w.skipped, w.directoriesSeen,
              w.directoriesEntered, w.records);
  }

  /** The report counts the marks, within every budget. */
  predicate Accounts(policy: Policy, r: Report, trace: seq<Mark>)
    requires r.Done?
  {
    && r.records == Records(trace) && 1 <= r.directoriesSeen <= policy.maxDirectories
    && Tally(trace) == Sums(r.files, r.eligibleBytes, r.skipped, r.directoriesSeen - 1, r.directoriesEntered)
    && r.files <= policy.maxFiles && r.eligibleBytes <= policy.maxEligibleBytes
  }

  lemma {:induction false} WholeListing(policy: Policy, marks: seq<Mark>, full: seq<Mark>, cut: bool)
    requires if cut then Cut(policy, marks, [] + full) else marks == [] + full
    ensures Cut(policy, marks, full) && (!cut ==> marks == full)
  {
    assert [] + full == full && full + [] == full;
    CutPrefix(policy, full, []);
  }

  lemma {:induction false} OneFile(policy: Policy, root: Node)
    requires root.what.Directory? && root.what.readable
    requires root.what.children == [Node("a", false, false, false, false, false, Regular(1))]
    ensures Listing(policy, Whole(root), [], 0)
            == [Entered([]), if policy.maxFileBytes == 0 then Skip(["a"], FileSizeLimit) else File(["a"], 1)]
  {
    var w := Whole(root);
    assert w.what.children[0] == root.what.children[0] && Given(w) == 1;
    assert Entries(policy, w, [], 0, 0) == [];
    assert [] + ["a"] == ["a"];
    assert Entries(policy, w, [], 0, 1) == Entry(policy, w.what.children[0], [], 0);
  }

  /** A folder of one file whose reading fails at once: under any policy the report is
      not partial and has no record, although the folder holds a file. */
  method ShortFolder(policy: Policy) returns (root: Node, r: Report)
    requires policy.maxDirectories > 0 && policy.maxFiles > 0
    ensures root.what.Directory? && r.Done? && !r.partial && r.records == []
    ensures Listing(policy, Whole(root), [], 0)
            == [Entered([]), if policy.maxFileBytes == 0 then Skip(["a"], FileSizeLimit) else File(["a"], 1)]
  {
    var file := Node("a", false, false, false, false, false, Regular(1));
    root := Node("", false, false, false, false, false, Directory(true, false, true, [file], 0));
    ghost var trace, checks;
    r, trace, checks := Inventory(policy, root, None, None);
    assert Listing(policy, root, [], 0) == [Entered([])];
    OneFile(policy, root);
  }
}
