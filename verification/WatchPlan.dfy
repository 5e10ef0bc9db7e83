/** Planning nonrecursive watches for a list of roots, within a budget.  The file
    system is fixed while the plan is made. */
module WatchPlan {
  import opened Common
  import opened Sorting

  type Path = seq<string>

  /** Broken: the entry, or its type, could not be read. */
  datatype Entry = Directory(name: string) | File(name: string) | Broken

  datatype Listing = Entries(entries: seq<Entry>) | Unreadable

  type FileSystem = Path -> Listing

  datatype Watch = Watch(path: Path, recursive: bool)

  datatype Error = BudgetExceeded | IoFailed

  // ----- What a plan should be -----

  ghost predicate HasDirectory(fs: FileSystem, path: Path, name: string) {
    fs(path).Entries? && Directory(name) in fs(path).entries
  }

  /** `path` is `root` or reached from it through directories only. */
  ghost predicate Under(fs: FileSystem, root: Path, path: Path)
    decreases |path|
  {
    path == root
    || (path != [] && Under(fs, root, path[..|path| - 1]) && HasDirectory(fs, path[..|path| - 1], path[|path| - 1]))
  }

  ghost predicate UnderRecursive(fs: FileSystem, roots: seq<Watch>, path: Path) {
    exists i :: 0 <= i < |roots| && roots[i].recursive && Under(fs, roots[i].path, path)
  }

  ghost predicate IsRoot(roots: seq<Watch>, path: Path) {
    exists i :: 0 <= i < |roots| && roots[i].path == path
  }

  /** The roots, and every directory below the recursive ones. */
  ghost predicate InPlan(fs: FileSystem, roots: seq<Watch>, path: Path) {
    IsRoot(roots, path) || UnderRecursive(fs, roots, path)
  }

  ghost predicate AllInPlan(fs: FileSystem, roots: seq<Watch>, paths: set<Path>) {
    forall p :: p in paths ==> InPlan(fs, roots, p)
  }

  ghost predicate PlanExceeds(fs: FileSystem, roots: seq<Watch>, limit: nat) {
    exists paths: set<Path> :: |paths| > limit && AllInPlan(fs, roots, paths)
  }

  /** No directory lists a name twice. */
  ghost predicate DistinctNames(fs: FileSystem) {
    forall path :: fs(path).Entries? ==> Distinct(fs(path).entries)
  }

  ghost predicate Distinct(entries: seq<Entry>) {
    forall e: Entry :: e.Directory? ==> multiset(entries)[e] <= 1
  }

  /** A later recursive root comes to an earlier one from above, in a directory that
      no root before it went through. */
  ghost predicate Requeues(fs: FileSystem, earlier: seq<Watch>, latest: Watch, path: Path) {
    && latest.recursive && path != [] && path != latest.path && Under(fs, latest.path, path)
    && !UnderRecursive(fs, earlier, path[..|path| - 1])
  }

  /** Something at or below this path is not in the plan of these roots. */
  ghost predicate Unfinished(fs: FileSystem, roots: seq<Watch>, path: Path) {
    exists d :: Under(fs, path, d) && !InPlan(fs, roots, d)
  }

  /** Every root that a later one queues again leaves that one something to plan. */
  ghost predicate Unmixed(fs: FileSystem, roots: seq<Watch>) {
    forall i, k :: 0 <= i < k < |roots| && Requeues(fs, roots[..k], roots[k], roots[i].path) ==>
      Unfinished(fs, roots[..k], roots[i].path)
  }

  ghost predicate Careful(fs: FileSystem, roots: seq<Watch>) {
    Unmixed(fs, roots) && DistinctNames(fs)
  }

  ghost predicate CannotRead(fs: FileSystem, path: Path) {
    fs(path).Unreadable? || Broken in fs(path).entries
  }

  lemma UnderExtends(fs: FileSystem, root: Path, path: Path, name: string)
    requires Under(fs, root, path) && HasDirectory(fs, path, name)
    ensures Under(fs, root, path + [name])
  {
    assert (path + [name])[..|path|] == path;
  }

  lemma {:induction false} UnderIsLonger(fs: FileSystem, root: Path, path: Path)
    requires Under(fs, root, path)
    ensures |root| <= |path|
    decreases |path|
  {
    if path != root {
      UnderIsLonger(fs, root, path[..|path| - 1]);
    }
  }

  lemma {:induction false} UnderIsPrefix(fs: FileSystem, root: Path, path: Path)
    requires Under(fs, root, path)
    ensures root <= path
    decreases |path|
  {
    if path != root {
      UnderIsPrefix(fs, root, path[..|path| - 1]);
    }
  }

  lemma {:induction false} UnderJoins(fs: FileSystem, root: Path, middle: Path, path: Path)
    requires Under(fs, root, middle) && Under(fs, middle, path)
    ensures Under(fs, root, path)
    decreases |path|
  {
    if path != middle {
      UnderJoins(fs, root, middle, path[..|path| - 1]);
    }
  }

  lemma UnderRecursiveJoins(fs: FileSystem, roots: seq<Watch>, middle: Path, path: Path)
    requires UnderRecursive(fs, roots, middle) && Under(fs, middle, path)
    ensures UnderRecursive(fs, roots, path)
  {
    var i :| 0 <= i < |roots| && roots[i].recursive && Under(fs, roots[i].path, middle);
    UnderJoins(fs, roots[i].path, middle, path);
  }

  lemma MoreRoots(fs: FileSystem, roots: seq<Watch>, more: seq<Watch>, path: Path)
    ensures IsRoot(roots, path) ==> IsRoot(roots + more, path)
    ensures UnderRecursive(fs, roots, path) ==> UnderRecursive(fs, roots + more, path)
    ensures InPlan(fs, roots, path) ==> InPlan(fs, roots + more, path)
  {
    assert forall i :: 0 <= i < |roots| ==> (roots + more)[i] == roots[i];
  }

  lemma UnderRecursiveExtends(fs: FileSystem, roots: seq<Watch>, path: Path, name: string)
    requires UnderRecursive(fs, roots, path) && HasDirectory(fs, path, name)
    ensures UnderRecursive(fs, roots, path + [name])
  {
    var i :| 0 <= i < |roots| && roots[i].recursive && Under(fs, roots[i].path, path);
    UnderExtends(fs, roots[i].path, path, name);
  }

  // ----- The worklist -----

  type Planned = map<Path, bool>

  /** The directories among the entries, queued for expansion. */
  function Children(path: Path, entries: seq<Entry>): seq<Watch> {
    if entries == [] then []
    else
      var before := Children(path, entries[..|entries| - 1]);
      match entries[|entries| - 1]
      case Directory(name) => before + [Watch(path + [name], true)]
      case _ => before
  }

  predicate IsChild(path: Path, entries: seq<Entry>, w: Watch) {
    exists i :: 0 <= i < |entries| && entries[i].Directory? && w == Watch(path + [entries[i].name], true)
  }

  lemma {:induction false} ChildrenAre(path: Path, entries: seq<Entry>, w: Watch)
    ensures w in Children(path, entries) <==> IsChild(path, entries, w)
  {
    if entries != [] {
      var front := entries[..|entries| - 1];
      ChildrenAre(path, front, w);
      assert forall i :: 0 <= i < |front| ==> front[i] == entries[i];
      var last := entries[|entries| - 1];
      if w in Children(path, entries) && w !in Children(path, front) {
        assert last.Directory? && w == Watch(path + [last.name], true);
      }
    }
  }

  ghost predicate OnStack(stack: seq<Watch>, path: Path) {
    exists i :: 0 <= i < |stack| && stack[i].path == path
  }

  ghost predicate Expanded(paths: Planned, path: Path) {
    path in paths && paths[path]
  }

  /** Nothing is planned, expanded or queued that the roots taken do not ask for. */
  ghost predicate Sound(fs: FileSystem, seen: seq<Watch>, paths: Planned, stack: seq<Watch>) {
    && (forall p :: p in paths ==> InPlan(fs, seen, p))
    && (forall p :: Expanded(paths, p) ==> UnderRecursive(fs, seen, p))
    && (forall i :: 0 <= i < |stack| ==> stack[i].recursive && UnderRecursive(fs, seen, stack[i].path))
  }

  ghost predicate Handled(paths: Planned, stack: seq<Watch>, path: Path) {
    Expanded(paths, path) || OnStack(stack, path)
  }

  /** Every directory of every expanded path is expanded or queued. */
  ghost predicate Closed(fs: FileSystem, paths: Planned, stack: seq<Watch>) {
    forall p, name :: Expanded(paths, p) && HasDirectory(fs, p, name) ==> Handled(paths, stack, p + [name])
  }

  ghost predicate RootsTaken(seen: seq<Watch>, paths: Planned) {
    forall i :: 0 <= i < |seen| ==> seen[i].path in paths && (seen[i].recursive ==> Expanded(paths, seen[i].path))
  }

  /** With nothing queued, everything below an expanded path is planned. */
  lemma {:induction false} ClosedReaches(fs: FileSystem, paths: Planned, root: Path, path: Path)
    requires Closed(fs, paths, []) && Expanded(paths, root) && Under(fs, root, path)
    ensures Expanded(paths, path)
    decreases |path|
  {
    if path != root {
      var parent := path[..|path| - 1];
      ClosedReaches(fs, paths, root, parent);
      assert path == parent + [path[|path| - 1]];
      assert Handled(paths, [], path);
    }
  }

  lemma PlanIsComplete(fs: FileSystem, roots: seq<Watch>, paths: Planned)
    requires Closed(fs, paths, []) && RootsTaken(roots, paths)
    ensures forall p :: UnderRecursive(fs, roots, p) ==> Expanded(paths, p)
    ensures forall p :: InPlan(fs, roots, p) ==> p in paths
  {
    forall p | UnderRecursive(fs, roots, p) ensures Expanded(paths, p) {
      var i :| 0 <= i < |roots| && roots[i].recursive && Under(fs, roots[i].path, p);
      ClosedReaches(fs, paths, roots[i].path, p);
    }
  }

  // ----- One turn of the loop -----

  /** A path is planned; a recursive visit marks it expanded. */
  function Visit(paths: Planned, w: Watch): Planned {
    paths[w.path := w.recursive || (w.path in paths && paths[w.path])]
  }

  ghost predicate Settled(fs: FileSystem, seen: seq<Watch>, paths: Planned, stack: seq<Watch>) {
    Sound(fs, seen, paths, stack) && Closed(fs, paths, stack) && RootsTaken(seen, paths)
  }

  /** As Settled, with `w` taken off and not yet visited. */
  ghost predicate Ready(fs: FileSystem, seen: seq<Watch>, paths: Planned, stack: seq<Watch>, w: Watch) {
    && Sound(fs, seen, paths, stack) && InPlan(fs, seen, w.path) && (w.recursive ==> UnderRecursive(fs, seen, w.path))
    && (forall p, name :: Expanded(paths, p) && HasDirectory(fs, p, name) ==>
          Handled(paths, stack, p + [name]) || (w.recursive && w.path == p + [name]))
    && RootsTaken(seen, Visit(paths, w))
  }

  lemma HandledWithout(paths: Planned, stack: seq<Watch>, path: Path)
    requires stack != [] && Handled(paths, stack, path)
    ensures Handled(paths, stack[..|stack| - 1], path) || stack[|stack| - 1].path == path
  {
    if OnStack(stack, path) {
      var i :| 0 <= i < |stack| && stack[i].path == path;
      assert i < |stack| - 1 ==> stack[..|stack| - 1][i].path == path;
    }
  }

  lemma TakenAfterVisit(seen: seq<Watch>, paths: Planned, w: Watch)
    requires RootsTaken(seen, paths)
    ensures RootsTaken(seen, Visit(paths, w))
  {
  }

  lemma PopIsReady(fs: FileSystem, seen: seq<Watch>, paths: Planned, stack: seq<Watch>)
    requires stack != [] && Settled(fs, seen, paths, stack)
    ensures Ready(fs, seen, paths, stack[..|stack| - 1], stack[|stack| - 1])
  {
    var front, w := stack[..|stack| - 1], stack[|stack| - 1];
    assert w.recursive && UnderRecursive(fs, seen, w.path);
    forall p, name | Expanded(paths, p) && HasDirectory(fs, p, name)
      ensures Handled(paths, front, p + [name]) || (w.recursive && w.path == p + [name])
    {
      HandledWithout(paths, stack, p + [name]);
    }
    assert Sound(fs, seen, paths, front);
    TakenAfterVisit(seen, paths, w);
  }

  lemma RootIsReady(fs: FileSystem, seen: seq<Watch>, paths: Planned, w: Watch)
    requires Settled(fs, seen, paths, [])
    ensures Ready(fs, seen + [w], paths, [], w)
  {
    assert (seen + [w])[|seen|] == w && Under(fs, w.path, w.path);
    forall p ensures InPlan(fs, seen, p) ==> InPlan(fs, seen + [w], p)
      ensures UnderRecursive(fs, seen, p) ==> UnderRecursive(fs, seen + [w], p)
    {
      MoreRoots(fs, seen, [w], p);
    }
    forall i | 0 <= i < |seen + [w]|
      ensures (seen + [w])[i].path in Visit(paths, w)
      ensures (seen + [w])[i].recursive ==> Expanded(Visit(paths, w), (seen + [w])[i].path)
    {
      assert i < |seen| ==> (seen + [w])[i] == seen[i];
    }
  }

  /** A visit that does not descend settles. */
  lemma VisitSettles(fs: FileSystem, seen: seq<Watch>, paths: Planned, stack: seq<Watch>, w: Watch)
    requires Ready(fs, seen, paths, stack, w)
    ensures Sound(fs, seen, Visit(paths, w), stack)
    ensures !w.recursive || Expanded(paths, w.path) ==> Settled(fs, seen, Visit(paths, w), stack)
  {
    var paths' := Visit(paths, w);
    assert forall p :: Expanded(paths, p) ==> Expanded(paths', p);
    if !w.recursive || Expanded(paths, w.path) {
      forall p, name | Expanded(paths', p) && HasDirectory(fs, p, name) ensures Handled(paths', stack, p + [name]) {
        assert Expanded(paths, p);
      }
    }
  }

  lemma SoundChildren(fs: FileSystem, seen: seq<Watch>, paths: Planned, stack: seq<Watch>, path: Path, k: nat)
    requires Sound(fs, seen, paths, stack) && UnderRecursive(fs, seen, path)
    requires fs(path).Entries? && k <= |fs(path).entries|
    ensures Sound(fs, seen, paths, stack + Children(path, fs(path).entries[..k]))
  {
    var entries := fs(path).entries[..k];
    var more := stack + Children(path, entries);
    forall i | 0 <= i < |more| ensures more[i].recursive && UnderRecursive(fs, seen, more[i].path) {
      if i >= |stack| {
        ChildrenAre(path, entries, more[i]);
        var j :| 0 <= j < |entries| && entries[j].Directory? && more[i] == Watch(path + [entries[j].name], true);
        assert fs(path).entries[j] == entries[j];
        UnderRecursiveExtends(fs, seen, path, entries[j].name);
      }
    }
  }

  lemma DescentCloses(fs: FileSystem, seen: seq<Watch>, paths: Planned, stack: seq<Watch>, w: Watch)
    requires Ready(fs, seen, paths, stack, w) && w.recursive && fs(w.path).Entries?
    ensures Closed(fs, Visit(paths, w), stack + Children(w.path, fs(w.path).entries))
  {
    var paths' := Visit(paths, w);
    var children := Children(w.path, fs(w.path).entries);
    forall p, name | Expanded(paths', p) && HasDirectory(fs, p, name)
      ensures Handled(paths', stack + children, p + [name])
    {
      if p == w.path {
        ChildIsQueued(fs, p, name);
        OnEither(stack, children, p + [name]);
      } else {
        assert Expanded(paths, p);
        OnEither(stack, children, p + [name]);
      }
    }
  }

  lemma OnEither(first: seq<Watch>, second: seq<Watch>, path: Path)
    ensures OnStack(first, path) || Watch(path, true) in second ==> OnStack(first + second, path)
  {
    if OnStack(first, path) {
      var i :| 0 <= i < |first| && first[i].path == path;
      assert (first + second)[i].path == path;
    } else if Watch(path, true) in second {
      var j :| 0 <= j < |second| && second[j] == Watch(path, true);
      assert (first + second)[|first| + j].path == path;
    }
  }

  /** A visit whose children are all queued settles. */
  lemma DescentSettles(fs: FileSystem, seen: seq<Watch>, paths: Planned, stack: seq<Watch>, w: Watch)
    requires Ready(fs, seen, paths, stack, w) && w.recursive && fs(w.path).Entries?
    ensures Settled(fs, seen, Visit(paths, w), stack + Children(w.path, fs(w.path).entries))
  {
    var entries := fs(w.path).entries;
    assert entries[..|entries|] == entries;
    VisitSettles(fs, seen, paths, stack, w);
    SoundChildren(fs, seen, Visit(paths, w), stack, w.path, |entries|);
    DescentCloses(fs, seen, paths, stack, w);
  }

  lemma ChildIsQueued(fs: FileSystem, path: Path, name: string)
    requires HasDirectory(fs, path, name)
    ensures Watch(path + [name], true) in Children(path, fs(path).entries)
  {
    var entries := fs(path).entries;
    var i :| 0 <= i < |entries| && entries[i] == Directory(name);
    ChildrenAre(path, entries, Watch(path + [name], true));
  }

  // ----- Counting nothing twice in vain -----

  ghost predicate ParentExpanded(paths: Planned, path: Path) {
    path != [] && Expanded(paths, path[..|path| - 1])
  }

  /** Something at or below this path is not planned yet. */
  ghost predicate Open(fs: FileSystem, paths: Planned, path: Path) {
    exists d :: Under(fs, path, d) && d !in paths
  }

  /** No queued path lies in another. */
  ghost predicate Antichain(stack: seq<Watch>) {
    forall i, k :: 0 <= i < |stack| && 0 <= k < |stack| && i != k ==> !(stack[i].path <= stack[k].path)
  }

  /** What the roots before the latest ask for is expanded. */
  ghost predicate EarlierDone(fs: FileSystem, earlier: seq<Watch>, paths: Planned) {
    forall p :: UnderRecursive(fs, earlier, p) ==> Expanded(paths, p)
  }

  /** Whatever is there has come from the roots before the latest, or down from it. */
  ghost predicate Traced(fs: FileSystem, earlier: seq<Watch>, latest: Path, paths: Planned) {
    && (forall p :: p in paths ==> InPlan(fs, earlier, p) || p == latest || ParentExpanded(paths, p))
    && (forall p :: Expanded(paths, p) ==> UnderRecursive(fs, earlier, p) || p == latest || ParentExpanded(paths, p))
  }

  ghost predicate Pending(fs: FileSystem, latest: Watch, paths: Planned, path: Path) {
    latest.recursive && Under(fs, latest.path, path) && ParentExpanded(paths, path) && Open(fs, paths, path)
  }

  ghost predicate AllPending(fs: FileSystem, latest: Watch, paths: Planned, stack: seq<Watch>) {
    forall i :: 0 <= i < |stack| ==> Pending(fs, latest, paths, stack[i].path)
  }

  ghost predicate Tidy(fs: FileSystem, earlier: seq<Watch>, latest: Watch, paths: Planned, stack: seq<Watch>) {
    && Antichain(stack) && AllPending(fs, latest, paths, stack)
    && EarlierDone(fs, earlier, paths) && Traced(fs, earlier, latest.path, paths)
  }

  /** As Tidy, with `w` taken off and not yet visited. */
  ghost predicate TidyBut(
    fs: FileSystem, earlier: seq<Watch>, latest: Watch, paths: Planned, stack: seq<Watch>, w: Watch)
  {
    && Tidy(fs, earlier, latest, paths, stack)
    && (forall i :: 0 <= i < |stack| ==> !(stack[i].path <= w.path) && !(w.path <= stack[i].path))
    && (w.path == latest.path || ParentExpanded(paths, w.path))
    && (w.recursive ==> latest.recursive && Under(fs, latest.path, w.path))
  }

  lemma PopIsTidy(fs: FileSystem, earlier: seq<Watch>, latest: Watch, paths: Planned, stack: seq<Watch>)
    requires stack != [] && Tidy(fs, earlier, latest, paths, stack)
    ensures TidyBut(fs, earlier, latest, paths, stack[..|stack| - 1], stack[|stack| - 1])
  {
  }

  /** All that came before has been expanded when a root is taken. */
  lemma RootIsTidy(fs: FileSystem, seen: seq<Watch>, paths: Planned, w: Watch)
    requires Settled(fs, seen, paths, [])
    ensures TidyBut(fs, seen, w, paths, [], w)
  {
    PlanIsComplete(fs, seen, paths);
  }

  lemma StillOpen(fs: FileSystem, paths: Planned, path: Path, w: Watch)
    requires Open(fs, paths, path) && !(path <= w.path)
    ensures Open(fs, Visit(paths, w), path)
  {
    var d :| Under(fs, path, d) && d !in paths;
    UnderIsPrefix(fs, path, d);
  }

  lemma VisitIsTidy(fs: FileSystem, earlier: seq<Watch>, latest: Watch, paths: Planned, stack: seq<Watch>, w: Watch)
    requires TidyBut(fs, earlier, latest, paths, stack, w)
    ensures Tidy(fs, earlier, latest, Visit(paths, w), stack)
  {
    var paths' := Visit(paths, w);
    assert forall p :: Expanded(paths, p) ==> Expanded(paths', p);
    forall i | 0 <= i < |stack| ensures Pending(fs, latest, paths', stack[i].path) {
      assert Pending(fs, latest, paths, stack[i].path);
      StillOpen(fs, paths, stack[i].path, w);
    }
    assert Traced(fs, earlier, latest.path, paths') by {
      forall p | ParentExpanded(paths, p) ensures ParentExpanded(paths', p) {
      }
    }
  }

  /** Below a path that is only now queued, whatever is expanded the earlier roots
      have asked for. */
  lemma {:induction false} ExpandedBelow(
    fs: FileSystem, earlier: seq<Watch>, latest: Path, paths: Planned, child: Path, q: Path)
    requires child != [] && !Expanded(paths, child[..|child| - 1]) && |latest| < |child|
    requires Traced(fs, earlier, latest, paths) && Under(fs, child, q) && Expanded(paths, q)
    ensures UnderRecursive(fs, earlier, q)
    decreases |q|
  {
    UnderIsLonger(fs, child, q);
    if q != child && ParentExpanded(paths, q) {
      var parent, name := q[..|q| - 1], q[|q| - 1];
      ExpandedBelow(fs, earlier, latest, paths, child, parent);
      assert q == parent + [name];
      UnderRecursiveExtends(fs, earlier, parent, name);
    }
  }

  lemma PlannedBelow(
    fs: FileSystem, earlier: seq<Watch>, latest: Path, paths: Planned, child: Path, d: Path)
    requires child != [] && !Expanded(paths, child[..|child| - 1]) && |latest| < |child|
    requires Traced(fs, earlier, latest, paths) && Under(fs, child, d) && d != child && d in paths
    ensures InPlan(fs, earlier, d)
  {
    UnderIsLonger(fs, child, d);
    if ParentExpanded(paths, d) {
      var parent, name := d[..|d| - 1], d[|d| - 1];
      ExpandedBelow(fs, earlier, latest, paths, child, parent);
      assert d == parent + [name];
      UnderRecursiveExtends(fs, earlier, parent, name);
    }
  }

  /** A child that is planned already when its directory is first read is an earlier
      root, queued again. */
  lemma RequeuedIsRoot(
    fs: FileSystem, earlier: seq<Watch>, latest: Watch, paths: Planned, stack: seq<Watch>, w: Watch, name: string)
    requires TidyBut(fs, earlier, latest, paths, stack, w) && w.recursive && !Expanded(paths, w.path)
    requires HasDirectory(fs, w.path, name) && w.path + [name] in paths
    ensures IsRoot(earlier, w.path + [name]) && Requeues(fs, earlier, latest, w.path + [name])
  {
    var child := w.path + [name];
    assert child[..|child| - 1] == w.path;
    UnderIsLonger(fs, latest.path, w.path);
    UnderExtends(fs, latest.path, w.path, name);
    assert !UnderRecursive(fs, earlier, w.path);
    assert !ParentExpanded(paths, child);
    assert InPlan(fs, earlier, child);
    if UnderRecursive(fs, earlier, child) {
      var i :| 0 <= i < |earlier| && earlier[i].recursive && Under(fs, earlier[i].path, child);
      assert earlier[i].path == child;
    }
  }

  lemma ChildIsOpen(
    fs: FileSystem, earlier: seq<Watch>, latest: Watch, paths: Planned, stack: seq<Watch>, w: Watch, name: string)
    requires TidyBut(fs, earlier, latest, paths, stack, w) && w.recursive && !Expanded(paths, w.path)
    requires HasDirectory(fs, w.path, name) && Careful(fs, earlier + [latest])
    ensures Open(fs, Visit(paths, w), w.path + [name])
  {
    var child := w.path + [name];
    assert Under(fs, child, child);
    assert child[..|child| - 1] == w.path;
    if child in paths {
      RequeuedIsRoot(fs, earlier, latest, paths, stack, w, name);
      RequeuedIsUnfinished(fs, earlier, latest, child);
      var d :| Under(fs, child, d) && !InPlan(fs, earlier, d);
      UnderIsLonger(fs, latest.path, w.path);
      UnderIsLonger(fs, child, d);
      if d in paths {
        PlannedBelow(fs, earlier, latest.path, paths, child, d);
      }
    }
  }

  lemma RequeuedIsUnfinished(fs: FileSystem, earlier: seq<Watch>, latest: Watch, path: Path)
    requires Careful(fs, earlier + [latest]) && IsRoot(earlier, path) && Requeues(fs, earlier, latest, path)
    ensures Unfinished(fs, earlier, path)
  {
    var roots, k := earlier + [latest], |earlier|;
    assert roots[..k] == earlier && roots[k] == latest;
    var i :| 0 <= i < |earlier| && earlier[i].path == path;
    assert roots[i].path == path;
  }

  lemma ChildIsPending(
    fs: FileSystem, earlier: seq<Watch>, latest: Watch, paths: Planned, stack: seq<Watch>, w: Watch, name: string)
    requires TidyBut(fs, earlier, latest, paths, stack, w) && w.recursive && !Expanded(paths, w.path)
    requires HasDirectory(fs, w.path, name) && Careful(fs, earlier + [latest])
    ensures Pending(fs, latest, Visit(paths, w), w.path + [name])
  {
    var child := w.path + [name];
    assert child[..|child| - 1] == w.path;
    UnderExtends(fs, latest.path, w.path, name);
    ChildIsOpen(fs, earlier, latest, paths, stack, w, name);
  }

  lemma NoNameTwice(entries: seq<Entry>, k: nat, j: nat)
    requires Distinct(entries) && j < k < |entries| && entries[k].Directory?
    ensures entries[j] != entries[k]
  {
    SameTwice(entries, k, j);
  }

  lemma SameTwice(entries: seq<Entry>, k: nat, j: nat)
    requires j < k < |entries|
    ensures entries[j] == entries[k] ==> multiset(entries)[entries[k]] >= 2
  {
    assert entries == entries[..k] + [entries[k]] + entries[k + 1..];
    if entries[j] == entries[k] {
      assert entries[..k][j] == entries[k];
      assert multiset(entries)[entries[k]] >= multiset(entries[..k])[entries[k]] + 1;
    }
  }

  /** The children queued so far lie beside each other. */
  lemma {:induction false} ChildrenApart(path: Path, entries: seq<Entry>, stack: seq<Watch>, k: nat)
    requires Distinct(entries) && k <= |entries| && Antichain(stack)
    requires forall i :: 0 <= i < |stack| ==> !(stack[i].path <= path) && !(path <= stack[i].path)
    ensures Antichain(stack + Children(path, entries[..k]))
  {
    if k == 0 {
      assert stack + Children(path, entries[..0]) == stack;
    } else {
      ChildrenApart(path, entries, stack, k - 1);
      assert entries[..k][..k - 1] == entries[..k - 1];
      var before := Children(path, entries[..k - 1]);
      if entries[k - 1].Directory? {
        var child := Watch(path + [entries[k - 1].name], true);
        forall i | 0 <= i < |before| ensures !(before[i].path <= child.path) && !(child.path <= before[i].path) {
          ChildrenAre(path, entries[..k - 1], before[i]);
          var j :| 0 <= j < k - 1 && entries[..k - 1][j].Directory?
            && before[i] == Watch(path + [entries[..k - 1][j].name], true);
          NoNameTwice(entries, k - 1, j);
          assert before[i].path[|path|] != child.path[|path|];
        }
        forall i | 0 <= i < |stack| ensures !(stack[i].path <= child.path) && !(child.path <= stack[i].path) {
          BesideChild(stack[i].path, path, entries[k - 1].name);
        }
        AntichainSnoc(stack + before, child);
        assert (stack + before) + [child] == stack + (before + [child]);
      }
    }
  }

  lemma BesideChild(other: Path, path: Path, name: string)
    ensures other <= path + [name] ==> other <= path || path <= other
    ensures path + [name] <= other ==> path <= other
  {
    if other <= path + [name] && |other| <= |path| {
      assert other == (path + [name])[..|other|] == path[..|other|];
    }
    if path + [name] <= other {
      assert other[..|path|] == (path + [name])[..|path|] == path;
    }
  }

  lemma PrefixesCompare(a: Path, b: Path, whole: Path)
    ensures a <= whole && b <= whole ==> a <= b || b <= a
  {
    if a <= whole && b <= whole {
      assert |a| <= |b| ==> a == b[..|a|];
      assert |b| <= |a| ==> b == a[..|b|];
    }
  }

  lemma AntichainSnoc(stack: seq<Watch>, w: Watch)
    requires Antichain(stack)
    requires forall i :: 0 <= i < |stack| ==> !(stack[i].path <= w.path) && !(w.path <= stack[i].path)
    ensures Antichain(stack + [w])
  {
  }

  lemma ChildrenPending(
    fs: FileSystem, earlier: seq<Watch>, latest: Watch, paths: Planned, stack: seq<Watch>, w: Watch, k: nat)
    requires TidyBut(fs, earlier, latest, paths, stack, w) && w.recursive && !Expanded(paths, w.path)
    requires Careful(fs, earlier + [latest]) && fs(w.path).Entries? && k <= |fs(w.path).entries|
    ensures AllPending(fs, latest, Visit(paths, w), stack + Children(w.path, fs(w.path).entries[..k]))
  {
    var entries := fs(w.path).entries[..k];
    var more := stack + Children(w.path, entries);
    VisitIsTidy(fs, earlier, latest, paths, stack, w);
    forall i | 0 <= i < |more| ensures Pending(fs, latest, Visit(paths, w), more[i].path) {
      if i >= |stack| {
        ChildrenAre(w.path, entries, more[i]);
        var j :| 0 <= j < |entries| && entries[j].Directory? && more[i] == Watch(w.path + [entries[j].name], true);
        assert fs(w.path).entries[j] == entries[j];
        ChildIsPending(fs, earlier, latest, paths, stack, w, entries[j].name);
      }
    }
  }

  lemma DescentIsTidy(
    fs: FileSystem, earlier: seq<Watch>, latest: Watch, paths: Planned, stack: seq<Watch>, w: Watch, k: nat)
    requires TidyBut(fs, earlier, latest, paths, stack, w) && w.recursive && !Expanded(paths, w.path)
    requires Careful(fs, earlier + [latest]) && fs(w.path).Entries? && k <= |fs(w.path).entries|
    ensures Tidy(fs, earlier, latest, Visit(paths, w), stack + Children(w.path, fs(w.path).entries[..k]))
  {
    VisitIsTidy(fs, earlier, latest, paths, stack, w);
    ChildrenPending(fs, earlier, latest, paths, stack, w, k);
    ChildrenApart(w.path, fs(w.path).entries, stack, k);
  }

  /** One unplanned member for each queued path. */
  lemma {:induction false} Substitutes(fs: FileSystem, paths: Planned, stack: seq<Watch>) returns (others: set<Path>)
    requires Antichain(stack) && forall i :: 0 <= i < |stack| ==> Open(fs, paths, stack[i].path)
    ensures |others| == |stack| && others !! paths.Keys
    ensures forall d :: d in others ==> exists i :: 0 <= i < |stack| && Under(fs, stack[i].path, d)
  {
    others := {};
    if stack != [] {
      var front, last := stack[..|stack| - 1], stack[|stack| - 1].path;
      var fewer := Substitutes(fs, paths, front);
      var d :| Under(fs, last, d) && d !in paths;
      UnderIsPrefix(fs, last, d);
      forall e | e in fewer ensures e != d {
        var i :| 0 <= i < |front| && Under(fs, front[i].path, e);
        UnderIsPrefix(fs, front[i].path, e);
        PrefixesCompare(stack[i].path, last, e);
      }
      others := fewer + {d};
      forall e | e in others ensures exists i :: 0 <= i < |stack| && Under(fs, stack[i].path, e) {
        if e in fewer {
          var i :| 0 <= i < |front| && Under(fs, front[i].path, e);
          assert Under(fs, stack[i].path, e);
        } else {
          assert Under(fs, stack[|stack| - 1].path, e);
        }
      }
    }
  }

  lemma TooManyPlanned(fs: FileSystem, seen: seq<Watch>, paths: Planned, stack: seq<Watch>, limit: nat)
    requires Sound(fs, seen, paths, stack) && Antichain(stack) && |paths| + |stack| > limit
    requires forall i :: 0 <= i < |stack| ==> Open(fs, paths, stack[i].path)
    ensures PlanExceeds(fs, seen, limit)
  {
    var others := Substitutes(fs, paths, stack);
    assert |paths.Keys| == |paths| && |paths.Keys + others| == |paths.Keys| + |others|;
    SubstitutesInPlan(fs, seen, paths, stack, others);
  }

  lemma SubstitutesInPlan(fs: FileSystem, seen: seq<Watch>, paths: Planned, stack: seq<Watch>, others: set<Path>)
    requires Sound(fs, seen, paths, stack)
    requires forall d :: d in others ==> exists i :: 0 <= i < |stack| && Under(fs, stack[i].path, d)
    ensures AllInPlan(fs, seen, paths.Keys + others)
  {
    forall p | p in paths.Keys + others ensures InPlan(fs, seen, p) {
      if p in others {
        var i :| 0 <= i < |stack| && Under(fs, stack[i].path, p);
        UnderRecursiveJoins(fs, seen, stack[i].path, p);
      }
    }
  }

  /** The next child does not fit. */
  lemma RefusalIsRight(
    fs: FileSystem, earlier: seq<Watch>, latest: Watch, paths: Planned, stack: seq<Watch>, w: Watch, k: nat, limit: nat)
    requires Ready(fs, earlier + [latest], paths, stack, w) && w.recursive && !Expanded(paths, w.path)
    requires fs(w.path).Entries? && k < |fs(w.path).entries| && fs(w.path).entries[k].Directory?
    requires |Visit(paths, w)| + |stack + Children(w.path, fs(w.path).entries[..k])| + 1 > limit
    requires Careful(fs, earlier + [latest]) && TidyBut(fs, earlier, latest, paths, stack, w)
    ensures PlanExceeds(fs, earlier + [latest], limit)
  {
    var entries := fs(w.path).entries;
    var more := stack + Children(w.path, entries[..k + 1]);
    VisitSettles(fs, earlier + [latest], paths, stack, w);
    DescentIsTidy(fs, earlier, latest, paths, stack, w, k + 1);
    SoundChildren(fs, earlier + [latest], Visit(paths, w), stack, w.path, k + 1);
    assert entries[..k + 1][..k] == entries[..k];
    forall i | 0 <= i < |more| ensures Open(fs, Visit(paths, w), more[i].path) {
      assert Pending(fs, latest, Visit(paths, w), more[i].path);
    }
    TooManyPlanned(fs, earlier + [latest], Visit(paths, w), more, limit);
  }

  // ----- The specification -----

  function ExpandedSet(paths: Planned): set<Path> {
    set p | p in paths && paths[p]
  }

  lemma ExpandedSize(paths: Planned, w: Watch)
    ensures |ExpandedSet(paths)| <= |paths|
    ensures w.recursive && !Expanded(paths, w.path) ==> |ExpandedSet(Visit(paths, w))| == |ExpandedSet(paths)| + 1
    ensures !w.recursive || Expanded(paths, w.path) ==> ExpandedSet(Visit(paths, w)) == ExpandedSet(paths)
  {
    SubsetSize(ExpandedSet(paths), paths.Keys);
    assert |paths.Keys| == |paths|;
    SizeChange(ExpandedSet(paths), ExpandedSet(Visit(paths, w)), w.path);
  }

  ghost predicate NoRoom(fs: FileSystem, path: Path, planned: nat, stack: seq<Watch>, k: nat, limit: nat) {
    && fs(path).Entries? && k < |fs(path).entries| && fs(path).entries[k].Directory?
    && planned + |stack + Children(path, fs(path).entries[..k])| + 1 > limit
  }

  function Queue(path: Path, entries: seq<Entry>, planned: nat, stack: seq<Watch>, limit: nat)
    : Result<seq<Watch>, Error>
  {
    if entries == [] then Ok(stack)
    else
      match entries[0]
      case Broken => Err(IoFailed)
      case File(_) => Queue(path, entries[1..], planned, stack, limit)
      case Directory(name) =>
        if planned + |stack| + 1 > limit then Err(BudgetExceeded)
        else Queue(path, entries[1..], planned, stack + [Watch(path + [name], true)], limit)
  }

  function Queued(fs: FileSystem, path: Path, planned: nat, stack: seq<Watch>, limit: nat): Result<seq<Watch>, Error> {
    if fs(path).Unreadable? then Err(IoFailed) else Queue(path, fs(path).entries, planned, stack, limit)
  }

  /** Reads one directory and queues the directories in it, while they fit. */
  method QueueDirectories(fs: FileSystem, path: Path, planned: nat, stack: seq<Watch>, limit: nat)
    returns (r: Result<seq<Watch>, Error>)
    ensures r == Queued(fs, path, planned, stack, limit)
  {
    if fs(path).Unreadable? {
      return Err(IoFailed);
    }
    var entries, queue := fs(path).entries, stack;
    var k := 0;
    while k < |entries|
      invariant k <= |entries|
      invariant Queued(fs, path, planned, stack, limit) == Queue(path, entries[k..], planned, queue, limit)
    {
      assert entries[k..][0] == entries[k] && entries[k..][1..] == entries[k + 1..];
      match entries[k] {
        case Broken => return Err(IoFailed);
        case File(_) =>
        case Directory(name) =>
          if planned + |queue| + 1 > limit {
            return Err(BudgetExceeded);
          }
          queue := queue + [Watch(path + [name], true)];
      }
      k := k + 1;
    }
    return Ok(queue);
  }

  /** The plan from a state of the worklist on. */
  function Scan(fs: FileSystem, roots: seq<Watch>, paths: Planned, stack: seq<Watch>, limit: nat)
    : Result<set<Path>, Error>
    requires |paths| <= limit
    decreases limit - |ExpandedSet(paths)|, |stack| + |roots|, 0
  {
    if stack == [] && roots == [] then Ok(paths.Keys)
    else
      var w := if stack != [] then stack[|stack| - 1] else roots[0];
      var later := if stack != [] then roots else roots[1..];
      var rest := if stack != [] then stack[..|stack| - 1] else [];
      ScanTurn(fs, w, later, paths, rest, limit)
  }

  function ScanTurn(fs: FileSystem, w: Watch, roots: seq<Watch>, paths: Planned, stack: seq<Watch>, limit: nat)
    : Result<set<Path>, Error>
    requires |paths| <= limit
    decreases limit - |ExpandedSet(paths)|, |stack| + |roots|, 1
  {
    ExpandedSize(paths, w);
    ExpandedSize(Visit(paths, w), w);
    if |Visit(paths, w)| > limit then Err(BudgetExceeded)
    else if !w.recursive || (w.path in paths && paths[w.path]) then Scan(fs, roots, Visit(paths, w), stack, limit)
    else
      match Queued(fs, w.path, |Visit(paths, w)|, stack, limit)
      case Ok(more) => Scan(fs, roots, Visit(paths, w), more, limit)
      case Err(e) => Err(e)
  }

  // ----- What a plan is -----

  /** A plan is exactly the roots and what lies below the recursive ones, within the
      limit, and all that had to be read for it was read.  The budget is refused only
      when the plan exceeds it, if every root that a later one queues again leaves that
      one something to plan; reading fails only where some directory of the plan cannot
      be read. */
  ghost predicate RightResult(fs: FileSystem, roots: seq<Watch>, limit: nat, r: Result<set<Path>, Error>) {
    match r
    case Ok(paths) =>
      && |paths| <= limit && (forall p :: p in paths <==> InPlan(fs, roots, p))
      && (forall p :: UnderRecursive(fs, roots, p) ==> !CannotRead(fs, p))
    case Err(BudgetExceeded) => Careful(fs, roots) ==> PlanExceeds(fs, roots, limit)
    case Err(IoFailed) => exists p :: UnderRecursive(fs, roots, p) && CannotRead(fs, p)
  }

  lemma {:induction false} QueueAnswers(
    fs: FileSystem, path: Path, planned: nat, stack: seq<Watch>, limit: nat, k: nat)
    requires fs(path).Entries? && k <= |fs(path).entries|
    ensures var entries := fs(path).entries;
      match Queue(path, entries[k..], planned, stack + Children(path, entries[..k]), limit)
      case Ok(more) => more == stack + Children(path, entries) && Broken !in entries[k..]
      case Err(BudgetExceeded) => exists j :: NoRoom(fs, path, planned, stack, j, limit)
      case Err(IoFailed) => Broken in entries
    decreases |fs(path).entries| - k
  {
    var entries := fs(path).entries;
    if k == |entries| {
      assert entries[..k] == entries;
    } else {
      assert entries[k..][0] == entries[k] && entries[k..][1..] == entries[k + 1..];
      assert entries[..k + 1][..k] == entries[..k];
      if entries[k].Directory? && planned + |stack + Children(path, entries[..k])| + 1 > limit {
        assert NoRoom(fs, path, planned, stack, k, limit);
      } else if !entries[k].Broken? {
        QueueAnswers(fs, path, planned, stack, limit, k + 1);
        if entries[k].Directory? {
          var child := Watch(path + [entries[k].name], true);
          assert stack + Children(path, entries[..k + 1]) == (stack + Children(path, entries[..k])) + [child];
        }
      }
    }
  }

  lemma QueuedAnswers(fs: FileSystem, path: Path, planned: nat, stack: seq<Watch>, limit: nat)
    ensures match Queued(fs, path, planned, stack, limit)
      case Ok(more) => !CannotRead(fs, path) && more == stack + Children(path, fs(path).entries)
      case Err(BudgetExceeded) => exists j :: NoRoom(fs, path, planned, stack, j, limit)
      case Err(IoFailed) => CannotRead(fs, path)
  {
    if fs(path).Entries? {
      var entries := fs(path).entries;
      assert entries[0..] == entries && stack + Children(path, entries[..0]) == stack;
      QueueAnswers(fs, path, planned, stack, limit, 0);
    }
  }

  /** Whatever has been expanded could be read. */
  ghost predicate AllRead(fs: FileSystem, paths: Planned) {
    forall p :: Expanded(paths, p) ==> !CannotRead(fs, p)
  }

  /** A state of the worklist, with the roots taken and the roots to come. */
  ghost predicate Reachable(fs: FileSystem, seen: seq<Watch>, rest: seq<Watch>, paths: Planned, stack: seq<Watch>) {
    && Settled(fs, seen, paths, stack) && AllRead(fs, paths) && (seen == [] ==> stack == [])
    && (Careful(fs, seen + rest) && seen != [] ==> Tidy(fs, seen[..|seen| - 1], seen[|seen| - 1], paths, stack))
  }

  lemma CarefulPrefix(fs: FileSystem, seen: seq<Watch>, rest: seq<Watch>)
    requires Careful(fs, seen + rest)
    ensures Careful(fs, seen)
  {
    var roots := seen + rest;
    forall i, k | 0 <= i < k < |seen| && Requeues(fs, seen[..k], seen[k], seen[i].path)
      ensures Unfinished(fs, seen[..k], seen[i].path)
    {
      assert roots[..k] == seen[..k] && roots[k] == seen[k] && roots[i] == seen[i];
    }
  }

  lemma {:induction false} ScanIsRight(
    fs: FileSystem, seen: seq<Watch>, rest: seq<Watch>, paths: Planned, stack: seq<Watch>, limit: nat)
    requires |paths| <= limit && Reachable(fs, seen, rest, paths, stack)
    ensures RightResult(fs, seen + rest, limit, Scan(fs, rest, paths, stack, limit))
    decreases limit - |ExpandedSet(paths)|, |stack| + |rest|, 0
  {
    if stack != [] {
      var earlier, latest := seen[..|seen| - 1], seen[|seen| - 1];
      PopIsRightTurn(fs, seen, rest, paths, stack);
      TurnIsRight(fs, earlier, latest, rest, paths, stack[..|stack| - 1], stack[|stack| - 1], limit);
      assert Scan(fs, rest, paths, stack, limit)
          == ScanTurn(fs, stack[|stack| - 1], rest, paths, stack[..|stack| - 1], limit);
    } else if rest != [] {
      RootIsReady(fs, seen, paths, rest[0]);
      RootIsTidy(fs, seen, paths, rest[0]);
      ThreeParts(seen, rest);
      TurnIsRight(fs, seen, rest[0], rest[1..], paths, [], rest[0], limit);
      assert Scan(fs, rest, paths, stack, limit) == ScanTurn(fs, rest[0], rest[1..], paths, [], limit);
    } else {
      ScanEnds(fs, seen, paths, limit);
      assert seen + rest == seen;
    }
  }

  lemma ThreeParts(seen: seq<Watch>, rest: seq<Watch>)
    requires rest != []
    ensures seen + rest == seen + [rest[0]] + rest[1..]
  {
  }

  lemma ScanEnds(fs: FileSystem, seen: seq<Watch>, paths: Planned, limit: nat)
    requires |paths| <= limit && Settled(fs, seen, paths, []) && AllRead(fs, paths)
    ensures RightResult(fs, seen, limit, Ok(paths.Keys))
  {
    PlanIsComplete(fs, seen, paths);
    assert |paths.Keys| == |paths|;
  }

  lemma PopIsRightTurn(fs: FileSystem, seen: seq<Watch>, rest: seq<Watch>, paths: Planned, stack: seq<Watch>)
    requires stack != [] && Reachable(fs, seen, rest, paths, stack)
    ensures var earlier, latest := seen[..|seen| - 1], seen[|seen| - 1];
      var front, w := stack[..|stack| - 1], stack[|stack| - 1];
      && seen == earlier + [latest] && Ready(fs, earlier + [latest], paths, front, w)
      && (Careful(fs, earlier + [latest] + rest) ==> TidyBut(fs, earlier, latest, paths, front, w))
  {
    assert seen == seen[..|seen| - 1] + [seen[|seen| - 1]];
    PopIsReady(fs, seen, paths, stack);
    if Careful(fs, seen + rest) {
      PopIsTidy(fs, seen[..|seen| - 1], seen[|seen| - 1], paths, stack);
    }
  }

  lemma {:induction false} TurnIsRight(
    fs: FileSystem, earlier: seq<Watch>, latest: Watch, rest: seq<Watch>, paths: Planned, stack: seq<Watch>, w: Watch,
    limit: nat)
    requires |paths| <= limit && Ready(fs, earlier + [latest], paths, stack, w) && AllRead(fs, paths)
    requires Careful(fs, earlier + [latest] + rest) ==> TidyBut(fs, earlier, latest, paths, stack, w)
    ensures RightResult(fs, earlier + [latest] + rest, limit, ScanTurn(fs, w, rest, paths, stack, limit))
    decreases limit - |ExpandedSet(paths)|, |stack| + |rest|, 1
  {
    var seen := earlier + [latest];
    var paths' := Visit(paths, w);
    ExpandedSize(paths, w);
    ExpandedSize(paths', w);
    if |paths'| > limit {
      VisitOverLimit(fs, seen, rest, paths, stack, w, limit);
    } else if !w.recursive || Expanded(paths, w.path) {
      VisitIsReachable(fs, earlier, latest, rest, paths, stack, w);
      ScanIsRight(fs, seen, rest, paths', stack, limit);
    } else {
      DescentIsRight(fs, earlier, latest, rest, paths, stack, w, limit);
      var queued := Queued(fs, w.path, |paths'|, stack, limit);
      if queued.Ok? {
        ReachableAt(fs, earlier, latest, rest, paths', queued.value);
        ScanIsRight(fs, seen, rest, paths', queued.value, limit);
      }
    }
  }

  lemma VisitOverLimit(
    fs: FileSystem, seen: seq<Watch>, rest: seq<Watch>, paths: Planned, stack: seq<Watch>, w: Watch, limit: nat)
    requires Ready(fs, seen, paths, stack, w) && |Visit(paths, w)| > limit
    ensures PlanExceeds(fs, seen + rest, limit)
  {
    VisitSettles(fs, seen, paths, stack, w);
    TooManyPlanned(fs, seen, Visit(paths, w), [], limit);
    ExceedsWithMore(fs, seen, rest, limit);
  }

  lemma VisitIsReachable(
    fs: FileSystem, earlier: seq<Watch>, latest: Watch, rest: seq<Watch>, paths: Planned, stack: seq<Watch>, w: Watch)
    requires Ready(fs, earlier + [latest], paths, stack, w) && AllRead(fs, paths)
    requires !w.recursive || Expanded(paths, w.path)
    requires Careful(fs, earlier + [latest] + rest) ==> TidyBut(fs, earlier, latest, paths, stack, w)
    ensures Reachable(fs, earlier + [latest], rest, Visit(paths, w), stack)
  {
    VisitSettles(fs, earlier + [latest], paths, stack, w);
    if Careful(fs, earlier + [latest] + rest) {
      VisitIsTidy(fs, earlier, latest, paths, stack, w);
    }
    ReachableAt(fs, earlier, latest, rest, Visit(paths, w), stack);
  }

  lemma ReachableAt(
    fs: FileSystem, earlier: seq<Watch>, latest: Watch, rest: seq<Watch>, paths: Planned, stack: seq<Watch>)
    requires Settled(fs, earlier + [latest], paths, stack) && AllRead(fs, paths)
    requires Careful(fs, earlier + [latest] + rest) ==> Tidy(fs, earlier, latest, paths, stack)
    ensures Reachable(fs, earlier + [latest], rest, paths, stack)
  {
    var seen := earlier + [latest];
    assert seen[..|seen| - 1] == earlier && seen[|seen| - 1] == latest;
  }

  lemma ExceedsWithMore(fs: FileSystem, seen: seq<Watch>, rest: seq<Watch>, limit: nat)
    requires PlanExceeds(fs, seen, limit)
    ensures PlanExceeds(fs, seen + rest, limit)
  {
    var paths: set<Path> :| |paths| > limit && AllInPlan(fs, seen, paths);
    forall p | p in paths ensures InPlan(fs, seen + rest, p) {
      MoreRoots(fs, seen, rest, p);
    }
    assert AllInPlan(fs, seen + rest, paths);
  }

  lemma DescentIsRight(
    fs: FileSystem, earlier: seq<Watch>, latest: Watch, rest: seq<Watch>, paths: Planned, stack: seq<Watch>, w: Watch,
    limit: nat)
    requires Ready(fs, earlier + [latest], paths, stack, w) && w.recursive && !Expanded(paths, w.path)
    requires Careful(fs, earlier + [latest] + rest) ==> TidyBut(fs, earlier, latest, paths, stack, w)
    ensures match Queued(fs, w.path, |Visit(paths, w)|, stack, limit)
      case Ok(more) =>
        && Settled(fs, earlier + [latest], Visit(paths, w), more) && !CannotRead(fs, w.path)
        && (Careful(fs, earlier + [latest] + rest) ==> Tidy(fs, earlier, latest, Visit(paths, w), more))
      case Err(e) => RightResult(fs, earlier + [latest] + rest, limit, Err(e))
  {
    var seen, planned := earlier + [latest], |Visit(paths, w)|;
    QueuedAnswers(fs, w.path, planned, stack, limit);
    var queued := Queued(fs, w.path, planned, stack, limit);
    if queued.Ok? {
      DescentSettles(fs, seen, paths, stack, w);
      if Careful(fs, seen + rest) {
        CarefulPrefix(fs, seen, rest);
        DescentIsTidy(fs, earlier, latest, paths, stack, w, |fs(w.path).entries|);
        assert fs(w.path).entries[..|fs(w.path).entries|] == fs(w.path).entries;
      }
    } else if queued.error == BudgetExceeded {
      if Careful(fs, seen + rest) {
        CarefulPrefix(fs, seen, rest);
        var k: nat :| NoRoom(fs, w.path, planned, stack, k, limit);
        RefusalIsRight(fs, earlier, latest, paths, stack, w, k, limit);
        ExceedsWithMore(fs, seen, rest, limit);
      }
    } else {
      MoreRoots(fs, seen, rest, w.path);
    }
  }

  lemma StartIsReachable(fs: FileSystem, roots: seq<Watch>)
    ensures Reachable(fs, [], roots, map[], [])
  {
  }

  lemma PlanIsRight(fs: FileSystem, roots: seq<Watch>, limit: nat)
    ensures RightResult(fs, roots, limit, Scan(fs, roots, map[], [], limit))
  {
    StartIsReachable(fs, roots);
    ScanIsRight(fs, [], roots, map[], [], limit);
    assert [] + roots == roots;
  }

  /** The plan comes sorted. */
  method BoundedWatchPaths(fs: FileSystem, roots: seq<Watch>, limit: nat) returns (r: Result<seq<Path>, Error>)
    ensures match Scan(fs, roots, map[], [], limit)
      case Ok(plan) => r.Ok? && Lists(r.value, plan, PathLe)
      case Err(e) => r == Err(e)
    ensures RightResult(fs, roots, limit, Scan(fs, roots, map[], [], limit))
  {
    PlanIsRight(fs, roots, limit);
    assert roots[0..] == roots;
    var paths: Planned := map[];
    var stack: seq<Watch> := [];
    var taken := 0;
    while stack != [] || taken < |roots|
      invariant taken <= |roots| && |paths| <= limit && |ExpandedSet(paths)| <= limit
      invariant Scan(fs, roots, map[], [], limit) == Scan(fs, roots[taken..], paths, stack, limit)
      decreases limit - |ExpandedSet(paths)|, |stack| + |roots| - taken
    {
      assert taken < |roots| ==> roots[taken..][0] == roots[taken] && roots[taken..][1..] == roots[taken + 1..];
      var w: Watch;
      if stack != [] {
        w, stack := stack[|stack| - 1], stack[..|stack| - 1];
      } else {
        w, taken := roots[taken], taken + 1;
      }
      ExpandedSize(paths, w);
      ghost var visited := Visit(paths, w);
      var descend := w.recursive && !(w.path in paths && paths[w.path]);
      paths := paths[w.path := w.recursive || (w.path in paths && paths[w.path])];
      assert paths == visited;
      if |paths| > limit {
        return Err(BudgetExceeded);
      }
      ExpandedSize(paths, w);
      if !descend {
        continue;
      }
      var read := QueueDirectories(fs, w.path, |paths|, stack, limit);
      if read.Err? {
        return Err(read.error);
      }
      stack := read.value;
    }
    PathsAreOrdered();
    var sorted := Listed(paths.Keys, PathLe);
    return Ok(sorted);
  }

  /** Under that condition, and where everything can be read, a plan is made exactly
      when it fits. */
  lemma PlanFitsOrExceeds(fs: FileSystem, roots: seq<Watch>, limit: nat, plan: set<Path>)
    requires forall p :: p in plan <==> InPlan(fs, roots, p)
    ensures PlanExceeds(fs, roots, limit) <==> |plan| > limit
  {
    assert AllInPlan(fs, roots, plan);
    if PlanExceeds(fs, roots, limit) {
      var paths: set<Path> :| |paths| > limit && AllInPlan(fs, roots, paths);
      SubsetSize(paths, plan);
    }
  }

  function OneChild(path: Path): Listing {
    if path == ["a"] then Entries([Directory("b")]) else Entries([])
  }

  /** Without it, a root that is queued again below a later one is counted twice: a
      plan of two paths does not fit a limit of two. */
  lemma FittingPlanRefused()
    ensures var roots := [Watch(["a", "b"], false), Watch(["a"], true)];
      && Scan(OneChild, roots, map[], [], 2) == Err(BudgetExceeded)
      && (forall p :: InPlan(OneChild, roots, p) <==> p in {["a"], ["a", "b"]})
  {
    var first, second := Watch(["a", "b"], false), Watch(["a"], true);
    var roots := [first, second];
    var paths: Planned := Visit(map[], first);
    assert roots[1..] == [second];
    assert Scan(OneChild, roots, map[], [], 2) == ScanTurn(OneChild, first, [second], map[], [], 2);
    assert paths == map[["a", "b"] := false];
    assert Visit(paths, second) == map[["a", "b"] := false, ["a"] := true];
    assert |Visit(paths, second)| == 2 by { assert Visit(paths, second).Keys == {["a", "b"], ["a"]}; }
    assert Queued(OneChild, ["a"], 2, [], 2) == Err(BudgetExceeded);
    assert Scan(OneChild, [second], paths, [], 2) == ScanTurn(OneChild, second, [], paths, [], 2);
    forall p ensures InPlan(OneChild, roots, p) <==> p in {["a"], ["a", "b"]} {
      OneChildUnder(p);
      assert roots[0].path == ["a", "b"] && roots[1].path == ["a"];
    }
  }

  lemma OneChildUnder(path: Path)
    ensures Under(OneChild, ["a"], path) <==> path == ["a"] || path == ["a", "b"]
    decreases |path|
  {
    if path != [] && path != ["a"] {
      var parent := path[..|path| - 1];
      assert path == parent + [path[|path| - 1]];
      OneChildUnder(parent);
      assert ["a", "b"][..1] == ["a"];
    }
  }
}
