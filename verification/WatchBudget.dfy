/** When the watch planner's budget can be wrong: exactly when some root that a later
    one queues again leaves that one nothing to plan. */
module WatchBudget {
  import opened Common
  import opened WatchPlan

  // ----- The order of directory entries -----

  predicate SameEntries(a: Listing, b: Listing) {
    (a.Unreadable? && b.Unreadable?) || (a.Entries? && b.Entries? && multiset(a.entries) == multiset(b.entries))
  }

  /** The same files, whose directories list them in another order. */
  ghost predicate Reordered(fs: FileSystem, fs': FileSystem) {
    forall path :: SameEntries(fs(path), fs'(path))
  }

  lemma DirectoriesSame(fs: FileSystem, fs': FileSystem, path: Path, name: string)
    requires Reordered(fs, fs')
    ensures HasDirectory(fs, path, name) <==> HasDirectory(fs', path, name)
  {
    assert SameEntries(fs(path), fs'(path));
    if fs(path).Entries? {
      assert Directory(name) in fs(path).entries <==> Directory(name) in multiset(fs(path).entries);
      assert Directory(name) in fs'(path).entries <==> Directory(name) in multiset(fs'(path).entries);
    }
  }

  lemma {:induction false} UnderSame(fs: FileSystem, fs': FileSystem, root: Path, path: Path)
    requires Reordered(fs, fs')
    ensures Under(fs, root, path) <==> Under(fs', root, path)
    decreases |path|
  {
    if path != [] && path != root {
      UnderSame(fs, fs', root, path[..|path| - 1]);
      DirectoriesSame(fs, fs', path[..|path| - 1], path[|path| - 1]);
    }
  }

  lemma PlansSame(fs: FileSystem, fs': FileSystem, roots: seq<Watch>, path: Path)
    requires Reordered(fs, fs')
    ensures UnderRecursive(fs, roots, path) <==> UnderRecursive(fs', roots, path)
    ensures InPlan(fs, roots, path) <==> InPlan(fs', roots, path)
  {
    forall i | 0 <= i < |roots| ensures Under(fs, roots[i].path, path) <==> Under(fs', roots[i].path, path) {
      UnderSame(fs, fs', roots[i].path, path);
    }
  }

  lemma RequeuesSame(fs: FileSystem, fs': FileSystem, earlier: seq<Watch>, latest: Watch, path: Path)
    requires Reordered(fs, fs')
    ensures Requeues(fs, earlier, latest, path) <==> Requeues(fs', earlier, latest, path)
    ensures Unfinished(fs, earlier, path) <==> Unfinished(fs', earlier, path)
  {
    UnderSame(fs, fs', latest.path, path);
    if path != [] {
      PlansSame(fs, fs', earlier, path[..|path| - 1]);
    }
    forall d
      ensures Under(fs, path, d) <==> Under(fs', path, d)
      ensures InPlan(fs, earlier, d) <==> InPlan(fs', earlier, d)
    {
      UnderSame(fs, fs', path, d);
      PlansSame(fs, fs', earlier, d);
    }
  }

  lemma CarefulSame(fs: FileSystem, fs': FileSystem, roots: seq<Watch>)
    requires Reordered(fs, fs') && Careful(fs, roots)
    ensures Careful(fs', roots)
  {
    forall i, k | 0 <= i < k < |roots| && Requeues(fs', roots[..k], roots[k], roots[i].path)
      ensures Unfinished(fs', roots[..k], roots[i].path)
    {
      RequeuesSame(fs, fs', roots[..k], roots[k], roots[i].path);
    }
    forall path | fs'(path).Entries? ensures Distinct(fs'(path).entries) {
      assert SameEntries(fs(path), fs'(path));
    }
  }

  // ----- Where the condition holds -----

  /** However directories list their entries, no prefix of the roots is refused any
      limit that its plan fits. */
  ghost predicate NeverWrong(fs: FileSystem, roots: seq<Watch>) {
    forall fs': FileSystem, n: nat, limit: nat :: Reordered(fs, fs') && n <= |roots| ==>
      RefusalRight(fs, fs', roots[..n], limit)
  }

  ghost predicate RefusalRight(fs: FileSystem, fs': FileSystem, roots: seq<Watch>, limit: nat) {
    Scan(fs', roots, map[], [], limit) == Err(BudgetExceeded) ==> PlanExceeds(fs, roots, limit)
  }

  lemma CarefulIsRight(fs: FileSystem, fs': FileSystem, roots: seq<Watch>, n: nat, limit: nat)
    requires Careful(fs, roots) && Reordered(fs, fs') && n <= |roots|
    ensures RefusalRight(fs, fs', roots[..n], limit)
  {
    assert roots == roots[..n] + roots[n..];
    CarefulPrefix(fs, roots[..n], roots[n..]);
    CarefulSame(fs, fs', roots[..n]);
    PlanIsRight(fs', roots[..n], limit);
    if PlanExceeds(fs', roots[..n], limit) {
      var paths: set<Path> :| |paths| > limit && AllInPlan(fs', roots[..n], paths);
      forall p | p in paths ensures InPlan(fs, roots[..n], p) {
        PlansSame(fs, fs', roots[..n], p);
      }
      assert AllInPlan(fs, roots[..n], paths);
    }
  }

  // ----- Where it does not: a directory tree that brings the requeued root up last -----

  function Remove(entries: seq<Entry>, e: Entry): (rest: seq<Entry>)
    requires e in entries
    ensures multiset(rest) + multiset{e} == multiset(entries)
  {
    assert entries == [entries[0]] + entries[1..];
    if entries[0] == e then entries[1..] else [entries[0]] + Remove(entries[1..], e)
  }

  /** Every directory above `path` lists the way to it first. */
  ghost function WayFirst(fs: FileSystem, path: Path): FileSystem {
    p => if p <= path && p != path && HasDirectory(fs, p, path[|p|])
         then Entries([Directory(path[|p|])] + Remove(fs(p).entries, Directory(path[|p|])))
         else fs(p)
  }

  ghost predicate WayIsFirst(fs: FileSystem, path: Path) {
    forall p :: p <= path && p != path && HasDirectory(fs, p, path[|p|]) ==> fs(p).entries[0] == Directory(path[|p|])
  }

  lemma WayFirstReorders(fs: FileSystem, path: Path)
    ensures Reordered(fs, WayFirst(fs, path)) && WayIsFirst(WayFirst(fs, path), path)
  {
    var fs' := WayFirst(fs, path);
    forall p ensures SameEntries(fs(p), fs'(p)) {
    }
    forall p | p <= path && p != path && HasDirectory(fs', p, path[|p|])
      ensures fs'(p).entries[0] == Directory(path[|p|])
    {
      DirectoriesSame(fs, fs', p, path[|p|]);
    }
  }

  ghost predicate Readable(fs: FileSystem) {
    forall path :: !CannotRead(fs, path)
  }

  /** The latest root queues `path` again, and all below it is planned already. */
  ghost predicate Trap(fs: FileSystem, earlier: seq<Watch>, latest: Watch, path: Path) {
    && DistinctNames(fs) && Readable(fs) && WayIsFirst(fs, path)
    && IsRoot(earlier, path) && Requeues(fs, earlier, latest, path) && !Unfinished(fs, earlier, path)
  }

  lemma {:induction false} UnderSteps(fs: FileSystem, root: Path, path: Path, q: Path)
    requires Under(fs, root, path) && root <= q <= path
    ensures Under(fs, root, q) && Under(fs, q, path) && (q != path ==> HasDirectory(fs, q, path[|q|]))
    decreases |path|
  {
    if q != path {
      var parent := path[..|path| - 1];
      assert path != root;
      assert q == path[..|q|] == parent[..|q|];
      UnderSteps(fs, root, parent, q);
      if q != parent {
        assert parent[|q|] == path[|q|];
      }
    } else {
      assert Under(fs, q, q);
    }
  }

  predicate OnWay(start: Path, q: Path, path: Path) {
    start <= q && q <= path && q != path
  }

  ghost predicate Unread(paths: Planned, start: Path, path: Path) {
    forall q :: OnWay(start, q, path) ==> !Expanded(paths, q)
  }

  /** At the bottom of the stack lies a directory on the way to `path`, or `path`. */
  ghost predicate Trapped(
    fs: FileSystem, earlier: seq<Watch>, latest: Watch, path: Path, paths: Planned, stack: seq<Watch>)
  {
    && stack != [] && stack[0].path <= path && latest.path <= stack[0].path && latest.path != stack[0].path
    && (forall i :: 0 < i < |stack| ==> !(stack[i].path <= path))
    && Unread(paths, stack[0].path, path)
    && EarlierDone(fs, earlier, paths)
  }

  lemma {:induction false} ClosedBut(fs: FileSystem, paths: Planned, w: Watch, root: Path, p: Path)
    requires Closed(fs, paths, [w]) && Expanded(paths, root) && Under(fs, root, p)
    ensures Expanded(paths, p) || Under(fs, w.path, p)
    decreases |p|
  {
    if p != root {
      var parent, name := p[..|p| - 1], p[|p| - 1];
      ClosedBut(fs, paths, w, root, parent);
      assert p == parent + [name];
      if Under(fs, w.path, parent) {
        UnderExtends(fs, w.path, parent, name);
      } else {
        assert Handled(paths, [w], p);
        assert Under(fs, p, p);
      }
    }
  }

  /** With nothing but `path` queued, the whole plan is there. */
  lemma NothingLeft(
    fs: FileSystem, earlier: seq<Watch>, latest: Watch, path: Path, paths: Planned, stack: seq<Watch>, p: Path)
    requires Settled(fs, earlier + [latest], paths, stack) && EarlierDone(fs, earlier, paths)
    requires |stack| == 1 && stack[0].path == path && !Unfinished(fs, earlier, path)
    requires InPlan(fs, earlier + [latest], p)
    ensures p in paths
  {
    var seen := earlier + [latest];
    assert stack == [stack[0]];
    if UnderRecursive(fs, seen, p) {
      var i :| 0 <= i < |seen| && seen[i].recursive && Under(fs, seen[i].path, p);
      ClosedBut(fs, paths, stack[0], seen[i].path, p);
      if Under(fs, path, p) {
        assert InPlan(fs, earlier, p);
        PlannedEarlier(fs, earlier, latest, paths, p);
      }
    }
  }

  lemma PlannedEarlier(fs: FileSystem, earlier: seq<Watch>, latest: Watch, paths: Planned, p: Path)
    requires RootsTaken(earlier + [latest], paths) && EarlierDone(fs, earlier, paths) && InPlan(fs, earlier, p)
    ensures p in paths
  {
    if IsRoot(earlier, p) {
      var i :| 0 <= i < |earlier| && earlier[i].path == p;
      assert (earlier + [latest])[i].path == p;
    }
  }

  lemma {:induction false} ChildrenHead(path: Path, entries: seq<Entry>)
    requires entries != [] && entries[0].Directory?
    ensures Children(path, entries) != [] && Children(path, entries)[0] == Watch(path + [entries[0].name], true)
  {
    if |entries| > 1 {
      ChildrenHead(path, entries[..|entries| - 1]);
    } else {
      assert entries[..0] == [];
    }
  }

  /** Of a directory's children the one on the way is queued first, and no other is. */
  lemma OnTheWay(fs: FileSystem, path: Path, q: Path)
    requires DistinctNames(fs) && WayIsFirst(fs, path) && q <= path && q != path && HasDirectory(fs, q, path[|q|])
    ensures var children := Children(q, fs(q).entries);
      && children != [] && children[0].path == path[..|q| + 1]
      && forall i :: 0 < i < |children| ==> !(children[i].path <= path)
  {
    var entries := fs(q).entries;
    var children := Children(q, entries);
    ChildrenHead(q, entries);
    assert path[..|q| + 1] == q + [path[|q|]];
    ChildrenApart(q, entries, [], |entries|);
    assert entries[..|entries|] == entries && [] + children == children;
    forall i | 0 < i < |children| ensures !(children[i].path <= path) {
      ChildrenAre(q, entries, children[i]);
      assert |children[i].path| == |q| + 1;
      PrefixesCompare(children[i].path, children[0].path, path);
    }
  }

  lemma OffTheWay(fs: FileSystem, path: Path, q: Path)
    requires !(q <= path) && fs(q).Entries?
    ensures forall i :: 0 <= i < |Children(q, fs(q).entries)| ==> !(Children(q, fs(q).entries)[i].path <= path)
  {
    var entries := fs(q).entries;
    forall i | 0 <= i < |Children(q, entries)| ensures !(Children(q, entries)[i].path <= path) {
      ChildrenAre(q, entries, Children(q, entries)[i]);
      var j :| 0 <= j < |entries| && entries[j].Directory?
        && Children(q, entries)[i] == Watch(q + [entries[j].name], true);
      BesideChild(path, q, entries[j].name);
    }
  }

  lemma {:induction false} QueueFits(path: Path, entries: seq<Entry>, planned: nat, stack: seq<Watch>, limit: nat)
    requires planned + |stack| <= limit
    ensures var r := Queue(path, entries, planned, stack, limit); r.Ok? ==> planned + |r.value| <= limit
    decreases |entries|
  {
    if entries != [] {
      match entries[0]
      case Broken =>
      case File(_) => QueueFits(path, entries[1..], planned, stack, limit);
      case Directory(name) =>
        if planned + |stack| + 1 <= limit {
          QueueFits(path, entries[1..], planned, stack + [Watch(path + [name], true)], limit);
        }
    }
  }

  /** What a readable directory adds to the stack, or the budget is refused. */
  lemma QueuedOrRefused(fs: FileSystem, path: Path, planned: nat, stack: seq<Watch>, limit: nat)
    requires Readable(fs) && planned + |stack| <= limit
    ensures match Queued(fs, path, planned, stack, limit)
      case Ok(more) =>
        fs(path).Entries? && more == stack + Children(path, fs(path).entries) && planned + |more| <= limit
      case Err(e) => e == BudgetExceeded
  {
    QueuedAnswers(fs, path, planned, stack, limit);
    assert !CannotRead(fs, path);
    QueueFits(path, fs(path).entries, planned, stack, limit);
  }

  // ----- The trap springs -----

  lemma TrappedFront(
    fs: FileSystem, earlier: seq<Watch>, latest: Watch, path: Path, paths: Planned, stack: seq<Watch>)
    requires Trapped(fs, earlier, latest, path, paths, stack) && |stack| > 1
    ensures Trapped(fs, earlier, latest, path, paths, stack[..|stack| - 1])
  {
  }

  lemma StillUnread(paths: Planned, w: Watch, start: Path, path: Path)
    requires Unread(paths, start, path) && !OnWay(start, w.path, path)
    ensures Unread(Visit(paths, w), start, path)
  {
    forall q | OnWay(start, q, path) ensures !Expanded(Visit(paths, w), q) {
      assert !Expanded(paths, q);
    }
  }

  lemma StillDone(fs: FileSystem, earlier: seq<Watch>, paths: Planned, w: Watch)
    requires EarlierDone(fs, earlier, paths)
    ensures EarlierDone(fs, earlier, Visit(paths, w))
  {
    assert forall p :: Expanded(paths, p) ==> Expanded(Visit(paths, w), p);
  }

  /** A directory off the way is read: what lies at the bottom stays there. */
  lemma TrappedAfterOther(
    fs: FileSystem, earlier: seq<Watch>, latest: Watch, path: Path, paths: Planned, stack: seq<Watch>, w: Watch)
    requires Trapped(fs, earlier, latest, path, paths, stack) && !(w.path <= path) && fs(w.path).Entries?
    ensures Trapped(fs, earlier, latest, path, Visit(paths, w), stack + Children(w.path, fs(w.path).entries))
  {
    OffTheWay(fs, path, w.path);
    StillUnread(paths, w, stack[0].path, path);
    StillDone(fs, earlier, paths, w);
  }

  lemma PrefixesJoin(a: Path, b: Path, c: Path)
    requires a <= b && b <= c
    ensures a <= c
  {
    assert a == b[..|a|] == c[..|b|][..|a|] == c[..|a|];
  }

  lemma UnreadFurther(paths: Planned, w: Watch, next: Path, path: Path)
    requires Unread(paths, w.path, path) && w.path <= next && w.path != next
    ensures Unread(Visit(paths, w), next, path)
  {
    forall q | OnWay(next, q, path) ensures !Expanded(Visit(paths, w), q) {
      PrefixesJoin(w.path, next, q);
      assert OnWay(w.path, q, path);
    }
  }

  /** A directory on the way is read, with nothing else queued. */
  lemma TrappedAfterStep(fs: FileSystem, earlier: seq<Watch>, latest: Watch, path: Path, paths: Planned, w: Watch)
    requires Trap(fs, earlier, latest, path) && EarlierDone(fs, earlier, paths)
    requires latest.path <= w.path && OnWay(w.path, w.path, path) && Unread(paths, w.path, path)
    ensures fs(w.path).Entries?
    ensures Trapped(fs, earlier, latest, path, Visit(paths, w), Children(w.path, fs(w.path).entries))
  {
    UnderSteps(fs, latest.path, path, w.path);
    OnTheWay(fs, path, w.path);
    var next := Children(w.path, fs(w.path).entries)[0].path;
    assert next == path[..|w.path| + 1] && w.path == path[..|w.path|];
    UnreadFurther(paths, w, next, path);
    StillDone(fs, earlier, paths, w);
    PrefixesJoin(latest.path, w.path, next);
  }

  /** The whole plan and the queued path do not fit. */
  lemma AllThere(
    fs: FileSystem, earlier: seq<Watch>, latest: Watch, path: Path, paths: Planned, stack: seq<Watch>, plan: set<Path>)
    requires Settled(fs, earlier + [latest], paths, stack) && EarlierDone(fs, earlier, paths)
    requires |stack| == 1 && stack[0].path == path && !Unfinished(fs, earlier, path)
    requires AllInPlan(fs, earlier + [latest], plan)
    ensures |plan| <= |paths|
  {
    forall p | p in plan ensures p in paths {
      NothingLeft(fs, earlier, latest, path, paths, stack, p);
    }
    SubsetSize(plan, paths.Keys);
    assert |paths.Keys| == |paths|;
  }

  lemma TrapHolds(
    fs: FileSystem, earlier: seq<Watch>, latest: Watch, path: Path, paths: Planned, stack: seq<Watch>,
    limit: nat, plan: set<Path>)
    requires Settled(fs, earlier + [latest], paths, stack) && EarlierDone(fs, earlier, paths)
    requires stack != [] && stack[0].path == path && !Unfinished(fs, earlier, path)
    requires |paths| + |stack| <= limit && |plan| == limit && AllInPlan(fs, earlier + [latest], plan)
    ensures |stack| > 1
  {
    if |stack| == 1 {
      AllThere(fs, earlier, latest, path, paths, stack, plan);
    }
  }

  /** The next directory is read, or the budget is refused. */
  lemma TrappedOrRefused(
    fs: FileSystem, earlier: seq<Watch>, latest: Watch, path: Path, paths: Planned, stack: seq<Watch>, limit: nat)
    requires Trap(fs, earlier, latest, path) && Trapped(fs, earlier, latest, path, paths, stack)
    requires var w, front := stack[|stack| - 1], stack[..|stack| - 1];
      && Ready(fs, earlier + [latest], paths, front, w) && w.recursive
      && (front == [] ==> w.path != path) && |Visit(paths, w)| + |front| <= limit
    ensures TurnKeepsTrap(fs, earlier, latest, path, paths, stack[..|stack| - 1], stack[|stack| - 1], limit)
  {
    var w, front := stack[|stack| - 1], stack[..|stack| - 1];
    var planned := |Visit(paths, w)|;
    QueuedOrRefused(fs, w.path, planned, front, limit);
    if Queued(fs, w.path, planned, front, limit).Ok? {
      var children := Children(w.path, fs(w.path).entries);
      DescentSettles(fs, earlier + [latest], paths, front, w);
      if front == [] {
        TrappedAfterStep(fs, earlier, latest, path, paths, w);
        assert front + children == children;
      } else {
        TrappedFront(fs, earlier, latest, path, paths, stack);
        TrappedAfterOther(fs, earlier, latest, path, paths, front, w);
      }
    }
  }

  /** The path on top of a trapped stack; alone there, it is on the way and not read yet. */
  lemma TrapTop(
    fs: FileSystem, earlier: seq<Watch>, latest: Watch, path: Path, paths: Planned, stack: seq<Watch>,
    limit: nat, plan: set<Path>)
    requires !Unfinished(fs, earlier, path) && Settled(fs, earlier + [latest], paths, stack)
    requires Trapped(fs, earlier, latest, path, paths, stack)
    requires |paths| + |stack| <= limit && |plan| == limit && AllInPlan(fs, earlier + [latest], plan)
    ensures var w, front := stack[|stack| - 1], stack[..|stack| - 1];
      && w.recursive && Ready(fs, earlier + [latest], paths, front, w) && |Visit(paths, w)| + |front| <= limit
      && (front == [] ==> w.path != path && !Expanded(paths, w.path))
  {
    if stack[0].path == path {
      TrapHolds(fs, earlier, latest, path, paths, stack, limit, plan);
    } else {
      assert OnWay(stack[0].path, stack[0].path, path);
    }
    PopIsReady(fs, earlier + [latest], paths, stack);
    VisitSize(paths, stack[|stack| - 1]);
  }

  lemma TurnPastExpanded(
    fs: FileSystem, earlier: seq<Watch>, latest: Watch, path: Path, paths: Planned, stack: seq<Watch>)
    requires Trapped(fs, earlier, latest, path, paths, stack) && |stack| > 1
    requires Ready(fs, earlier + [latest], paths, stack[..|stack| - 1], stack[|stack| - 1])
    requires Expanded(paths, stack[|stack| - 1].path)
    ensures var w, front := stack[|stack| - 1], stack[..|stack| - 1];
      && Visit(paths, w) == paths && Settled(fs, earlier + [latest], paths, front)
      && Trapped(fs, earlier, latest, path, paths, front)
  {
    assert Visit(paths, stack[|stack| - 1]) == paths;
    VisitSettles(fs, earlier + [latest], paths, stack[..|stack| - 1], stack[|stack| - 1]);
    TrappedFront(fs, earlier, latest, path, paths, stack);
  }

  ghost predicate TurnKeepsTrap(
    fs: FileSystem, earlier: seq<Watch>, latest: Watch, path: Path, paths: Planned, stack: seq<Watch>, w: Watch,
    limit: nat)
  {
    match Queued(fs, w.path, |Visit(paths, w)|, stack, limit)
    case Ok(more) =>
      && Settled(fs, earlier + [latest], Visit(paths, w), more) && |Visit(paths, w)| + |more| <= limit
      && Trapped(fs, earlier, latest, path, Visit(paths, w), more)
    case Err(e) => e == BudgetExceeded
  }

  /** Every way on from a trapped state ends in a refused budget, though the limit is
      the size of the plan. */
  lemma {:induction false} TrapSprings(
    fs: FileSystem, earlier: seq<Watch>, latest: Watch, path: Path, paths: Planned, stack: seq<Watch>,
    limit: nat, plan: set<Path>)
    requires Trap(fs, earlier, latest, path) && Settled(fs, earlier + [latest], paths, stack)
    requires Trapped(fs, earlier, latest, path, paths, stack)
    requires |paths| + |stack| <= limit && |plan| == limit && AllInPlan(fs, earlier + [latest], plan)
    ensures Scan(fs, [], paths, stack, limit) == Err(BudgetExceeded)
    decreases limit - |ExpandedSet(paths)|, |stack|
  {
    var w, front := stack[|stack| - 1], stack[..|stack| - 1];
    TrapTop(fs, earlier, latest, path, paths, stack, limit, plan);
    ExpandedSize(paths, w);
    ExpandedSize(Visit(paths, w), w);
    if Expanded(paths, w.path) {
      TurnPastExpanded(fs, earlier, latest, path, paths, stack);
      TrapSprings(fs, earlier, latest, path, paths, front, limit, plan);
    } else {
      TrappedOrRefused(fs, earlier, latest, path, paths, stack, limit);
      var queued := Queued(fs, w.path, |Visit(paths, w)|, front, limit);
      if queued.Ok? {
        TrapSprings(fs, earlier, latest, path, Visit(paths, w), queued.value, limit, plan);
      }
    }
  }

  lemma VisitSize(paths: Planned, w: Watch)
    ensures |paths| <= |Visit(paths, w)| <= |paths| + 1
  {
    assert Visit(paths, w).Keys == paths.Keys + {w.path};
    assert |paths.Keys| == |paths| && |Visit(paths, w).Keys| == |Visit(paths, w)|;
  }

  /** The latest root is read for the first time, and with it the way to the trap. */
  lemma LatestTurn(
    fs: FileSystem, earlier: seq<Watch>, latest: Watch, path: Path, paths: Planned, limit: nat, plan: set<Path>)
    requires Trap(fs, earlier, latest, path) && Settled(fs, earlier, paths, []) && |paths| <= limit
    requires |plan| == limit && AllInPlan(fs, earlier + [latest], plan)
    ensures ScanTurn(fs, latest, [], paths, [], limit) == Err(BudgetExceeded)
  {
    RootIsReady(fs, earlier, paths, latest);
    PlanIsComplete(fs, earlier, paths);
    WayIsUnread(fs, earlier, latest, path, paths);
    VisitSettles(fs, earlier + [latest], paths, [], latest);
    ExpandedSize(paths, latest);
    ExpandedSize(Visit(paths, latest), latest);
    var planned := |Visit(paths, latest)|;
    if planned <= limit {
      QueuedOrRefused(fs, latest.path, planned, [], limit);
      var queued := Queued(fs, latest.path, planned, [], limit);
      if queued.Ok? {
        DescentSettles(fs, earlier + [latest], paths, [], latest);
        TrappedAfterStep(fs, earlier, latest, path, paths, latest);
        assert [] + Children(latest.path, fs(latest.path).entries) == Children(latest.path, fs(latest.path).entries);
        TrapSprings(fs, earlier, latest, path, Visit(paths, latest), queued.value, limit, plan);
      }
    }
  }

  /** Nothing on the way from the latest root has been read before. */
  lemma WayIsUnread(fs: FileSystem, earlier: seq<Watch>, latest: Watch, path: Path, paths: Planned)
    requires Requeues(fs, earlier, latest, path) && Sound(fs, earlier, paths, [])
    ensures latest.path <= path && latest.path != path
    ensures Unread(paths, latest.path, path)
  {
    UnderIsPrefix(fs, latest.path, path);
    forall q | OnWay(latest.path, q, path) ensures !UnderRecursive(fs, earlier, q) {
      var parent := path[..|path| - 1];
      assert q == path[..|q|] == parent[..|q|];
      UnderSteps(fs, latest.path, parent, q);
      if UnderRecursive(fs, earlier, q) {
        UnderRecursiveJoins(fs, earlier, q, parent);
      }
    }
  }

  // ----- Before the latest root -----

  lemma {:induction false} TrapIsReached(
    fs: FileSystem, seen: seq<Watch>, rest: seq<Watch>, earlier: seq<Watch>, latest: Watch, path: Path,
    paths: Planned, stack: seq<Watch>, limit: nat, plan: set<Path>)
    requires Trap(fs, earlier, latest, path) && rest != [] && seen + rest == earlier + [latest]
    requires Settled(fs, seen, paths, stack) && |paths| <= limit
    requires |plan| == limit && AllInPlan(fs, earlier + [latest], plan)
    ensures Scan(fs, rest, paths, stack, limit) == Err(BudgetExceeded)
    decreases limit - |ExpandedSet(paths)|, |stack| + |rest|, 0
  {
    if stack != [] {
      PopIsReady(fs, seen, paths, stack);
      TurnTowardsTrap(
        fs, seen, rest, earlier, latest, path, paths, stack[..|stack| - 1], stack[|stack| - 1], limit, plan);
    } else if |rest| == 1 {
      LastPart(seen, rest, earlier, latest);
      LatestTurn(fs, earlier, latest, path, paths, limit, plan);
    } else {
      RootIsReady(fs, seen, paths, rest[0]);
      ThreeParts(seen, rest);
      TurnTowardsTrap(fs, seen + [rest[0]], rest[1..], earlier, latest, path, paths, [], rest[0], limit, plan);
    }
  }

  lemma LastPart(seen: seq<Watch>, rest: seq<Watch>, earlier: seq<Watch>, latest: Watch)
    requires |rest| == 1 && seen + rest == earlier + [latest]
    ensures seen == earlier && rest[0] == latest && rest[1..] == []
  {
    assert (seen + rest)[..|seen|] == seen && (earlier + [latest])[..|earlier|] == earlier;
    assert (seen + rest)[|seen|] == rest[0];
  }

  lemma {:induction false} TurnTowardsTrap(
    fs: FileSystem, seen: seq<Watch>, rest: seq<Watch>, earlier: seq<Watch>, latest: Watch, path: Path,
    paths: Planned, stack: seq<Watch>, w: Watch, limit: nat, plan: set<Path>)
    requires Trap(fs, earlier, latest, path) && rest != [] && seen + rest == earlier + [latest]
    requires Ready(fs, seen, paths, stack, w) && |paths| <= limit
    requires |plan| == limit && AllInPlan(fs, earlier + [latest], plan)
    ensures ScanTurn(fs, w, rest, paths, stack, limit) == Err(BudgetExceeded)
    decreases limit - |ExpandedSet(paths)|, |stack| + |rest|, 1
  {
    var paths' := Visit(paths, w);
    ExpandedSize(paths, w);
    ExpandedSize(paths', w);
    VisitSettles(fs, seen, paths, stack, w);
    if |paths'| <= limit {
      if !w.recursive || Expanded(paths, w.path) {
        TrapIsReached(fs, seen, rest, earlier, latest, path, paths', stack, limit, plan);
      } else {
        QueuedAnswers(fs, w.path, |paths'|, stack, limit);
        assert !CannotRead(fs, w.path);
        var queued := Queued(fs, w.path, |paths'|, stack, limit);
        if queued.Ok? {
          DescentSettles(fs, seen, paths, stack, w);
          TrapIsReached(fs, seen, rest, earlier, latest, path, paths', queued.value, limit, plan);
        }
      }
    }
  }

  // ----- The exact condition -----

  lemma ReorderedIsReadable(fs: FileSystem, fs': FileSystem)
    requires Readable(fs) && Reordered(fs, fs')
    ensures Readable(fs')
  {
    forall path ensures !CannotRead(fs', path) {
      assert SameEntries(fs(path), fs'(path)) && !CannotRead(fs, path);
      if fs'(path).Entries? {
        assert Broken in fs'(path).entries <==> Broken in multiset(fs'(path).entries);
        assert Broken in fs(path).entries <==> Broken in multiset(fs(path).entries);
      }
    }
  }

  /** A root queued again with nothing left to plan is refused a limit that fits. */
  lemma TrapIsWrong(fs: FileSystem, roots: seq<Watch>, i: nat, k: nat, plan: set<Path>)
    requires DistinctNames(fs) && Readable(fs) && i < k < |roots|
    requires Requeues(fs, roots[..k], roots[k], roots[i].path) && !Unfinished(fs, roots[..k], roots[i].path)
    requires forall p :: p in plan <==> InPlan(fs, roots, p)
    ensures !NeverWrong(fs, roots)
  {
    var path, prefix := roots[i].path, roots[..k + 1];
    var fits := set p | p in plan && InPlan(fs, prefix, p);
    assert roots[..k][i].path == path && prefix == roots[..k] + [roots[k]];
    FitsIsPlan(fs, roots, k + 1, plan, fits);
    TrapMisjudged(fs, roots[..k], roots[k], path, fits);
    WayFirstReorders(fs, path);
    assert !RefusalRight(fs, WayFirst(fs, path), prefix, |fits|);
  }

  lemma TrapMisjudged(fs: FileSystem, earlier: seq<Watch>, latest: Watch, path: Path, fits: set<Path>)
    requires DistinctNames(fs) && Readable(fs) && IsRoot(earlier, path)
    requires Requeues(fs, earlier, latest, path) && !Unfinished(fs, earlier, path)
    requires AllInPlan(fs, earlier + [latest], fits) && !PlanExceeds(fs, earlier + [latest], |fits|)
    ensures !RefusalRight(fs, WayFirst(fs, path), earlier + [latest], |fits|)
  {
    WayFirstReorders(fs, path);
    TrapInOtherOrder(fs, WayFirst(fs, path), earlier, latest, path);
    TrapRefuses(fs, WayFirst(fs, path), earlier, latest, path, fits);
  }

  lemma FitsIsPlan(fs: FileSystem, roots: seq<Watch>, n: nat, plan: set<Path>, fits: set<Path>)
    requires n <= |roots| && forall p :: p in plan <==> InPlan(fs, roots, p)
    requires fits == set p | p in plan && InPlan(fs, roots[..n], p)
    ensures !PlanExceeds(fs, roots[..n], |fits|)
  {
    assert roots == roots[..n] + roots[n..];
    forall p | InPlan(fs, roots[..n], p) ensures p in fits {
      MoreRoots(fs, roots[..n], roots[n..], p);
    }
    FittingPlan(fs, roots[..n], fits);
  }

  lemma TrapRefuses(
    fs: FileSystem, fs': FileSystem, earlier: seq<Watch>, latest: Watch, path: Path, fits: set<Path>)
    requires Reordered(fs, fs') && Trap(fs', earlier, latest, path) && AllInPlan(fs, earlier + [latest], fits)
    ensures Scan(fs', earlier + [latest], map[], [], |fits|) == Err(BudgetExceeded)
  {
    forall p | p in fits ensures InPlan(fs', earlier + [latest], p) {
      PlansSame(fs, fs', earlier + [latest], p);
    }
    assert [] + (earlier + [latest]) == earlier + [latest];
    TrapIsReached(fs', [], earlier + [latest], earlier, latest, path, map[], [], |fits|, fits);
  }

  lemma TrapInOtherOrder(fs: FileSystem, fs': FileSystem, earlier: seq<Watch>, latest: Watch, path: Path)
    requires DistinctNames(fs) && Readable(fs) && Reordered(fs, fs') && WayIsFirst(fs', path) && IsRoot(earlier, path)
    requires Requeues(fs, earlier, latest, path) && !Unfinished(fs, earlier, path)
    ensures Trap(fs', earlier, latest, path)
  {
    RequeuesSame(fs, fs', earlier, latest, path);
    ReorderedIsReadable(fs, fs');
    forall p | fs'(p).Entries? ensures Distinct(fs'(p).entries) {
      assert SameEntries(fs(p), fs'(p));
    }
  }

  lemma FittingPlan(fs: FileSystem, roots: seq<Watch>, plan: set<Path>)
    requires forall p :: InPlan(fs, roots, p) ==> p in plan
    ensures !PlanExceeds(fs, roots, |plan|)
  {
    if PlanExceeds(fs, roots, |plan|) {
      var paths: set<Path> :| |paths| > |plan| && AllInPlan(fs, roots, paths);
      SubsetSize(paths, plan);
    }
  }

  /** On a readable file system with a finite plan, the budget is never refused wrongly,
      for any limit, any prefix of the roots and any order of directory entries, exactly
      when every root that a later one queues again leaves it something to plan. */
  lemma NeverWrongExactly(fs: FileSystem, roots: seq<Watch>, plan: set<Path>)
    requires DistinctNames(fs) && Readable(fs)
    requires forall p :: p in plan <==> InPlan(fs, roots, p)
    ensures NeverWrong(fs, roots) <==> Unmixed(fs, roots)
  {
    if Unmixed(fs, roots) {
      forall fs': FileSystem, n: nat, limit: nat | Reordered(fs, fs') && n <= |roots|
        ensures RefusalRight(fs, fs', roots[..n], limit)
      {
        CarefulIsRight(fs, fs', roots, n, limit);
      }
    } else {
      var i, k :| 0 <= i < k < |roots| && Requeues(fs, roots[..k], roots[k], roots[i].path)
        && !Unfinished(fs, roots[..k], roots[i].path);
      TrapIsWrong(fs, roots, i, k, plan);
    }
  }
}
