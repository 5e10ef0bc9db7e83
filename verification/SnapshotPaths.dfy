/** Resolving every symbolic link of a path, where suffixes may be missing.  The file
    system is fixed: what reading a link gives is a function of the path. */
module SnapshotPaths {
  import opened Common

  /** As many nested links as a resolution may follow. */
  const MAX_DEPTH: nat := 40

  datatype Component = RootDir | CurDir | ParentDir | Normal(name: string)

  type Path = seq<Component>

  datatype ErrorKind = NotFound | InvalidInput | Other

  /** Reading something that is no link is InvalidInput. */
  datatype ReadLink = Target(path: Path) | Fails(kind: ErrorKind)

  type FileSystem = Path -> ReadLink

  datatype Error = TooManyLinks | ReadFailed(path: Path)

  // ----- Path buffers -----

  /** A root replaces what was there. */
  function Push(path: Path, c: Component): Path {
    if c == RootDir then [RootDir] else path + [c]
  }

  /** The root has no parent, and neither has the empty path. */
  function Pop(path: Path): Path {
    if path == [] || path == [RootDir] then path else path[..|path| - 1]
  }

  function Join(path: Path, other: Path): Path {
    if other != [] && other[0] == RootDir then other else path + other
  }

  predicate Passes(r: ReadLink) {
    r.Fails? && r.kind != Other
  }

  // ----- Resolution -----

  function Resolve(fs: FileSystem, path: Path, depth: nat, limit: nat): Result<Path, Error>
    decreases limit - depth, |path| + 1
  {
    if depth >= limit then Err(TooManyLinks) else Loop(fs, [], path, depth, limit)
  }

  function Loop(fs: FileSystem, resolved: Path, todo: Path, depth: nat, limit: nat): Result<Path, Error>
    requires depth < limit
    decreases limit - depth, |todo|
  {
    if todo == [] then Ok(resolved)
    else
      var c, rest := todo[0], todo[1..];
      if c == ParentDir then Loop(fs, Pop(resolved), rest, depth, limit)
      else if c == CurDir then Loop(fs, resolved, rest, depth, limit)
      else
        var next := Push(resolved, c);
        match fs(next)
        case Target(target) =>
          (match Resolve(fs, Join(Pop(next), target), depth + 1, limit)
           case Ok(p) => Loop(fs, p, rest, depth, limit)
           case Err(e) => Err(e))
        case Fails(kind) => if kind == Other then Err(ReadFailed(next)) else Loop(fs, next, rest, depth, limit)
  }

  method ResolveLinks(fs: FileSystem, path: Path, depth: nat) returns (r: Result<Path, Error>)
    ensures r == Resolve(fs, path, depth, MAX_DEPTH)
    decreases MAX_DEPTH - depth
  {
    if depth >= MAX_DEPTH {
      return Err(TooManyLinks);
    }
    var resolved: Path := [];
    var i := 0;
    while i < |path|
      invariant 0 <= i <= |path|
      invariant Resolve(fs, path, depth, MAX_DEPTH) == Loop(fs, resolved, path[i..], depth, MAX_DEPTH)
    {
      var component := path[i];
      assert path[i..][0] == component && path[i..][1..] == path[i + 1..];
      i := i + 1;
      if component == ParentDir {
        resolved := Pop(resolved);
        continue;
      } else if component == CurDir {
        continue;
      }
      resolved := Push(resolved, component);
      match fs(resolved) {
        case Target(target) =>
          resolved := Pop(resolved);
          var inner := ResolveLinks(fs, Join(resolved, target), depth + 1);
          if inner.Err? {
            return inner;
          }
          resolved := inner.value;
        case Fails(kind) =>
          if kind == Other {
            return Err(ReadFailed(resolved));
          }
      }
    }
    return Ok(resolved);
  }

  // ----- What a result looks like -----

  /** Only names, after a root if there is one; no prefix is a link. */
  ghost predicate Clean(fs: FileSystem, path: Path) {
    && (forall i :: 0 <= i < |path| ==> path[i].Normal? || (i == 0 && path[i] == RootDir))
    && (forall k :: 0 < k <= |path| ==> Passes(fs(path[..k])))
  }

  lemma CleanPrefix(fs: FileSystem, path: Path, k: nat)
    requires Clean(fs, path) && k <= |path|
    ensures Clean(fs, path[..k])
  {
    forall j | 0 < j <= k ensures Passes(fs(path[..k][..j])) {
      assert path[..k][..j] == path[..j];
    }
  }

  lemma CleanPush(fs: FileSystem, path: Path, c: Component)
    requires Clean(fs, path) && (c.Normal? || c == RootDir) && Passes(fs(Push(path, c)))
    ensures Clean(fs, Push(path, c))
  {
    var next := Push(path, c);
    forall k | 0 < k <= |next| ensures Passes(fs(next[..k])) {
      if k < |next| {
        assert next[..k] == path[..k];
      } else {
        assert next[..k] == next;
      }
    }
  }

  lemma CleanPop(fs: FileSystem, path: Path)
    requires Clean(fs, path)
    ensures Clean(fs, Pop(path))
  {
    if path != [] && path != [RootDir] {
      CleanPrefix(fs, path, |path| - 1);
    }
  }

  /** The parent of what was just pushed is where it was pushed, or a lone root. */
  lemma PopPush(fs: FileSystem, path: Path, c: Component)
    requires Clean(fs, path) && c.Normal?
    ensures Pop(Push(path, c)) == path
  {
    assert (path + [c])[..|path|] == path;
  }

  lemma {:induction false} LoopIsClean(fs: FileSystem, resolved: Path, todo: Path, depth: nat, limit: nat)
    requires depth < limit && Clean(fs, resolved)
    ensures Loop(fs, resolved, todo, depth, limit).Ok? ==> Clean(fs, Loop(fs, resolved, todo, depth, limit).value)
    decreases limit - depth, |todo|
  {
    if todo != [] {
      var c, rest := todo[0], todo[1..];
      if c == ParentDir {
        CleanPop(fs, resolved);
        LoopIsClean(fs, Pop(resolved), rest, depth, limit);
      } else if c == CurDir {
        LoopIsClean(fs, resolved, rest, depth, limit);
      } else {
        var next := Push(resolved, c);
        if fs(next).Target? {
          var base := Join(Pop(next), fs(next).path);
          if depth + 1 < limit {
            LoopIsClean(fs, [], base, depth + 1, limit);
          }
          if Resolve(fs, base, depth + 1, limit).Ok? {
            LoopIsClean(fs, Resolve(fs, base, depth + 1, limit).value, rest, depth, limit);
          }
        } else if fs(next).kind != Other {
          CleanPush(fs, resolved, c);
          LoopIsClean(fs, next, rest, depth, limit);
        }
      }
    }
  }

  /** A path returned has no dots and no link in any prefix. */
  lemma ResultsAreClean(fs: FileSystem, path: Path, depth: nat, limit: nat)
    ensures Resolve(fs, path, depth, limit).Ok? ==> Clean(fs, Resolve(fs, path, depth, limit).value)
  {
    if depth < limit {
      LoopIsClean(fs, [], path, depth, limit);
    }
  }

  /** Walking over a clean prefix changes nothing. */
  lemma {:induction false} CleanWalk(fs: FileSystem, done: Path, more: Path, todo: Path, depth: nat, limit: nat)
    requires depth < limit && Clean(fs, done + more)
    ensures Loop(fs, done, more + todo, depth, limit) == Loop(fs, done + more, todo, depth, limit)
    decreases |more|
  {
    if more == [] {
      assert done + more == done && more + todo == todo;
    } else {
      var c := more[0];
      assert (more + todo)[0] == c && (more + todo)[1..] == more[1..] + todo;
      assert (done + more)[|done|] == c;
      assert (done + more)[..|done| + 1] == done + [c];
      assert Passes(fs(done + [c]));
      assert Push(done, c) == done + [c];
      assert (done + [c]) + more[1..] == done + more;
      CleanWalk(fs, done + [c], more[1..], todo, depth, limit);
    }
  }

  /** Resolving leaves a path as it is exactly when it is clean; so resolving a
      result again gives it back. */
  lemma FixedPathsAreClean(fs: FileSystem, path: Path, depth: nat, limit: nat)
    requires depth < limit
    ensures Resolve(fs, path, depth, limit) == Ok(path) <==> Clean(fs, path)
  {
    ResultsAreClean(fs, path, depth, limit);
    if Clean(fs, path) {
      assert [] + path == path && path + [] == path;
      CleanWalk(fs, [], path, [], depth, limit);
    }
  }

  lemma ResolvingAgainChangesNothing(fs: FileSystem, path: Path)
    requires Resolve(fs, path, 0, MAX_DEPTH).Ok?
    ensures var p := Resolve(fs, path, 0, MAX_DEPTH).value; Resolve(fs, p, 0, MAX_DEPTH) == Ok(p)
  {
    ResultsAreClean(fs, path, 0, MAX_DEPTH);
    FixedPathsAreClean(fs, Resolve(fs, path, 0, MAX_DEPTH).value, 0, MAX_DEPTH);
  }

  // ----- The walk a file system makes -----

  datatype Outcome = Arrived(path: Path) | Stuck(path: Path) | Unfinished

  /** One component at a time, for n steps; a link's target takes the place of the
      link, with no regard to nesting. */
  function Walk(fs: FileSystem, at: Path, todo: Path, n: nat): Outcome
    decreases n
  {
    if todo == [] then Arrived(at)
    else if n == 0 then Unfinished
    else
      var c, rest := todo[0], todo[1..];
      if c == ParentDir then Walk(fs, Pop(at), rest, n - 1)
      else if c == CurDir then Walk(fs, at, rest, n - 1)
      else
        var next := Push(at, c);
        match fs(next)
        case Target(target) => Walk(fs, Pop(next), target + rest, n - 1)
        case Fails(kind) => if kind == Other then Stuck(next) else Walk(fs, next, rest, n - 1)
  }

  function Answer(o: Outcome): Result<Path, Error>
    requires !o.Unfinished?
  {
    if o.Arrived? then Ok(o.path) else Err(ReadFailed(o.path))
  }

  lemma {:induction false} WalkIsStable(fs: FileSystem, at: Path, todo: Path, n: nat, m: nat)
    requires n <= m && !Walk(fs, at, todo, n).Unfinished?
    ensures Walk(fs, at, todo, m) == Walk(fs, at, todo, n)
    decreases n
  {
    if todo != [] {
      var c, rest := todo[0], todo[1..];
      var next := Push(at, c);
      if c == ParentDir {
        WalkIsStable(fs, Pop(at), rest, n - 1, m - 1);
      } else if c == CurDir {
        WalkIsStable(fs, at, rest, n - 1, m - 1);
      } else if fs(next).Target? {
        WalkIsStable(fs, Pop(next), fs(next).path + rest, n - 1, m - 1);
      } else if fs(next).kind != Other {
        WalkIsStable(fs, next, rest, n - 1, m - 1);
      }
    }
  }

  /** Resolving a link's target from scratch is walking it from the link's parent. */
  lemma FromTheParent(fs: FileSystem, base: Path, target: Path, depth: nat, limit: nat)
    requires depth < limit && Clean(fs, base)
    ensures Resolve(fs, Join(base, target), depth, limit) == Loop(fs, base, target, depth, limit)
  {
    if target == [] || target[0] != RootDir {
      assert [] + base == base;
      CleanWalk(fs, [], base, target, depth, limit);
    }
  }

  /** The root directory is a directory. */
  ghost predicate RootIsNoLink(fs: FileSystem) {
    !fs([RootDir]).Target?
  }

  /** Whatever the loop answers, other than giving up, the walk does too: it gets past
      `todo`, with `rest` still to go, or is stuck at the same place. */
  lemma {:induction false} LoopIsAWalk(
    fs: FileSystem, resolved: Path, todo: Path, depth: nat, limit: nat, rest: Path, m: nat) returns (n: nat)
    requires depth < limit && Clean(fs, resolved) && RootIsNoLink(fs)
    ensures match Loop(fs, resolved, todo, depth, limit)
      case Ok(p) => Walk(fs, resolved, todo + rest, n + m) == Walk(fs, p, rest, m)
      case Err(ReadFailed(q)) => Walk(fs, resolved, todo + rest, n + m) == Stuck(q)
      case Err(TooManyLinks) => true
    decreases limit - depth, |todo|
  {
    if todo == [] {
      assert todo + rest == rest;
      return 0;
    }
    var c, tail := todo[0], todo[1..];
    n := 0;
    assert (todo + rest)[0] == c && (todo + rest)[1..] == tail + rest;
    var next := Push(resolved, c);
    if c == ParentDir {
      CleanPop(fs, resolved);
      n := LoopIsAWalk(fs, Pop(resolved), tail, depth, limit, rest, m);
    } else if c == CurDir {
      n := LoopIsAWalk(fs, resolved, tail, depth, limit, rest, m);
    } else if fs(next).Target? {
      if depth + 1 >= limit {
        return 0;
      }
      var target := fs(next).path;
      PopPush(fs, resolved, c);
      FromTheParent(fs, resolved, target, depth + 1, limit);
      LoopIsClean(fs, resolved, target, depth + 1, limit);
      var inner := Loop(fs, resolved, target, depth + 1, limit);
      var later := 0;
      if inner.Ok? {
        later := LoopIsAWalk(fs, inner.value, tail, depth, limit, rest, m);
      }
      n := LoopIsAWalk(fs, resolved, target, depth + 1, limit, tail + rest, later + m);
      n := n + later;
    } else if fs(next).kind != Other {
      CleanPush(fs, resolved, c);
      n := LoopIsAWalk(fs, next, tail, depth, limit, rest, m);
    }
    n := n + 1;
  }

  /** A walk over two parts is a walk over the first and then over the second. */
  lemma {:induction false} WalkSplits(fs: FileSystem, at: Path, first: Path, second: Path, n: nat) returns (k: nat)
    requires !Walk(fs, at, first + second, n).Unfinished?
    ensures k <= n
    ensures match Walk(fs, at, first, k)
      case Arrived(p) => Walk(fs, p, second, n - k) == Walk(fs, at, first + second, n)
      case Stuck(q) => Walk(fs, at, first + second, n) == Stuck(q)
      case Unfinished => false
    decreases n
  {
    if first == [] {
      assert first + second == second;
      return 0;
    }
    var c, rest := first[0], first[1..];
    k := 0;
    assert (first + second)[0] == c && (first + second)[1..] == rest + second;
    var next := Push(at, c);
    if c == ParentDir {
      k := WalkSplits(fs, Pop(at), rest, second, n - 1);
    } else if c == CurDir {
      k := WalkSplits(fs, at, rest, second, n - 1);
    } else if fs(next).Target? {
      assert fs(next).path + (rest + second) == (fs(next).path + rest) + second;
      k := WalkSplits(fs, Pop(next), fs(next).path + rest, second, n - 1);
    } else if fs(next).kind != Other {
      k := WalkSplits(fs, next, rest, second, n - 1);
    }
    k := k + 1;
  }

  /** A walk that ends is found, by a resolution allowed to nest deeply enough. */
  lemma {:induction false} EndedWalksAreFound(fs: FileSystem, at: Path, todo: Path, n: nat, depth: nat, limit: nat)
    requires depth + n < limit && Clean(fs, at) && RootIsNoLink(fs)
    requires !Walk(fs, at, todo, n).Unfinished?
    ensures Loop(fs, at, todo, depth, limit) == Answer(Walk(fs, at, todo, n))
    decreases n
  {
    if todo == [] {
      return;
    }
    var c, rest := todo[0], todo[1..];
    var next := Push(at, c);
    if c == ParentDir {
      CleanPop(fs, at);
      EndedWalksAreFound(fs, Pop(at), rest, n - 1, depth, limit);
    } else if c == CurDir {
      EndedWalksAreFound(fs, at, rest, n - 1, depth, limit);
    } else if fs(next).Target? {
      var target := fs(next).path;
      PopPush(fs, at, c);
      FromTheParent(fs, at, target, depth + 1, limit);
      var k := WalkSplits(fs, at, target, rest, n - 1);
      EndedWalksAreFound(fs, at, target, k, depth + 1, limit);
      LoopIsClean(fs, at, target, depth + 1, limit);
      if Walk(fs, at, target, k).Arrived? {
        EndedWalksAreFound(fs, Walk(fs, at, target, k).path, rest, n - 1 - k, depth, limit);
      }
    } else if fs(next).kind != Other {
      CleanPush(fs, at, c);
      EndedWalksAreFound(fs, next, rest, n - 1, depth, limit);
    }
  }

  /** Resolution never gives a wrong answer: unless it gives up for too many nested
      links, its result, path or failure, is the one answer of the walk. */
  lemma ResolveIsTheWalk(fs: FileSystem, path: Path, limit: nat, n: nat)
    requires RootIsNoLink(fs) && Resolve(fs, path, 0, limit) != Err(TooManyLinks)
    ensures exists k :: (!Walk(fs, [], path, k).Unfinished?
                         && Resolve(fs, path, 0, limit) == Answer(Walk(fs, [], path, k)))
    ensures !Walk(fs, [], path, n).Unfinished? ==> Resolve(fs, path, 0, limit) == Answer(Walk(fs, [], path, n))
  {
    var k := LoopIsAWalk(fs, [], path, 0, limit, [], 0);
    assert path + [] == path;
    assert Resolve(fs, path, 0, limit) == Answer(Walk(fs, [], path, k));
    if !Walk(fs, [], path, n).Unfinished? {
      WalkIsStable(fs, [], path, n, n + k);
      WalkIsStable(fs, [], path, k, n + k);
    }
  }

  ghost predicate SomeDepthSuffices(fs: FileSystem, path: Path) {
    exists limit :: Resolve(fs, path, 0, limit) != Err(TooManyLinks)
  }

  ghost predicate WalkEnds(fs: FileSystem, path: Path) {
    exists n :: !Walk(fs, [], path, n).Unfinished?
  }

  /** Giving up is the only thing the bound on nesting changes: the walk ends exactly
      when some bound is enough, and any larger bound gives the same answer. */
  lemma EnoughDepth(fs: FileSystem, path: Path)
    requires RootIsNoLink(fs)
    ensures SomeDepthSuffices(fs, path) <==> WalkEnds(fs, path)
  {
    if limit: nat :| Resolve(fs, path, 0, limit) != Err(TooManyLinks) {
      ResolveIsTheWalk(fs, path, limit, 0);
    }
    if n: nat :| !Walk(fs, [], path, n).Unfinished? {
      EndedWalksAreFound(fs, [], path, n, 0, n + 1);
      assert Resolve(fs, path, 0, n + 1) != Err(TooManyLinks);
    }
  }

  lemma {:induction false} MoreDepthLoop(fs: FileSystem, resolved: Path, todo: Path, depth: nat, limit: nat, more: nat)
    requires depth < limit <= more && Loop(fs, resolved, todo, depth, limit) != Err(TooManyLinks)
    ensures Loop(fs, resolved, todo, depth, more) == Loop(fs, resolved, todo, depth, limit)
    decreases limit - depth, |todo|
  {
    if todo != [] {
      var c, rest := todo[0], todo[1..];
      var next := Push(resolved, c);
      if c == ParentDir {
        MoreDepthLoop(fs, Pop(resolved), rest, depth, limit, more);
      } else if c == CurDir {
        MoreDepthLoop(fs, resolved, rest, depth, limit, more);
      } else if fs(next).Target? {
        var base := Join(Pop(next), fs(next).path);
        MoreDepthLoop(fs, [], base, depth + 1, limit, more);
        var inner := Resolve(fs, base, depth + 1, limit);
        if inner.Ok? {
          MoreDepthLoop(fs, inner.value, rest, depth, limit, more);
        }
      } else if fs(next).kind != Other {
        MoreDepthLoop(fs, next, rest, depth, limit, more);
      }
    }
  }

  lemma MoreDepthChangesNoAnswer(fs: FileSystem, path: Path, limit: nat, more: nat)
    requires limit <= more && Resolve(fs, path, 0, limit) != Err(TooManyLinks)
    ensures Resolve(fs, path, 0, more) == Resolve(fs, path, 0, limit)
  {
    MoreDepthLoop(fs, [], path, 0, limit, more);
  }

  // ----- Component by component -----

  lemma {:induction false} LoopSnoc(fs: FileSystem, resolved: Path, todo: Path, c: Component, depth: nat, limit: nat)
    requires depth < limit
    ensures Loop(fs, resolved, todo + [c], depth, limit) ==
      match Loop(fs, resolved, todo, depth, limit)
      case Ok(p) => Loop(fs, p, [c], depth, limit)
      case Err(e) => Err(e)
    decreases |todo|
  {
    if todo == [] {
      assert todo + [c] == [c];
    } else {
      var first, rest := todo[0], todo[1..];
      var next := Push(resolved, first);
      assert (todo + [c])[0] == first && (todo + [c])[1..] == rest + [c];
      if first == ParentDir {
        LoopSnoc(fs, Pop(resolved), rest, c, depth, limit);
      } else if first == CurDir {
        LoopSnoc(fs, resolved, rest, c, depth, limit);
      } else if fs(next).Target? {
        var inner := Resolve(fs, Join(Pop(next), fs(next).path), depth + 1, limit);
        if inner.Ok? {
          LoopSnoc(fs, inner.value, rest, c, depth, limit);
        }
      } else if fs(next).kind != Other {
        LoopSnoc(fs, next, rest, c, depth, limit);
      }
    }
  }

  /** What one more component makes of a path that resolves to p: a dot leaves it, two
      dots take its last name, if it has one; a name is added to it when it is no link,
      or is missing; a link's target is resolved from p, or by itself when it starts at
      the root, one level deeper.  An error stays the error. */
  lemma ResolveSnoc(fs: FileSystem, path: Path, c: Component, depth: nat, limit: nat)
    requires depth < limit
    ensures Resolve(fs, [], depth, limit) == Ok([])
    ensures Resolve(fs, path, depth, limit).Err? ==>
      Resolve(fs, path + [c], depth, limit) == Resolve(fs, path, depth, limit)
    ensures Resolve(fs, path, depth, limit).Ok? ==> Adds(fs, path, c, depth, limit)
  {
    LoopSnoc(fs, [], path, c, depth, limit);
    ResultsAreClean(fs, path, depth, limit);
    if Resolve(fs, path, depth, limit).Ok? {
      OneComponent(fs, Resolve(fs, path, depth, limit).value, c, depth, limit);
    }
  }

  ghost predicate Adds(fs: FileSystem, path: Path, c: Component, depth: nat, limit: nat)
    requires depth < limit && Resolve(fs, path, depth, limit).Ok?
  {
    var p, r := Resolve(fs, path, depth, limit).value, Resolve(fs, path + [c], depth, limit);
    && (c == CurDir ==> r == Ok(p))
    && (c == ParentDir && p in {[], [RootDir]} ==> r == Ok(p))
    && (c == ParentDir && p !in {[], [RootDir]} ==> r == Ok(p[..|p| - 1]))
    && (c.Normal? ==> r == AddsName(fs, p, c, depth, limit))
    && (c == RootDir && !fs([RootDir]).Target? ==>
          r == if fs([RootDir]) == Fails(Other) then Err(ReadFailed([RootDir])) else Ok([RootDir]))
  }

  function AddsName(fs: FileSystem, p: Path, c: Component, depth: nat, limit: nat): Result<Path, Error> {
    match fs(p + [c])
    case Fails(NotFound) => Ok(p + [c])
    case Fails(InvalidInput) => Ok(p + [c])
    case Fails(Other) => Err(ReadFailed(p + [c]))
    case Target(target) =>
      var absolute := target != [] && target[0] == RootDir;
      Resolve(fs, if absolute then target else p + target, depth + 1, limit)
  }

  lemma OneComponent(fs: FileSystem, p: Path, c: Component, depth: nat, limit: nat)
    requires depth < limit && Clean(fs, p)
    ensures var r := Loop(fs, p, [c], depth, limit);
      && (c == CurDir ==> r == Ok(p))
      && (c == ParentDir && p in {[], [RootDir]} ==> r == Ok(p))
      && (c == ParentDir && p !in {[], [RootDir]} ==> r == Ok(p[..|p| - 1]))
      && (c.Normal? ==> r == AddsName(fs, p, c, depth, limit))
      && (c == RootDir && !fs([RootDir]).Target? ==>
            r == if fs([RootDir]) == Fails(Other) then Err(ReadFailed([RootDir])) else Ok([RootDir]))
  {
    assert [c][1..] == [];
    if c.Normal? {
      PopPush(fs, p, c);
    }
  }

  // ----- The bound -----

  /** Under the root, a name of n + 1 letters is the first of n links, each to the name
      without its first letter; the name of one letter is a file. */
  function Chain(): FileSystem {
    (path: Path) =>
      if |path| == 2 && path[0] == RootDir && path[1].Normal? && |path[1].name| > 1
      then Target([RootDir, Normal(path[1].name[1..])])
      else Fails(InvalidInput)
  }

  lemma {:induction false} ChainResolves(name: string, depth: nat, limit: nat)
    requires name != ""
    ensures Resolve(Chain(), [RootDir, Normal(name)], depth, limit) ==
      if depth + |name| <= limit then Ok([RootDir, Normal([name[|name| - 1]])]) else Err(TooManyLinks)
    decreases |name|
  {
    var path := [RootDir, Normal(name)];
    if depth < limit {
      assert path == [RootDir] + [Normal(name)] && [] + [RootDir] == [RootDir];
      ResolveSnoc(Chain(), [], RootDir, depth, limit);
      ResolveSnoc(Chain(), [RootDir], Normal(name), depth, limit);
      if |name| > 1 {
        ChainResolves(name[1..], depth + 1, limit);
      } else {
        assert name == [name[0]];
      }
    }
  }

  /** A chain of 39 links is followed to its end; one of 40 or more is refused. */
  lemma FortyLinksAreTooMany(links: nat, name: string)
    requires |name| == links + 1
    ensures Resolve(Chain(), [RootDir, Normal(name)], 0, MAX_DEPTH) ==
      if links <= 39 then Ok([RootDir, Normal([name[|name| - 1]])]) else Err(TooManyLinks)
  {
    ChainResolves(name, 0, MAX_DEPTH);
  }
}
