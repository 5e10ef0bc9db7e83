/** Removing named inputs from a lock, and the nodes nothing reaches any more. */
module LockPrune {
  import opened Common
  import opened LockFollows

  datatype Lock = Lock(root: Option<string>, nodes: Option<Nodes>, rest: string)

  // ----- What pruning means -----

  predicate IsInput(nodes: Nodes, name: string, link: Link) {
    && name in nodes && nodes[name].inputs.Some?
    && exists part :: part in nodes[name].inputs.value && nodes[name].inputs.value[part] == link
  }

  /** Some input of node a resolves to b. */
  ghost predicate Leads(nodes: Nodes, root: string, a: string, b: string) {
    exists link :: IsInput(nodes, a, link) && Resolve(nodes, root, link, []) == Ok(b)
  }

  ghost predicate IsPath(nodes: Nodes, root: string, p: seq<string>) {
    && p != [] && p[0] == root
    && forall i :: 0 <= i < |p| - 1 ==> Leads(nodes, root, p[i], p[i + 1])
  }

  ghost predicate Reaches(nodes: Nodes, root: string, name: string) {
    exists p :: IsPath(nodes, root, p) && p[|p| - 1] == name
  }

  ghost predicate Sound(nodes: Nodes, root: string, name: string) {
    name in nodes && forall link :: IsInput(nodes, name, link) ==> Resolve(nodes, root, link, []).Ok?
  }

  /** Nothing reachable is missing or has an input that does not resolve. */
  ghost predicate AllSound(nodes: Nodes, root: string) {
    forall name :: Reaches(nodes, root, name) ==> Sound(nodes, root, name)
  }

  ghost function Kept(nodes: Nodes, root: string): Nodes {
    map name | name in nodes && Reaches(nodes, root, name) :: nodes[name]
  }

  function WithoutInputs(nodes: Nodes, root: string, names: set<string>): Nodes
    requires root in nodes && nodes[root].inputs.Some?
  {
    nodes[root := nodes[root].(inputs := Some(nodes[root].inputs.value - names))]
  }

  predicate WellFormed(lock: Lock) {
    && lock.root.Some? && lock.nodes.Some?
    && lock.root.value in lock.nodes.value && lock.nodes.value[lock.root.value].inputs.Some?
  }

  function Edited(lock: Lock, names: set<string>): Nodes
    requires WellFormed(lock)
  {
    WithoutInputs(lock.nodes.value, lock.root.value, names)
  }

  ghost predicate Prunable(lock: Lock, names: set<string>) {
    WellFormed(lock) && AllSound(Edited(lock, names), lock.root.value)
  }

  ghost function Pruned(lock: Lock, names: set<string>): Lock
    requires WellFormed(lock)
  {
    lock.(nodes := Some(Kept(Edited(lock, names), lock.root.value)))
  }

  lemma RootReaches(nodes: Nodes, root: string)
    ensures Reaches(nodes, root, root)
  {
    assert IsPath(nodes, root, [root]);
  }

  lemma LeadsReaches(nodes: Nodes, root: string, a: string, b: string)
    requires Reaches(nodes, root, a) && Leads(nodes, root, a, b)
    ensures Reaches(nodes, root, b)
  {
    var p :| IsPath(nodes, root, p) && p[|p| - 1] == a;
    assert IsPath(nodes, root, p + [b]);
    assert (p + [b])[|p|] == b;
  }

  /** A set with the root that no edge leaves contains everything reachable. */
  lemma {:induction false} ClosedContainsPath(nodes: Nodes, root: string, closed: set<string>, p: seq<string>)
    requires IsPath(nodes, root, p) && root in closed
    requires forall a, b :: a in closed && Leads(nodes, root, a, b) ==> b in closed
    ensures p[|p| - 1] in closed
    decreases |p|
  {
    if |p| > 1 {
      var front := p[..|p| - 1];
      ClosedContainsPath(nodes, root, closed, front);
      assert Leads(nodes, root, p[|p| - 2], p[|p| - 1]);
    }
  }

  // ----- Deletion changes no meaning -----

  ghost predicate Submap(small: Nodes, big: Nodes) {
    forall name :: name in small ==> name in big && big[name] == small[name]
  }

  lemma {:induction false} MeaningInLarger(small: Nodes, big: Nodes, root: string, link: Link, fuel: nat)
    requires Submap(small, big) && Eval(small, root, link, fuel).Done?
    ensures Eval(big, root, link, fuel) == Eval(small, root, link, fuel)
    decreases fuel, 0
  {
    if link.Follows? {
      WalkInLarger(small, big, root, root, link.path, fuel - 1);
    }
  }

  lemma {:induction false} WalkInLarger(small: Nodes, big: Nodes, root: string, current: string,
                                        path: seq<Part>, fuel: nat)
    requires Submap(small, big) && EvalWalk(small, root, current, path, fuel).Done?
    ensures EvalWalk(big, root, current, path, fuel) == EvalWalk(small, root, current, path, fuel)
    decreases fuel, |path| + 1
  {
    if path != [] {
      var next := Edge(small, current, path[0].name).value;
      MeaningInLarger(small, big, root, next, fuel);
      WalkInLarger(small, big, root, Eval(small, root, next, fuel).node, path[1..], fuel);
    }
  }

  /** Every node a follows path passes through is reachable, so it is kept. */
  lemma {:induction false} MeaningKept(nodes: Nodes, root: string, link: Link, fuel: nat)
    requires Eval(nodes, root, link, fuel).Done?
    ensures Eval(Kept(nodes, root), root, link, fuel) == Eval(nodes, root, link, fuel)
    decreases fuel, 0
  {
    if link.Follows? {
      RootReaches(nodes, root);
      WalkKept(nodes, root, root, link.path, fuel - 1);
    }
  }

  lemma {:induction false} WalkKept(nodes: Nodes, root: string, current: string, path: seq<Part>, fuel: nat)
    requires Reaches(nodes, root, current) && EvalWalk(nodes, root, current, path, fuel).Done?
    ensures EvalWalk(Kept(nodes, root), root, current, path, fuel) == EvalWalk(nodes, root, current, path, fuel)
    decreases fuel, |path| + 1
  {
    if path != [] {
      var next := Edge(nodes, current, path[0].name).value;
      var node := Eval(nodes, root, next, fuel).node;
      assert IsInput(nodes, current, next);
      assert Means(nodes, root, next, Done(node));
      ResolveIsExact(nodes, root, next);
      assert Leads(nodes, root, current, node);
      LeadsReaches(nodes, root, current, node);
      MeaningKept(nodes, root, next, fuel);
      WalkKept(nodes, root, node, path[1..], fuel);
    }
  }

  /** Any link at all resolves to a name after deletion exactly when it did
      before, and to the same name. */
  lemma ResolutionKept(nodes: Nodes, root: string, link: Link, name: string)
    ensures Resolve(nodes, root, link, []) == Ok(name) <==> Resolve(Kept(nodes, root), root, link, []) == Ok(name)
  {
    var kept := Kept(nodes, root);
    ResolveIsExact(nodes, root, link);
    ResolveIsExact(kept, root, link);
    if Means(nodes, root, link, Done(name)) {
      var fuel: nat :| Eval(nodes, root, link, fuel) == Done(name);
      MeaningKept(nodes, root, link, fuel);
      assert Means(kept, root, link, Done(name));
    }
    if Means(kept, root, link, Done(name)) {
      var fuel: nat :| Eval(kept, root, link, fuel) == Done(name);
      MeaningInLarger(kept, nodes, root, link, fuel);
      assert Means(nodes, root, link, Done(name));
    }
  }

  lemma LeadsKept(nodes: Nodes, root: string, a: string, b: string)
    requires Reaches(nodes, root, a)
    ensures Leads(nodes, root, a, b) <==> Leads(Kept(nodes, root), root, a, b)
  {
    var kept := Kept(nodes, root);
    forall link ensures IsInput(nodes, a, link) <==> IsInput(kept, a, link)
      ensures Resolve(nodes, root, link, []) == Ok(b) <==> Resolve(kept, root, link, []) == Ok(b)
    {
      ResolutionKept(nodes, root, link, b);
    }
  }

  lemma {:induction false} PathKept(nodes: Nodes, root: string, p: seq<string>)
    requires IsPath(nodes, root, p)
    ensures IsPath(Kept(nodes, root), root, p)
  {
    forall i | 0 <= i < |p| - 1 ensures Leads(Kept(nodes, root), root, p[i], p[i + 1]) {
      assert IsPath(nodes, root, p[..i + 1]) && p[..i + 1][|p[..i + 1]| - 1] == p[i];
      LeadsKept(nodes, root, p[i], p[i + 1]);
    }
  }

  /** Every input of a kept node resolves to the same kept node before and after
      the deletion, and nothing but deletion happened to the kept nodes. */
  lemma PruningKeepsMeaning(lock: Lock, names: set<string>, name: string, link: Link)
    requires Prunable(lock, names) && IsInput(Pruned(lock, names).nodes.value, name, link)
    ensures var before, after := Edited(lock, names), Pruned(lock, names).nodes.value;
      var root := lock.root.value;
      && Resolve(before, root, link, []).Ok?
      && Resolve(after, root, link, []) == Resolve(before, root, link, [])
      && Resolve(after, root, link, []).value in after
      && before[name] == after[name]
  {
    var nodes, root := Edited(lock, names), lock.root.value;
    assert Sound(nodes, root, name) && IsInput(nodes, name, link);
    var target := Resolve(nodes, root, link, []).value;
    ResolutionKept(nodes, root, link, target);
    assert Leads(nodes, root, name, target);
    LeadsReaches(nodes, root, name, target);
  }

  /** Pruning a pruned lock succeeds and changes nothing. */
  lemma PruningAgainChangesNothing(lock: Lock, names: set<string>)
    requires Prunable(lock, names)
    ensures Prunable(Pruned(lock, names), names)
    ensures Pruned(Pruned(lock, names), names) == Pruned(lock, names)
  {
    var nodes, root := Edited(lock, names), lock.root.value;
    var kept := Kept(nodes, root);
    RootReaches(nodes, root);
    assert kept[root].inputs.value - names == kept[root].inputs.value;
    assert Edited(Pruned(lock, names), names) == kept;
    forall name ensures Reaches(kept, root, name) ==> Reaches(nodes, root, name)
      ensures Reaches(nodes, root, name) ==> Reaches(kept, root, name) && Sound(kept, root, name)
    {
      KeptReaches(nodes, root, name);
      if Reaches(nodes, root, name) {
        assert Sound(nodes, root, name);
        forall link | IsInput(kept, name, link) ensures Resolve(kept, root, link, []).Ok? {
          assert IsInput(nodes, name, link);
          ResolutionKept(nodes, root, link, Resolve(nodes, root, link, []).value);
        }
      }
    }
    assert Kept(kept, root) == kept;
  }

  lemma KeptReaches(nodes: Nodes, root: string, name: string)
    ensures Reaches(nodes, root, name) <==> Reaches(Kept(nodes, root), root, name)
  {
    var kept := Kept(nodes, root);
    if Reaches(nodes, root, name) {
      var p :| IsPath(nodes, root, p) && p[|p| - 1] == name;
      PathKept(nodes, root, p);
    }
    if Reaches(kept, root, name) {
      var p :| IsPath(kept, root, p) && p[|p| - 1] == name;
      forall i | 0 <= i < |p| - 1 ensures Leads(nodes, root, p[i], p[i + 1]) {
        LeadsInLarger(nodes, root, p[i], p[i + 1]);
      }
      assert IsPath(nodes, root, p);
    }
  }

  lemma LeadsInLarger(nodes: Nodes, root: string, a: string, b: string)
    requires Leads(Kept(nodes, root), root, a, b)
    ensures Leads(nodes, root, a, b)
  {
    var link :| IsInput(Kept(nodes, root), a, link) && Resolve(Kept(nodes, root), root, link, []) == Ok(b);
    ResolutionKept(nodes, root, link, b);
    assert IsInput(nodes, a, link);
  }

  // ----- What pruning does, told of the lock and the result -----

  /** The nodes of a lock, once the named inputs of its root are gone: nothing else
      differs. */
  ghost predicate InputsRemoved(lock: Lock, names: set<string>, nodes: Nodes) {
    && WellFormed(lock) && nodes.Keys == lock.nodes.value.Keys
    && var root, before := lock.root.value, lock.nodes.value;
    && (forall name :: name in before && name != root ==> nodes[name] == before[name])
    && OnlyWithout(before[root], nodes[root], names)
  }

  /** A node that has lost its inputs of these names, and is the same else. */
  ghost predicate OnlyWithout(before: Node, after: Node, names: set<string>) {
    && before.inputs.Some? && after.inputs.Some? && after.rest == before.rest
    && (forall part :: part in after.inputs.value <==> part in before.inputs.value && part !in names)
    && (forall part :: part in after.inputs.value ==> after.inputs.value[part] == before.inputs.value[part])
  }

  lemma EditedRemoves(lock: Lock, names: set<string>)
    requires WellFormed(lock)
    ensures InputsRemoved(lock, names, Edited(lock, names))
  {
  }

  lemma RemovedIsEdited(lock: Lock, names: set<string>, nodes: Nodes)
    requires InputsRemoved(lock, names, nodes)
    ensures nodes == Edited(lock, names)
  {
    var root, edited := lock.root.value, Edited(lock, names);
    assert nodes[root].inputs.value == edited[root].inputs.value;
    assert nodes[root] == edited[root];
    forall name | name in nodes ensures nodes[name] == edited[name] {
    }
  }

  /** After pruning, the root is the same node without its named inputs, every other
      node is the one it was, and a node is there exactly when the root reaches it
      with the named inputs gone. */
  ghost predicate PrunedOf(lock: Lock, names: set<string>, result: Lock) {
    && WellFormed(lock) && WellFormed(result) && result.root == lock.root && result.rest == lock.rest
    && var root, before, after := lock.root.value, lock.nodes.value, result.nodes.value;
    && OnlyWithout(before[root], after[root], names)
    && (forall name :: name in after && name != root ==> name in before && after[name] == before[name])
    && forall nodes: Nodes, name :: InputsRemoved(lock, names, nodes) ==>
         (name in after <==> Reaches(nodes, root, name))
  }

  /** Everything that the root reaches without its named inputs is there and resolves. */
  ghost predicate CanPrune(lock: Lock, names: set<string>) {
    WellFormed(lock) && forall nodes: Nodes :: InputsRemoved(lock, names, nodes) ==> AllSound(nodes, lock.root.value)
  }

  lemma PrunableMeans(lock: Lock, names: set<string>)
    ensures Prunable(lock, names) <==> CanPrune(lock, names)
  {
    if WellFormed(lock) {
      EditedRemoves(lock, names);
      forall nodes: Nodes | InputsRemoved(lock, names, nodes) ensures nodes == Edited(lock, names) {
        RemovedIsEdited(lock, names, nodes);
      }
    }
  }

  lemma PrunedMeans(lock: Lock, names: set<string>)
    requires Prunable(lock, names)
    ensures PrunedOf(lock, names, Pruned(lock, names))
  {
    var nodes, root := Edited(lock, names), lock.root.value;
    RootReaches(nodes, root);
    EditedRemoves(lock, names);
    forall other: Nodes, name | InputsRemoved(lock, names, other)
      ensures name in Kept(nodes, root) <==> Reaches(other, root, name)
    {
      RemovedIsEdited(lock, names, other);
      if Reaches(nodes, root, name) {
        assert Sound(nodes, root, name);
      }
    }
  }

  // ----- The code -----

  ghost predicate Fails(nodes: Nodes, root: string, e: LockError) {
    if e.MissingNode? then e.node !in nodes && Reaches(nodes, root, e.node)
    else FromResolution(e) && exists name, link ::
      Reaches(nodes, root, name) && IsInput(nodes, name, link) && Resolve(nodes, root, link, []) == Err(e)
  }

  /** What an error reports. */
  ghost predicate Explains(e: LockError, lock: Lock, names: set<string>) {
    match e
    case NoRoot => lock.root.None?
    case NoNodes => lock.root.Some? && lock.nodes.None?
    case NoRootInputs => lock.root.Some? && lock.nodes.Some? && !WellFormed(lock)
    case _ =>
      && WellFormed(lock)
      && exists nodes: Nodes :: InputsRemoved(lock, names, nodes) && Fails(nodes, lock.root.value, e)
  }

  ghost predicate Closed(nodes: Nodes, root: string, reachable: set<string>, pending: seq<string>) {
    && (root in reachable || root in pending)
    && (forall name :: name in reachable ==> Sound(nodes, root, name))
    && (forall a, b :: a in reachable && Leads(nodes, root, a, b) ==> b in reachable || b in pending)
  }

  lemma AllLeadReach(nodes: Nodes, root: string, name: string, children: seq<string>)
    requires Reaches(nodes, root, name) && forall b :: b in children ==> Leads(nodes, root, name, b)
    ensures forall b :: b in children ==> Reaches(nodes, root, b)
  {
    forall b | b in children ensures Reaches(nodes, root, b) {
      LeadsReaches(nodes, root, name, b);
    }
  }

  /** What is taken off must be visited, or have been. */
  ghost predicate ClosedBut(nodes: Nodes, root: string, reachable: set<string>, pending: seq<string>, name: string) {
    && (root in reachable || root in pending || root == name)
    && (forall a :: a in reachable ==> Sound(nodes, root, a))
    && (forall a, b :: a in reachable && Leads(nodes, root, a, b) ==> b in reachable || b in pending || b == name)
  }

  lemma FrontPending(nodes: Nodes, root: string, reachable: set<string>, pending: seq<string>)
    requires pending != [] && Closed(nodes, root, reachable, pending)
    ensures ClosedBut(nodes, root, reachable, pending[..|pending| - 1], pending[|pending| - 1])
    ensures pending[|pending| - 1] in reachable ==> Closed(nodes, root, reachable, pending[..|pending| - 1])
    ensures forall b :: b in pending[..|pending| - 1] ==> b in pending
  {
    assert pending == pending[..|pending| - 1] + [pending[|pending| - 1]];
  }

  lemma ClosedAfter(
    nodes: Nodes, root: string, reachable: set<string>, pending: seq<string>, name: string, children: seq<string>)
    requires ClosedBut(nodes, root, reachable, pending, name) && Sound(nodes, root, name)
    requires forall b :: b in children <==> Leads(nodes, root, name, b)
    ensures Closed(nodes, root, reachable + {name}, pending + children)
  {
  }

  lemma FewerLeft(nodes: Nodes, reachable: set<string>, name: string)
    requires name in nodes && name !in reachable
    ensures |nodes.Keys - (reachable + {name})| < |nodes.Keys - reachable|
  {
    assert nodes.Keys - (reachable + {name}) < nodes.Keys - reachable;
    SubsetSize(nodes.Keys - (reachable + {name}), nodes.Keys - reachable);
  }

  lemma ClosedContainsReached(nodes: Nodes, root: string, reachable: set<string>)
    requires Closed(nodes, root, reachable, [])
    ensures forall name :: Reaches(nodes, root, name) ==> name in reachable
  {
    forall name | Reaches(nodes, root, name) ensures name in reachable {
      var p :| IsPath(nodes, root, p) && p[|p| - 1] == name;
      ClosedContainsPath(nodes, root, reachable, p);
    }
  }

  lemma FailureExplains(lock: Lock, names: set<string>, e: LockError)
    requires WellFormed(lock) && Fails(Edited(lock, names), lock.root.value, e)
    ensures Explains(e, lock, names)
  {
    EditedRemoves(lock, names);
  }

  /** The in-place form of the root's inputs, and of the nodes kept. */
  lemma RemovalIsEdit(lock: Lock, names: seq<string>, inputs: map<string, Link>)
    requires WellFormed(lock)
    requires inputs == lock.nodes.value[lock.root.value].inputs.value - (set n | n in names)
    ensures var root, nodes := lock.root.value, lock.nodes.value;
      nodes[root := nodes[root].(inputs := Some(inputs))] == Edited(lock, set n | n in names)
  {
  }

  function Restrict(nodes: Nodes, names: set<string>): Nodes {
    map name | name in nodes && name in names :: nodes[name]
  }

  lemma RestrictKeeps(nodes: Nodes, root: string, names: set<string>)
    requires forall name :: name in names <==> Reaches(nodes, root, name)
    ensures Restrict(nodes, names) == Kept(nodes, root)
  {
  }

  /** Pruning succeeds exactly when everything reachable is there and resolves. */
  method PruneLock(lock: Lock, names: seq<string>) returns (r: Result<Lock, LockError>)
    ensures r.Ok? <==> CanPrune(lock, set n | n in names)
    ensures r.Ok? ==> PrunedOf(lock, (set n | n in names), r.value)
    ensures r.Ok? ==> r.value == Pruned(lock, set n | n in names)
    ensures r.Err? ==> Explains(r.error, lock, set n | n in names)
  {
    ghost var gone := set n | n in names;
    PrunableMeans(lock, gone);
    if lock.root.None? {
      return Err(NoRoot);
    }
    var root := lock.root.value;
    if lock.nodes.None? {
      return Err(NoNodes);
    }
    var nodes := lock.nodes.value;
    if root !in nodes || nodes[root].inputs.None? {
      return Err(NoRootInputs);
    }
    var inputs := nodes[root].inputs.value;
    for i := 0 to |names|
      invariant inputs == nodes[root].inputs.value - (set n | n in names[..i])
    {
      inputs := inputs - {names[i]};
    }
    assert names[..|names|] == names;
    nodes := nodes[root := nodes[root].(inputs := Some(inputs))];
    RemovalIsEdit(lock, names, inputs);
    var reach := ReachableNodes(nodes, root);
    if reach.Err? {
      FailureExplains(lock, gone, reach.error);
      return Err(reach.error);
    }
    RestrictKeeps(nodes, root, reach.value);
    PrunedMeans(lock, gone);
    return Ok(lock.(nodes := Some(Restrict(nodes, reach.value))));
  }

  /** The worklist: nodes already visited, and nodes still to visit. */
  method ReachableNodes(nodes: Nodes, root: string) returns (r: Result<set<string>, LockError>)
    ensures r.Ok? <==> AllSound(nodes, root)
    ensures r.Ok? ==> forall name :: name in r.value <==> Reaches(nodes, root, name)
    ensures r.Err? ==> Fails(nodes, root, r.error)
  {
    var reachable: set<string> := {};
    var pending := [root];
    RootReaches(nodes, root);
    while pending != []
      invariant forall name :: name in reachable ==> name in nodes
      invariant forall name :: name in reachable || name in pending ==> Reaches(nodes, root, name)
      invariant Closed(nodes, root, reachable, pending)
      decreases |nodes.Keys - reachable|, |pending|
    {
      var name := pending[|pending| - 1];
      FrontPending(nodes, root, reachable, pending);
      pending := pending[..|pending| - 1];
      if name in reachable {
        continue;
      }
      if name !in nodes {
        return Err(MissingNode(name));
      }
      var children := Children(nodes, root, name);
      if children.Err? {
        return Err(children.error);
      }
      FewerLeft(nodes, reachable, name);
      AllLeadReach(nodes, root, name, children.value);
      ClosedAfter(nodes, root, reachable, pending, name, children.value);
      reachable := reachable + {name};
      pending := pending + children.value;
    }
    ClosedContainsReached(nodes, root, reachable);
    return Ok(reachable);
  }

  /** The nodes the inputs of one node resolve to, in any order. */
  method Children(nodes: Nodes, root: string, name: string) returns (r: Result<seq<string>, LockError>)
    requires name in nodes
    ensures r.Ok? <==> Sound(nodes, root, name)
    ensures r.Ok? ==> forall b :: b in r.value <==> Leads(nodes, root, name, b)
    ensures r.Err? ==> FromResolution(r.error)
    ensures r.Err? ==> exists link :: IsInput(nodes, name, link) && Resolve(nodes, root, link, []) == Err(r.error)
  {
    var children: seq<string> := [];
    var inputs := if nodes[name].inputs.Some? then nodes[name].inputs.value else map[];
    var todo := inputs.Keys;
    while todo != {}
      invariant todo <= inputs.Keys
      invariant forall part :: part in inputs && part !in todo ==>
        Resolve(nodes, root, inputs[part], []).Ok? && Resolve(nodes, root, inputs[part], []).value in children
      invariant forall b :: b in children ==> Leads(nodes, root, name, b)
      decreases todo
    {
      var part :| part in todo;
      var trail := new Trail();
      var target := ResolveLink(nodes, root, inputs[part], trail);
      assert IsInput(nodes, name, inputs[part]);
      if target.Err? {
        return Err(target.error);
      }
      children := children + [target.value];
      todo := todo - {part};
    }
    return Ok(children);
  }
}
