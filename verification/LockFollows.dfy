/** Resolving the links of a flake lock.  A follows path is walked from the lock's
    root; Resolve stops on a path that is already being walked.  The reference,
    Eval, has no such check and may run for ever. */
module LockFollows {
  import opened Common

  // Values of other JSON kinds, and fields nobody looks at, are kept as text.
  datatype Part = Text(name: string) | Other(json: string)

  datatype Link = Name(name: string) | Follows(path: seq<Part>) | Malformed(json: string)

  datatype Node = Node(inputs: Option<map<string, Link>>, rest: string)

  type Nodes = map<string, Node>

  datatype LockError =
    | NoRoot | NoNodes | NoRootInputs | MissingNode(node: string)
    | BadReference | BadPath | MissingEdge(node: string, part: string) | Cycle

  /** The errors that resolving a link can give. */
  predicate FromResolution(e: LockError) {
    e.BadReference? || e.BadPath? || e.MissingEdge? || e.Cycle?
  }

  function Edge(nodes: Nodes, node: string, part: string): Option<Link> {
    if node in nodes && nodes[node].inputs.Some? && part in nodes[node].inputs.value
    then Some(nodes[node].inputs.value[part]) else None
  }

  // ----- The checked resolution -----

  ghost function AllLinks(nodes: Nodes): set<Link> {
    set n, part | n in nodes && nodes[n].inputs.Some? && part in nodes[n].inputs.value :: nodes[n].inputs.value[part]
  }

  ghost function Members(trail: seq<Link>): set<Link> {
    set l | l in trail
  }

  lemma MeasureDrops(nodes: Nodes, link: Link, trail: seq<Link>)
    requires link !in trail
    ensures |AllLinks(nodes) - Members(trail + [link])| < |(AllLinks(nodes) + {link}) - Members(trail)|
    ensures link in AllLinks(nodes) ==> (AllLinks(nodes) + {link}) - Members(trail) == AllLinks(nodes) - Members(trail)
  {
    var big, small := (AllLinks(nodes) + {link}) - Members(trail), AllLinks(nodes) - Members(trail + [link]);
    assert small == big - {link};
    assert link in big;
  }

  function Resolve(nodes: Nodes, root: string, link: Link, trail: seq<Link>): (r: Result<string, LockError>)
    ensures r.Err? ==> FromResolution(r.error)
    decreases |(AllLinks(nodes) + {link}) - Members(trail)|, 0
  {
    match link
    case Name(name) => Ok(name)
    case Malformed(_) => Err(BadReference)
    case Follows(path) =>
      if link in trail then Err(Cycle)
      else
        MeasureDrops(nodes, link, trail);
        Walk(nodes, root, root, path, trail + [link])
  }

  function Walk(nodes: Nodes, root: string, current: string, path: seq<Part>, trail: seq<Link>)
    : (r: Result<string, LockError>)
    ensures r.Err? ==> FromResolution(r.error)
    decreases |AllLinks(nodes) - Members(trail)|, |path|
  {
    if path == [] then Ok(current)
    else if path[0].Other? then Err(BadPath)
    else
      match Edge(nodes, current, path[0].name)
      case None => Err(MissingEdge(current, path[0].name))
      case Some(next) =>
        assert (AllLinks(nodes) + {next}) - Members(trail) == AllLinks(nodes) - Members(trail);
        match Resolve(nodes, root, next, trail)
        case Err(e) => Err(e)
        case Ok(node) => Walk(nodes, root, node, path[1..], trail)
  }

  // ----- The unchecked meaning -----

  datatype Meaning = Done(node: string) | Stuck(error: LockError) | Running

  /** Resolution without a cycle check, nesting at most `fuel` follows paths. */
  function Eval(nodes: Nodes, root: string, link: Link, fuel: nat): (m: Meaning)
    ensures m.Stuck? ==> m.error != Cycle
    decreases fuel, 0
  {
    match link
    case Name(name) => Done(name)
    case Malformed(_) => Stuck(BadReference)
    case Follows(path) => if fuel == 0 then Running else EvalWalk(nodes, root, root, path, fuel - 1)
  }

  function EvalWalk(nodes: Nodes, root: string, current: string, path: seq<Part>, fuel: nat): (m: Meaning)
    ensures m.Stuck? ==> m.error != Cycle
    decreases fuel, |path| + 1
  {
    if path == [] then Done(current)
    else if path[0].Other? then Stuck(BadPath)
    else
      match Edge(nodes, current, path[0].name)
      case None => Stuck(MissingEdge(current, path[0].name))
      case Some(next) =>
        match Eval(nodes, root, next, fuel)
        case Done(node) => EvalWalk(nodes, root, node, path[1..], fuel)
        case other => other
  }

  /** More fuel never changes an answer. */
  lemma {:induction false} EvalStable(nodes: Nodes, root: string, link: Link, fuel: nat, more: nat)
    requires fuel <= more && Eval(nodes, root, link, fuel) != Running
    ensures Eval(nodes, root, link, more) == Eval(nodes, root, link, fuel)
    decreases fuel, 0
  {
    if link.Follows? {
      EvalWalkStable(nodes, root, root, link.path, fuel - 1, more - 1);
    }
  }

  lemma {:induction false} EvalWalkStable(nodes: Nodes, root: string, current: string, path: seq<Part>,
                                          fuel: nat, more: nat)
    requires fuel <= more && EvalWalk(nodes, root, current, path, fuel) != Running
    ensures EvalWalk(nodes, root, current, path, more) == EvalWalk(nodes, root, current, path, fuel)
    decreases fuel, |path| + 1
  {
    if path != [] && path[0].Text? {
      match Edge(nodes, current, path[0].name) {
        case None =>
        case Some(next) =>
          EvalStable(nodes, root, next, fuel, more);
          if Eval(nodes, root, next, fuel).Done? {
            EvalWalkStable(nodes, root, Eval(nodes, root, next, fuel).node, path[1..], fuel, more);
          }
      }
    }
  }

  lemma EvalUnique(nodes: Nodes, root: string, link: Link, f: nat, g: nat)
    requires Eval(nodes, root, link, f) != Running && Eval(nodes, root, link, g) != Running
    ensures Eval(nodes, root, link, f) == Eval(nodes, root, link, g)
  {
    if f <= g {
      EvalStable(nodes, root, link, f, g);
    } else {
      EvalStable(nodes, root, link, g, f);
    }
  }

  // ----- A name or an error other than a cycle is what the link means -----

  function Answer(r: Result<string, LockError>): Meaning {
    match r
    case Ok(node) => Done(node)
    case Err(e) => Stuck(e)
  }

  lemma {:induction false} AnswerIsMeaning(nodes: Nodes, root: string, link: Link, trail: seq<Link>)
    returns (fuel: nat)
    requires Resolve(nodes, root, link, trail) != Err(Cycle)
    ensures Eval(nodes, root, link, fuel) == Answer(Resolve(nodes, root, link, trail))
    decreases |(AllLinks(nodes) + {link}) - Members(trail)|, 0
  {
    fuel := 0;
    if link.Follows? {
      MeasureDrops(nodes, link, trail);
      fuel := WalkIsMeaning(nodes, root, root, link.path, trail + [link]);
      fuel := fuel + 1;
    }
  }

  lemma {:induction false} WalkIsMeaning(nodes: Nodes, root: string, current: string, path: seq<Part>, trail: seq<Link>)
    returns (fuel: nat)
    requires Walk(nodes, root, current, path, trail) != Err(Cycle)
    ensures EvalWalk(nodes, root, current, path, fuel) == Answer(Walk(nodes, root, current, path, trail))
    decreases |AllLinks(nodes) - Members(trail)|, |path|
  {
    fuel := 0;
    if path != [] && path[0].Text? && Edge(nodes, current, path[0].name).Some? {
      var next := Edge(nodes, current, path[0].name).value;
      assert (AllLinks(nodes) + {next}) - Members(trail) == AllLinks(nodes) - Members(trail);
      fuel := AnswerIsMeaning(nodes, root, next, trail);
      var here := fuel;
      if Resolve(nodes, root, next, trail).Ok? {
        var node := Resolve(nodes, root, next, trail).value;
        var rest := WalkIsMeaning(nodes, root, node, path[1..], trail);
        fuel := if here < rest then rest else here;
        EvalStable(nodes, root, next, here, fuel);
        EvalWalkStable(nodes, root, node, path[1..], rest, fuel);
      }
    }
  }

  // ----- A reported cycle never ends -----

  ghost predicate Ends(nodes: Nodes, root: string, link: Link, fuel: nat) {
    Eval(nodes, root, link, fuel) != Running
  }

  /** Answering `a` takes answering `b` first, with less nesting left. */
  ghost predicate Needs(nodes: Nodes, root: string, a: Link, b: Link) {
    forall fuel: nat :: Ends(nodes, root, a, fuel) ==> fuel > 0 && Ends(nodes, root, b, fuel - 1)
  }

  /** Each path on the trail waits for the next one, the last for `link`. */
  ghost predicate Waiting(nodes: Nodes, root: string, trail: seq<Link>, link: Link) {
    forall i :: 0 <= i < |trail| ==> Needs(nodes, root, trail[i], (trail + [link])[i + 1])
  }

  ghost predicate Diverges(nodes: Nodes, root: string, link: Link) {
    forall fuel: nat :: !Ends(nodes, root, link, fuel)
  }

  lemma {:induction false} WaitingDescends(nodes: Nodes, root: string, trail: seq<Link>, link: Link, i: nat, fuel: nat)
    requires Waiting(nodes, root, trail, link) && i < |trail| && Ends(nodes, root, trail[i], fuel)
    ensures fuel >= |trail| - i && Ends(nodes, root, link, fuel - (|trail| - i))
    decreases |trail| - i
  {
    assert Needs(nodes, root, trail[i], (trail + [link])[i + 1]);
    if i + 1 < |trail| {
      WaitingDescends(nodes, root, trail, link, i + 1, fuel - 1);
    }
  }

  lemma {:induction false} LoopNeverEnds(nodes: Nodes, root: string, trail: seq<Link>, link: Link, i: nat, fuel: nat)
    requires Waiting(nodes, root, trail, link) && i < |trail| && trail[i] == link
    ensures !Ends(nodes, root, link, fuel)
    decreases fuel
  {
    if Ends(nodes, root, link, fuel) {
      WaitingDescends(nodes, root, trail, link, i, fuel);
      LoopNeverEnds(nodes, root, trail, link, i, fuel - (|trail| - i));
    }
  }

  lemma {:induction false} CycleDiverges(nodes: Nodes, root: string, link: Link, trail: seq<Link>)
    requires Waiting(nodes, root, trail, link)
    requires Resolve(nodes, root, link, trail) == Err(Cycle)
    ensures Diverges(nodes, root, link)
    decreases |(AllLinks(nodes) + {link}) - Members(trail)|, 0
  {
    if link in trail {
      var i :| 0 <= i < |trail| && trail[i] == link;
      forall fuel: nat ensures !Ends(nodes, root, link, fuel) {
        LoopNeverEnds(nodes, root, trail, link, i, fuel);
      }
    } else {
      MeasureDrops(nodes, link, trail);
      WalkCycleDiverges(nodes, root, link, root, link.path, trail);
    }
  }

  /** Answering `link` takes walking the rest of its path from `current`. */
  ghost predicate Remains(nodes: Nodes, root: string, link: Link, current: string, path: seq<Part>) {
    forall fuel: nat :: Ends(nodes, root, link, fuel) ==>
      fuel > 0 && EvalWalk(nodes, root, current, path, fuel - 1) != Running
  }

  lemma {:induction false} WalkCycleDiverges(nodes: Nodes, root: string, link: Link, current: string,
                                             path: seq<Part>, trail: seq<Link>)
    requires Waiting(nodes, root, trail, link)
    requires Remains(nodes, root, link, current, path)
    requires Walk(nodes, root, current, path, trail + [link]) == Err(Cycle)
    ensures Diverges(nodes, root, link)
    decreases |AllLinks(nodes) - Members(trail + [link])|, |path|
  {
    var next := Edge(nodes, current, path[0].name).value;
    var longer := trail + [link];
    assert (AllLinks(nodes) + {next}) - Members(longer) == AllLinks(nodes) - Members(longer);
    assert Needs(nodes, root, link, next);
    match Resolve(nodes, root, next, longer)
    case Err(_) =>
      WaitingGrows(nodes, root, trail, link, next);
      CycleDiverges(nodes, root, next, longer);
    case Ok(node) =>
      var known := AnswerIsMeaning(nodes, root, next, longer);
      RemainsAfter(nodes, root, link, current, path, node, known);
      WalkCycleDiverges(nodes, root, link, node, path[1..], trail);
  }

  lemma WaitingGrows(nodes: Nodes, root: string, trail: seq<Link>, link: Link, next: Link)
    requires Waiting(nodes, root, trail, link) && Needs(nodes, root, link, next)
    ensures Waiting(nodes, root, trail + [link], next)
  {
    var longer := trail + [link];
    forall i | 0 <= i < |longer| ensures Needs(nodes, root, longer[i], (longer + [next])[i + 1]) {
      if i < |trail| {
        assert longer[i] == trail[i] && (longer + [next])[i + 1] == (trail + [link])[i + 1];
      }
    }
  }

  lemma RemainsAfter(
    nodes: Nodes, root: string, link: Link, current: string, path: seq<Part>, node: string, known: nat)
    requires path != [] && path[0].Text? && Edge(nodes, current, path[0].name).Some?
    requires Remains(nodes, root, link, current, path)
    requires Eval(nodes, root, Edge(nodes, current, path[0].name).value, known) == Done(node)
    ensures Remains(nodes, root, link, node, path[1..])
  {
    forall fuel: nat | Ends(nodes, root, link, fuel)
      ensures fuel > 0 && EvalWalk(nodes, root, node, path[1..], fuel - 1) != Running
    {
      assert EvalWalk(nodes, root, current, path, fuel - 1) != Running;
      EvalUnique(nodes, root, Edge(nodes, current, path[0].name).value, known, fuel - 1);
    }
  }

  // ----- The main result -----

  ghost predicate Means(nodes: Nodes, root: string, link: Link, m: Meaning) {
    exists fuel: nat :: Eval(nodes, root, link, fuel) == m
  }

  /** On every lock, however its follows paths are tangled, Resolve gives the name
      a link means when it means one, the error where its resolution gets stuck
      when it does, and a cycle exactly when unchecked resolution never ends. */
  lemma ResolveIsExact(nodes: Nodes, root: string, link: Link)
    ensures forall node :: Resolve(nodes, root, link, []) == Ok(node) <==> Means(nodes, root, link, Done(node))
    ensures forall e | e != Cycle :: Resolve(nodes, root, link, []) == Err(e) <==> Means(nodes, root, link, Stuck(e))
    ensures Resolve(nodes, root, link, []) == Err(Cycle) <==> Diverges(nodes, root, link)
  {
    var r := Resolve(nodes, root, link, []);
    if r == Err(Cycle) {
      CycleDiverges(nodes, root, link, []);
      forall fuel: nat ensures Eval(nodes, root, link, fuel) == Running {
        assert !Ends(nodes, root, link, fuel);
      }
    } else {
      var known := AnswerIsMeaning(nodes, root, link, []);
      assert Ends(nodes, root, link, known);
      assert Means(nodes, root, link, Answer(r));
      forall fuel: nat | Eval(nodes, root, link, fuel) != Running
        ensures Eval(nodes, root, link, fuel) == Answer(r)
      {
        EvalUnique(nodes, root, link, known, fuel);
      }
    }
  }

  // ----- What follows paths mean -----

  /** A path goes on from where its front ends. */
  lemma {:induction false} EvalWalkSnoc(
    nodes: Nodes, root: string, current: string, path: seq<Part>, part: Part, fuel: nat)
    ensures EvalWalk(nodes, root, current, path + [part], fuel) ==
      match EvalWalk(nodes, root, current, path, fuel)
      case Done(a) => EvalWalk(nodes, root, a, [part], fuel)
      case other => other
    decreases |path|
  {
    var longer := path + [part];
    if path == [] {
      assert longer == [part];
    } else {
      assert longer[0] == path[0] && longer[1..] == path[1..] + [part];
      if path[0].Text? && Edge(nodes, current, path[0].name).Some? {
        var next := Eval(nodes, root, Edge(nodes, current, path[0].name).value, fuel);
        if next.Done? {
          EvalWalkSnoc(nodes, root, next.node, path[1..], part, fuel);
        }
      }
    }
  }

  predicate HasInput(nodes: Nodes, a: string, x: string) {
    a in nodes && nodes[a].inputs.Some? && x in nodes[a].inputs.value
  }

  /** The input x of the node that a link resolves to resolves to b. */
  ghost predicate StepsTo(nodes: Nodes, root: string, link: Link, x: string, b: string) {
    exists a :: (Resolve(nodes, root, link, []) == Ok(a)
      && HasInput(nodes, a, x) && Resolve(nodes, root, nodes[a].inputs.value[x], []) == Ok(b))
  }

  /** A name is itself, the empty path is the root, and a longer path goes on from where
      the shorter one ends, by the input it names there. */
  lemma FollowsCompose(nodes: Nodes, root: string, path: seq<Part>, x: string, b: string)
    ensures Resolve(nodes, root, Name(b), []) == Ok(b) && Resolve(nodes, root, Follows([]), []) == Ok(root)
    ensures Resolve(nodes, root, Follows(path + [Text(x)]), []) == Ok(b) <==> StepsTo(nodes, root, Follows(path), x, b)
  {
    if Resolve(nodes, root, Follows(path + [Text(x)]), []) == Ok(b) {
      StepWasTaken(nodes, root, path, x, b);
    }
    if StepsTo(nodes, root, Follows(path), x, b) {
      StepExtends(nodes, root, path, x, b);
    }
  }

  lemma StepWasTaken(nodes: Nodes, root: string, path: seq<Part>, x: string, b: string)
    requires Resolve(nodes, root, Follows(path + [Text(x)]), []) == Ok(b)
    ensures StepsTo(nodes, root, Follows(path), x, b)
  {
    var shorter, longer := Follows(path), Follows(path + [Text(x)]);
    ResolveIsExact(nodes, root, longer);
    var fuel: nat :| Eval(nodes, root, longer, fuel) == Done(b);
    EvalWalkSnoc(nodes, root, root, path, Text(x), fuel - 1);
    var a := EvalWalk(nodes, root, root, path, fuel - 1).node;
    assert Eval(nodes, root, shorter, fuel) == Done(a);
    assert Means(nodes, root, shorter, Done(a));
    ResolveIsExact(nodes, root, shorter);
    var link := nodes[a].inputs.value[x];
    assert Eval(nodes, root, link, fuel - 1) == Done(b);
    assert Means(nodes, root, link, Done(b));
    ResolveIsExact(nodes, root, link);
  }

  lemma StepExtends(nodes: Nodes, root: string, path: seq<Part>, x: string, b: string)
    requires StepsTo(nodes, root, Follows(path), x, b)
    ensures Resolve(nodes, root, Follows(path + [Text(x)]), []) == Ok(b)
  {
    var shorter, longer := Follows(path), Follows(path + [Text(x)]);
    var a :| Resolve(nodes, root, shorter, []) == Ok(a)
      && HasInput(nodes, a, x) && Resolve(nodes, root, nodes[a].inputs.value[x], []) == Ok(b);
    var link := nodes[a].inputs.value[x];
    ResolveIsExact(nodes, root, shorter);
    ResolveIsExact(nodes, root, link);
    var f: nat :| Eval(nodes, root, shorter, f) == Done(a);
    var g: nat :| Eval(nodes, root, link, g) == Done(b);
    EvalExtends(nodes, root, path, x, a, b, f, g);
    assert Means(nodes, root, longer, Done(b));
    ResolveIsExact(nodes, root, longer);
  }

  lemma EvalExtends(
    nodes: Nodes, root: string, path: seq<Part>, x: string, a: string, b: string, f: nat, g: nat)
    requires Eval(nodes, root, Follows(path), f) == Done(a)
    requires HasInput(nodes, a, x) && Eval(nodes, root, nodes[a].inputs.value[x], g) == Done(b)
    ensures Eval(nodes, root, Follows(path + [Text(x)]), f + g + 1) == Done(b)
  {
    EvalStable(nodes, root, Follows(path), f, f + g + 1);
    EvalStable(nodes, root, nodes[a].inputs.value[x], g, f + g);
    EvalWalkSnoc(nodes, root, root, path, Text(x), f + g);
  }

  /** The errors: a reference of another kind; a part of another kind, or one that names
      no input, where the path before it ends; and the error of a shorter path stays. */
  lemma FollowsFail(nodes: Nodes, root: string, path: seq<Part>, part: Part, json: string)
    ensures Resolve(nodes, root, Malformed(json), []) == Err(BadReference)
    ensures var before := Resolve(nodes, root, Follows(path), []);
      var after := Resolve(nodes, root, Follows(path + [part]), []);
      && (before.Ok? && part.Other? ==> after == Err(BadPath))
      && (before.Ok? && part.Text? && !HasInput(nodes, before.value, part.name) ==>
            after == Err(MissingEdge(before.value, part.name)))
      && (before.Err? && before.error != Cycle ==> after == before)
  {
    var shorter, longer := Follows(path), Follows(path + [part]);
    var before := Resolve(nodes, root, shorter, []);
    if before != Err(Cycle) {
      var fuel := AnswerIsMeaning(nodes, root, shorter, []);
      EvalWalkSnoc(nodes, root, root, path, part, fuel - 1);
      assert Means(nodes, root, longer, Eval(nodes, root, longer, fuel));
      ResolveIsExact(nodes, root, longer);
    }
  }

  // ----- The code -----

  /** The paths being walked, pushed and popped in place. */
  class Trail {
    var items: seq<Link>

    constructor ()
      ensures items == []
    {
      items := [];
    }
  }

  /** A successful resolution leaves the trail as it found it. */
  method ResolveLink(nodes: Nodes, root: string, link: Link, trail: Trail) returns (r: Result<string, LockError>)
    modifies trail
    ensures r == Resolve(nodes, root, link, old(trail.items))
    ensures r.Ok? ==> trail.items == old(trail.items)
    decreases |(AllLinks(nodes) + {link}) - Members(trail.items)|, 0
  {
    if link.Name? {
      return Ok(link.name);
    }
    if link.Malformed? {
      return Err(BadReference);
    }
    if link in trail.items {
      return Err(Cycle);
    }
    MeasureDrops(nodes, link, trail.items);
    trail.items := trail.items + [link];
    r := WalkPath(nodes, root, link.path, trail);
    if r.Ok? {
      trail.items := trail.items[..|trail.items| - 1];
    }
  }

  /** The loop over the parts of a path that is already on the trail. */
  method WalkPath(nodes: Nodes, root: string, path: seq<Part>, trail: Trail) returns (r: Result<string, LockError>)
    modifies trail
    ensures r == Walk(nodes, root, root, path, old(trail.items))
    ensures r.Ok? ==> trail.items == old(trail.items)
    decreases |AllLinks(nodes) - Members(trail.items)|, 1
  {
    ghost var items := trail.items;
    var current := root;
    for i := 0 to |path|
      invariant trail.items == items
      invariant Walk(nodes, root, root, path, items) == Walk(nodes, root, current, path[i..], items)
    {
      var part := path[i];
      if part.Other? {
        return Err(BadPath);
      }
      var next := Edge(nodes, current, part.name);
      if next.None? {
        return Err(MissingEdge(current, part.name));
      }
      assert path[i..][1..] == path[i + 1..];
      assert (AllLinks(nodes) + {next.value}) - Members(items) == AllLinks(nodes) - Members(items);
      var step := ResolveLink(nodes, root, next.value, trail);
      if step.Err? {
        return step;
      }
      current := step.value;
    }
    return Ok(current);
  }
}
