/** Owned tasks: a registry behind one lock, and the workers it has spawned.  Each
    action below is one region under the lock, or one step of a worker; any order
    of actions is a run. */
module TaskRegistry {
  import opened Common
  import Ops = Operations

  // Generations are compared by pointer, so each spawn has its own.
  type Generation = nat

  datatype Phase = Waiting | Running | Ending | Gone

  datatype Worker = Worker(id: string, owner: Option<string>, phase: Phase, aborted: bool)

  datatype SpawnError = Closed | Full | DuplicateId

  datatype State = State(
    closed: bool,
    tasks: Ops.Table<Generation>,
    workers: map<Generation, Worker>,
    next: Generation,
    claims: multiset<Generation>)

  const INITIAL := State(false, map[], map[], 0, multiset{})

  datatype Action =
    | Spawn(id: string, owner: Option<string>)
    | Start(generation: Generation)
    | Stop(generation: Generation)
    | Cleanup(generation: Generation)
    | Cancel(id: string, owner: Option<string>)
    | Shutdown

  function SpawnResult(s: State, limits: Ops.Limits, id: string, owner: Option<string>)
    : Result<Generation, SpawnError>
  {
    if s.closed then Err(Closed)
    else
      match Ops.Admission(s.tasks, limits, id, owner)
      case Some(error) => Err(if error.Full? then Full else DuplicateId)
      case None => Ok(s.next)
  }

  function Generations(tasks: Ops.Table<Generation>): set<Generation> {
    set id | id in tasks :: tasks[id].value
  }

  function Aborted(workers: map<Generation, Worker>, gone: set<Generation>): map<Generation, Worker> {
    map g | g in workers :: if g in gone then workers[g].(aborted := true) else workers[g]
  }

  function SetPhase(s: State, g: Generation, phase: Phase): State
    requires g in s.workers
  {
    s.(workers := s.workers[g := s.workers[g].(phase := phase)])
  }

  /** Does the registration of this generation still own its id? */
  predicate Registered(s: State, g: Generation)
    requires g in s.workers
  {
    s.workers[g].id in s.tasks && s.tasks[s.workers[g].id].value == g
  }

  function Step(s: State, limits: Ops.Limits, action: Action): State {
    match action
    case Spawn(id, owner) =>
      (match SpawnResult(s, limits, id, owner)
       case Err(_) => s
       case Ok(g) => s.(tasks := s.tasks[id := Ops.Operation(owner, g)],
                        workers := s.workers[g := Worker(id, owner, Waiting, false)],
                        next := g + 1))
    case Start(g) => if g in s.workers && s.workers[g].phase == Waiting then SetPhase(s, g, Running) else s
    // Completion, panic, the stop signal, or an abort taking effect.
    case Stop(g) =>
      if g in s.workers && (s.workers[g].phase == Waiting || s.workers[g].phase == Running)
      then SetPhase(s, g, Ending) else s
    case Cleanup(g) =>
      if g in s.workers && s.workers[g].phase == Ending then
        var s' := SetPhase(s, g, Gone);
        if Registered(s, g)
        then s'.(tasks := s.tasks - {s.workers[g].id}, claims := s.claims + multiset{g})
        else s'
      else s
    case Cancel(id, owner) =>
      if id in s.tasks && s.tasks[id].owner == owner then
        var g := s.tasks[id].value;
        s.(tasks := s.tasks - {id}, workers := Aborted(s.workers, {g}), claims := s.claims + multiset{g})
      else s
    case Shutdown =>
      var all := Generations(s.tasks);
      s.(closed := true, tasks := map[], workers := Aborted(s.workers, all), claims := s.claims + multiset(all))
  }

  function Run(s: State, limits: Ops.Limits, actions: seq<Action>): State {
    if actions == [] then s
    else Step(Run(s, limits, actions[..|actions| - 1]), limits, actions[|actions| - 1])
  }

  // ----- The invariant -----

  /** Every entry has one worker, not gone, that carries its registration. */
  ghost predicate Linked(s: State) {
    forall id :: id in s.tasks ==> Carries(s, id, s.tasks[id].value, s.tasks[id].owner)
  }

  predicate Carries(s: State, id: string, g: Generation, owner: Option<string>) {
    g in s.workers && s.workers[g].id == id && s.workers[g].owner == owner && s.workers[g].phase != Gone
  }

  /** Each generation is claimed once when it is no longer registered, and never before. */
  ghost predicate ClaimedOnce(s: State) {
    forall g: Generation :: s.claims[g] == if g in s.workers && !Registered(s, g) then 1 else 0
  }

  ghost predicate Numbered(s: State) {
    forall g: Generation :: g in s.workers <==> g < s.next
  }

  ghost predicate Core(s: State, limits: Ops.Limits) {
    && Ops.Within(s.tasks, limits)
    && Numbered(s) && Linked(s) && ClaimedOnce(s)
    && (s.closed ==> s.tasks == map[])
  }

  lemma SpawnKeeps(s: State, limits: Ops.Limits, id: string, owner: Option<string>)
    requires Core(s, limits) && SpawnResult(s, limits, id, owner).Ok?
    ensures Core(Step(s, limits, Spawn(id, owner)), limits)
  {
    var s' := Step(s, limits, Spawn(id, owner));
    Ops.InsertKeepsWithin(s.tasks, limits, id, Ops.Operation(owner, s.next));
    assert s.next !in s.workers && id !in s.tasks;
    SpawnLinks(s, limits, id, owner);
    SpawnClaims(s, limits, id, owner);
  }

  lemma SpawnLinks(s: State, limits: Ops.Limits, id: string, owner: Option<string>)
    requires Numbered(s) && Linked(s) && SpawnResult(s, limits, id, owner).Ok?
    ensures Linked(Step(s, limits, Spawn(id, owner)))
  {
    var s' := Step(s, limits, Spawn(id, owner));
    forall x | x in s'.tasks ensures Carries(s', x, s'.tasks[x].value, s'.tasks[x].owner) {
      if x != id {
        assert Carries(s, x, s.tasks[x].value, s.tasks[x].owner);
      }
    }
  }

  lemma SpawnClaims(s: State, limits: Ops.Limits, id: string, owner: Option<string>)
    requires Numbered(s) && ClaimedOnce(s) && SpawnResult(s, limits, id, owner).Ok? && id !in s.tasks
    ensures ClaimedOnce(Step(s, limits, Spawn(id, owner)))
  {
    var s' := Step(s, limits, Spawn(id, owner));
    forall g: Generation ensures s'.claims[g] == if g in s'.workers && !Registered(s', g) then 1 else 0 {
      if g in s.workers {
        assert s'.workers[g] == s.workers[g];
      }
    }
  }

  /** Removing entries and claiming their generations. */
  lemma ClaimKeeps(s: State, s': State, limits: Ops.Limits, ids: set<string>)
    requires Core(s, limits)
    requires s'.tasks == s.tasks - ids && s'.next == s.next && (s'.closed ==> s'.tasks == map[])
    requires forall g :: g in s'.workers <==> g in s.workers
    requires forall g :: g in s.workers ==>
      s'.workers[g].id == s.workers[g].id && s'.workers[g].owner == s.workers[g].owner
    requires forall g :: g in s.workers && s.workers[g].id !in ids && Registered(s, g) ==> s'.workers[g].phase != Gone
    requires forall g: Generation ::
      s'.claims[g] == s.claims[g] + if g in s.workers && Registered(s, g) && s.workers[g].id in ids then 1 else 0
    ensures Core(s', limits)
  {
    Ops.RemoveKeepsWithin(s.tasks, limits, ids);
    forall x | x in s'.tasks ensures Carries(s', x, s'.tasks[x].value, s'.tasks[x].owner) {
      assert Carries(s, x, s.tasks[x].value, s.tasks[x].owner);
      assert Registered(s, s.tasks[x].value);
    }
    forall g: Generation ensures s'.claims[g] == if g in s'.workers && !Registered(s', g) then 1 else 0 {
    }
  }

  lemma PhaseKeeps(s: State, limits: Ops.Limits, g: Generation, phase: Phase)
    requires Core(s, limits) && g in s.workers && (phase == Gone ==> !Registered(s, g))
    ensures Core(SetPhase(s, g, phase), limits)
  {
    var s' := SetPhase(s, g, phase);
    forall x | x in s'.tasks ensures Carries(s', x, s'.tasks[x].value, s'.tasks[x].owner) {
      assert Carries(s, x, s.tasks[x].value, s.tasks[x].owner);
    }
    assert forall h: Generation :: h in s.workers ==> Registered(s', h) == Registered(s, h);
  }

  lemma CleanupKeeps(s: State, limits: Ops.Limits, g: Generation)
    requires Core(s, limits) && g in s.workers && s.workers[g].phase == Ending
    ensures Core(Step(s, limits, Cleanup(g)), limits)
  {
    if Registered(s, g) {
      ClaimKeeps(s, Step(s, limits, Cleanup(g)), limits, {s.workers[g].id});
    } else {
      PhaseKeeps(s, limits, g, Gone);
    }
  }

  lemma CancelKeeps(s: State, limits: Ops.Limits, id: string, owner: Option<string>)
    requires Core(s, limits) && id in s.tasks && s.tasks[id].owner == owner
    ensures Core(Step(s, limits, Cancel(id, owner)), limits)
  {
    var g := s.tasks[id].value;
    assert Carries(s, id, g, owner);
    ClaimKeeps(s, Step(s, limits, Cancel(id, owner)), limits, {id});
  }

  lemma RegisteredGenerations(s: State, g: Generation)
    requires Linked(s)
    ensures g in Generations(s.tasks) <==> g in s.workers && Registered(s, g)
    ensures g in s.workers && Registered(s, g) ==> s.workers[g].id in s.tasks.Keys
  {
    if g in Generations(s.tasks) {
      var id :| id in s.tasks && s.tasks[id].value == g;
      assert Carries(s, id, g, s.tasks[id].owner);
    }
  }

  lemma ShutdownKeeps(s: State, limits: Ops.Limits)
    requires Core(s, limits)
    ensures Core(Step(s, limits, Shutdown), limits)
  {
    var s' := Step(s, limits, Shutdown);
    assert s.tasks - s.tasks.Keys == map[];
    ShutdownClaims(s, limits);
    forall g: Generation
      ensures s'.claims[g]
           == s.claims[g] + if g in s.workers && Registered(s, g) && s.workers[g].id in s.tasks.Keys then 1 else 0
    {
      assert s'.claims[g] == s.claims[g] + Drained(s, g);
    }
    ClaimKeeps(s, s', limits, s.tasks.Keys);
  }

  function Drained(s: State, g: Generation): nat {
    if g in s.workers && Registered(s, g) && s.workers[g].id in s.tasks.Keys then 1 else 0
  }

  lemma ShutdownClaims(s: State, limits: Ops.Limits)
    requires Linked(s)
    ensures forall g: Generation :: Step(s, limits, Shutdown).claims[g] == s.claims[g] + Drained(s, g)
  {
    var s' := Step(s, limits, Shutdown);
    forall g: Generation ensures s'.claims[g] == s.claims[g] + Drained(s, g) {
      RegisteredGenerations(s, g);
      assert s'.claims[g] == s.claims[g] + if g in Generations(s.tasks) then 1 else 0;
    }
  }

  lemma StepKeepsCore(s: State, limits: Ops.Limits, action: Action)
    requires Core(s, limits)
    ensures Core(Step(s, limits, action), limits)
  {
    match action
    case Spawn(id, owner) =>
      if SpawnResult(s, limits, id, owner).Ok? {
        SpawnKeeps(s, limits, id, owner);
      }
    case Start(g) =>
      if g in s.workers && s.workers[g].phase == Waiting {
        PhaseKeeps(s, limits, g, Running);
      }
    case Stop(g) =>
      if g in s.workers && (s.workers[g].phase == Waiting || s.workers[g].phase == Running) {
        PhaseKeeps(s, limits, g, Ending);
      }
    case Cleanup(g) =>
      if g in s.workers && s.workers[g].phase == Ending {
        CleanupKeeps(s, limits, g);
      }
    case Cancel(id, owner) =>
      if id in s.tasks && s.tasks[id].owner == owner {
        CancelKeeps(s, limits, id, owner);
      }
    case Shutdown => ShutdownKeeps(s, limits);
  }

  /** A worker that is not gone has been aborted exactly when it is no longer registered. */
  ghost predicate AbortedExactly(s: State) {
    forall g :: g in s.workers && s.workers[g].phase != Gone ==> (s.workers[g].aborted <==> !Registered(s, g))
  }

  ghost predicate Inv(s: State, limits: Ops.Limits) {
    Core(s, limits) && AbortedExactly(s)
  }

  lemma StepKeepsAborted(s: State, limits: Ops.Limits, action: Action)
    requires Core(s, limits) && AbortedExactly(s)
    ensures AbortedExactly(Step(s, limits, action))
  {
    var s' := Step(s, limits, action);
    match action
    case Spawn(id, owner) =>
      SpawnAborts(s, limits, id, owner);
    case Shutdown =>
      forall g | g in s'.workers && s'.workers[g].phase != Gone ensures s'.workers[g].aborted {
        RegisteredGenerations(s, g);
      }
    case _ =>
  }

  lemma SpawnAborts(s: State, limits: Ops.Limits, id: string, owner: Option<string>)
    requires Numbered(s) && AbortedExactly(s)
    ensures AbortedExactly(Step(s, limits, Spawn(id, owner)))
  {
    var s' := Step(s, limits, Spawn(id, owner));
    if SpawnResult(s, limits, id, owner).Ok? {
      assert s.next !in s.workers;
      forall g | g in s.workers ensures s'.workers[g] == s.workers[g] && Registered(s', g) == Registered(s, g) {
        assert g != s.next;
      }
    }
  }

  lemma StepKeeps(s: State, limits: Ops.Limits, action: Action)
    requires Inv(s, limits)
    ensures Inv(Step(s, limits, action), limits)
  {
    StepKeepsCore(s, limits, action);
    StepKeepsAborted(s, limits, action);
  }

  /** Whatever the interleaving of spawns, completions, panics, cancellations and
      shutdown: limits hold, every entry has its one worker, each generation has been
      claimed exactly once or is still registered, and a worker that is not gone has
      been aborted exactly when it is no longer registered. */
  lemma {:induction false} EveryRunKeepsInv(limits: Ops.Limits, actions: seq<Action>)
    ensures Inv(Run(INITIAL, limits, actions), limits)
  {
    if actions != [] {
      EveryRunKeepsInv(limits, actions[..|actions| - 1]);
      StepKeeps(Run(INITIAL, limits, actions[..|actions| - 1]), limits, actions[|actions| - 1]);
    } else {
      assert forall owner :: Ops.OwnedBy(INITIAL.tasks, owner) == {};
    }
  }

  // ----- What the operations do -----

  /** A spawn is refused when the registry is closed, when the id is taken, or when either
      limit is reached, in this order; otherwise there is a new entry, with a new worker
      that waits, and nothing else changes. */
  lemma SpawnsExactly(limits: Ops.Limits, actions: seq<Action>, id: string, owner: Option<string>)
    ensures var s := Run(INITIAL, limits, actions);
      var s', r := Run(INITIAL, limits, actions + [Spawn(id, owner)]), SpawnResult(s, limits, id, owner);
      var mine := set x | x in s.tasks && s.tasks[x].owner == owner;
      && (r == Err(Closed) <==> s.closed)
      && (r == Err(DuplicateId) <==> !s.closed && id in s.tasks)
      && (r == Err(Full) <==> !s.closed && id !in s.tasks && (|s.tasks| >= limits.total || |mine| >= limits.perOwner))
      && (r.Err? ==> s' == s)
      && (r.Ok? ==>
            && r.value !in s.workers && s'.closed == s.closed
            && s'.tasks == s.tasks[id := Ops.Operation(owner, r.value)]
            && s'.workers == s.workers[r.value := Worker(id, owner, Waiting, false)])
  {
    RunSnoc(limits, actions, Spawn(id, owner));
    EveryRunKeepsInv(limits, actions);
    assert (set x | x in Run(INITIAL, limits, actions).tasks && Run(INITIAL, limits, actions).tasks[x].owner == owner)
        == Ops.OwnedBy(Run(INITIAL, limits, actions).tasks, owner);
  }

  /** A cancellation by the owner removes the entry and aborts its worker; any other
      changes nothing.  No other entry and no other worker is touched. */
  lemma CancelsExactly(limits: Ops.Limits, actions: seq<Action>, id: string, owner: Option<string>)
    ensures var s, s' := Run(INITIAL, limits, actions), Run(INITIAL, limits, actions + [Cancel(id, owner)]);
      if id in s.tasks && s.tasks[id].owner == owner then
        var g := s.tasks[id].value;
        && g in s.workers && s.workers[g].id == id && s'.closed == s.closed
        && s'.tasks == s.tasks - {id} && s'.workers == s.workers[g := s.workers[g].(aborted := true)]
      else s' == s
  {
    var s := Run(INITIAL, limits, actions);
    RunSnoc(limits, actions, Cancel(id, owner));
    EveryRunKeepsInv(limits, actions);
    if id in s.tasks && s.tasks[id].owner == owner {
      assert Carries(s, id, s.tasks[id].value, owner);
    }
  }

  /** A worker that waits can come to run. */
  lemma WaitingWorkersCanRun(limits: Ops.Limits, actions: seq<Action>, g: Generation)
    requires var s := Run(INITIAL, limits, actions); g in s.workers && s.workers[g].phase == Waiting
    ensures var s := Run(INITIAL, limits, actions + [Start(g)]); g in s.workers && s.workers[g].phase == Running
  {
    RunSnoc(limits, actions, Start(g));
  }

  /** A worker that is gone has no entry, and has been claimed exactly once. */
  lemma EndedWorkersLeaveNoEntry(limits: Ops.Limits, actions: seq<Action>, g: Generation)
    requires var s := Run(INITIAL, limits, actions); g in s.workers && s.workers[g].phase == Gone
    ensures var s := Run(INITIAL, limits, actions);
      g !in Generations(s.tasks) && s.claims[g] == 1
  {
    EveryRunKeepsInv(limits, actions);
  }

  /** When the registration of an old generation is dropped, an id reused since
      keeps its entry and its worker. */
  lemma OldCleanupSparesReusedId(limits: Ops.Limits, actions: seq<Action>, old_: Generation, id: string)
    requires var s := Run(INITIAL, limits, actions); id in s.tasks && s.tasks[id].value != old_
    ensures var s := Run(INITIAL, limits, actions);
      var s' := Step(s, limits, Cleanup(old_));
      && id in s'.tasks && s'.tasks[id] == s.tasks[id]
      && var g := s.tasks[id].value; g in s.workers && g in s'.workers && s'.workers[g] == s.workers[g]
  {
    EveryRunKeepsInv(limits, actions);
    var s := Run(INITIAL, limits, actions);
    assert Carries(s, id, s.tasks[id].value, s.tasks[id].owner);
    CleanupSpares(s, limits, old_, id);
  }

  lemma CleanupSpares(s: State, limits: Ops.Limits, old_: Generation, id: string)
    requires id in s.tasks && s.tasks[id].value != old_ && s.tasks[id].value in s.workers
    ensures var s' := Step(s, limits, Cleanup(old_));
      && id in s'.tasks && s'.tasks[id] == s.tasks[id]
      && var g := s.tasks[id].value; g in s'.workers && s'.workers[g] == s.workers[g]
  {
  }

  /** Only the owner's cancellation, the worker's own cleanup or shutdown removes
      an entry. */
  lemma OnlyTheOwnerCancels(s: State, limits: Ops.Limits, action: Action, id: string)
    requires Core(s, limits) && id in s.tasks && id !in Step(s, limits, action).tasks
    ensures || action == Cancel(id, s.tasks[id].owner)
            || action == Cleanup(s.tasks[id].value)
            || action == Shutdown
  {
  }

  lemma StaysClosed(s: State, limits: Ops.Limits, action: Action)
    requires Core(s, limits) && s.closed
    ensures Step(s, limits, action).closed
  {
  }

  /** After shutdown the registry is empty for ever. */
  lemma {:induction false} ShutdownIsFinal(limits: Ops.Limits, before: seq<Action>, after: seq<Action>)
    ensures var s := Run(INITIAL, limits, before + [Shutdown] + after); s.closed && s.tasks == map[]
    decreases |after|
  {
    if after == [] {
      assert before + [Shutdown] + after == before + [Shutdown];
      RunSnoc(limits, before, Shutdown);
      ShutdownEmpties(Run(INITIAL, limits, before), limits);
    } else {
      var front, last := after[..|after| - 1], after[|after| - 1];
      assert before + [Shutdown] + after == (before + [Shutdown] + front) + [last];
      ShutdownIsFinal(limits, before, front);
      RunSnoc(limits, before + [Shutdown] + front, last);
      EveryRunKeepsInv(limits, before + [Shutdown] + front);
      StaysClosed(Run(INITIAL, limits, before + [Shutdown] + front), limits, last);
    }
  }

  /** Every worker that shutdown drained, and then joins, is gone. */
  ghost predicate Joined(s: State, drained: set<Generation>) {
    forall g :: g in drained ==> g in s.workers && s.workers[g].phase == Gone
  }

  lemma ClosedStep(s: State, limits: Ops.Limits, action: Action)
    requires Core(s, limits) && s.closed
    ensures Step(s, limits, action).workers.Keys == s.workers.Keys
    ensures forall g :: g in s.workers && s.workers[g].phase == Gone ==>
      Step(s, limits, action).workers[g].phase == Gone
  {
  }

  lemma {:induction false} ClosedRun(limits: Ops.Limits, before: seq<Action>, after: seq<Action>)
    requires Run(INITIAL, limits, before).closed
    ensures var s, s' := Run(INITIAL, limits, before), Run(INITIAL, limits, before + after);
      && s'.closed && s'.workers.Keys == s.workers.Keys
      && forall g :: g in s.workers && s.workers[g].phase == Gone ==> s'.workers[g].phase == Gone
    decreases |after|
  {
    if after == [] {
      assert before + after == before;
    } else {
      var front, last := after[..|after| - 1], after[|after| - 1];
      ClosedRun(limits, before, front);
      assert before + after == (before + front) + [last];
      RunSnoc(limits, before + front, last);
      EveryRunKeepsInv(limits, before + front);
      ClosedStep(Run(INITIAL, limits, before + front), limits, last);
      StaysClosed(Run(INITIAL, limits, before + front), limits, last);
    }
  }

  /** Once shutdown has joined what it drained, the only workers left are those that
      were there before it, no longer registered, and that had been aborted. */
  lemma OnlyUnregisteredWorkersOutlive(limits: Ops.Limits, before: seq<Action>, after: seq<Action>, g: Generation)
    requires var s, s' := Run(INITIAL, limits, before), Run(INITIAL, limits, before + [Shutdown] + after);
      Joined(s', Generations(s.tasks)) && g in s'.workers && s'.workers[g].phase != Gone
    ensures var s := Run(INITIAL, limits, before);
      g in s.workers && s.workers[g].phase != Gone && !Registered(s, g) && s.workers[g].aborted
  {
    var s := Run(INITIAL, limits, before);
    RunSnoc(limits, before, Shutdown);
    EveryRunKeepsInv(limits, before);
    ClosedRun(limits, before + [Shutdown], after);
    RegisteredGenerations(s, g);
  }

  /** Joining can always finish: a drained worker is gone after two steps of its own. */
  lemma DrainedWorkersCanEnd(limits: Ops.Limits, actions: seq<Action>, g: Generation)
    requires var s := Run(INITIAL, limits, actions); g in s.workers
    ensures var s := Run(INITIAL, limits, actions + [Stop(g), Cleanup(g)]); g in s.workers && s.workers[g].phase == Gone
  {
    assert actions + [Stop(g), Cleanup(g)] == (actions + [Stop(g)]) + [Cleanup(g)];
    RunSnoc(limits, actions, Stop(g));
    RunSnoc(limits, actions + [Stop(g)], Cleanup(g));
  }

  lemma ShutdownEmpties(s: State, limits: Ops.Limits)
    ensures var s' := Step(s, limits, Shutdown); s'.closed && s'.tasks == map[]
  {
  }

  lemma RunSnoc(limits: Ops.Limits, actions: seq<Action>, action: Action)
    ensures Run(INITIAL, limits, actions + [action]) == Step(Run(INITIAL, limits, actions), limits, action)
  {
    assert (actions + [action])[..|actions|] == actions;
  }

  lemma RunWithin(limits: Ops.Limits, actions: seq<Action>)
    ensures Ops.Within(Run(INITIAL, limits, actions).tasks, limits)
  {
    EveryRunKeepsInv(limits, actions);
  }

  // ----- The code under the lock -----

  class OwnedTaskRegistry {
    var closed: bool
    const tasks: Ops.OwnedOperations<Generation>
    // The runtime's view of the spawned workers.
    var workers: map<Generation, Worker>
    var next: Generation
    ghost var claims: multiset<Generation>
    ghost var actions: seq<Action>

    ghost function View(): State reads this, tasks {
      State(closed, tasks.active, workers, next, claims)
    }

    /** The state is the one the actions so far lead to. */
    ghost predicate Valid() reads this, tasks {
      View() == Run(INITIAL, tasks.limits, actions)
    }

    constructor (limits: Ops.Limits)
      ensures Valid() && actions == [] && tasks.limits == limits && fresh(tasks)
    {
      closed, workers, next, claims, actions := false, map[], 0, multiset{}, [];
      tasks := new Ops.OwnedOperations(limits);
    }

    method SpawnUntil(id: string, owner: Option<string>) returns (r: Result<Generation, SpawnError>)
      requires Valid()
      modifies this, tasks
      ensures Valid() && actions == old(actions) + [Spawn(id, owner)]
      ensures r == SpawnResult(old(View()), tasks.limits, id, owner)
    {
      RunWithin(tasks.limits, actions);
      RunSnoc(tasks.limits, actions, Spawn(id, owner));
      actions := actions + [Spawn(id, owner)];
      if closed {
        return Err(Closed);
      }
      var g := next;
      var refused := tasks.InsertWith(id, owner, _ => g);
      if refused.Some? {
        return Err(if refused.value.Full? then Full else DuplicateId);
      }
      workers := workers[g := Worker(id, owner, Waiting, false)];
      next := next + 1;
      return Ok(g);
    }

    method CancelOwned(id: string, owner: Option<string>) returns (found: bool)
      requires Valid()
      modifies this, tasks
      ensures Valid() && actions == old(actions) + [Cancel(id, owner)]
      ensures found == (id in old(tasks.active) && old(tasks.active)[id].owner == owner)
    {
      RunWithin(tasks.limits, actions);
      RunSnoc(tasks.limits, actions, Cancel(id, owner));
      actions := actions + [Cancel(id, owner)];
      var entry := tasks.ClaimOwned(id, owner);
      found := entry.Some?;
      if found {
        workers := Aborted(workers, {entry.value.value});
        claims := claims + multiset{entry.value.value};
      }
    }

    /** The part of shutdown under the lock: close, claim everything, abort it. */
    method Shutdown() returns (joining: set<Generation>)
      requires Valid()
      modifies this, tasks
      ensures Valid() && actions == old(actions) + [Action.Shutdown]
      ensures joining == Generations(old(tasks.active))
    {
      RunSnoc(tasks.limits, actions, Action.Shutdown);
      actions := actions + [Action.Shutdown];
      closed := true;
      var drained := tasks.Drain();
      var generations := Generations(drained);
      joining := generations;
      workers := Aborted(workers, generations);
      claims := claims + multiset(generations);
    }

    /** Dropping the registration a worker carries. */
    method DropRegistration(g: Generation)
      requires Valid() && g in workers && workers[g].phase == Ending
      modifies this, tasks
      ensures Valid() && actions == old(actions) + [Cleanup(g)]
    {
      RunWithin(tasks.limits, actions);
      RunSnoc(tasks.limits, actions, Cleanup(g));
      actions := actions + [Cleanup(g)];
      var id := workers[g].id;
      if id in tasks.active && tasks.active[id].value == g {
        var entry := tasks.Claim(id);
        claims := claims + multiset{g};
      }
      workers := workers[g := workers[g].(phase := Gone)];
    }
  }
}
