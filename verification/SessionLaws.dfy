/** What each step of a socket session does, over every run: what closes a session, how
    waiters end, what starts, and that everything can end. */
module SessionLaws {
  import opened Common
  import opened SocketSession
  import opened Reach

  lemma RunThen(maximum: nat, actions: seq<Action>, a: Action)
    ensures Run(maximum, actions + [a]) == Step(Run(maximum, actions), maximum, a)
  {
    assert (actions + [a])[..|actions|] == actions;
  }

  // ----- What closes a session -----

  /** The reply of work w is lost: its deadline has passed after it was spawned, or it
      is done and has failed. */
  predicate LosesReply(s: State, a: Action, w: nat) {
    && w in s.works && s.works[w].waiter == Waiting
    && ((a == OfWork(w, Timeout) && s.works[w].phase != Admitted)
        || (a == OfWork(w, Reply) && s.works[w].phase == Done(false)))
  }

  predicate LosesControlOf(s: State, a: Action, o: nat) {
    && a.OfWork? && LosesReply(s, a, a.w)
    && s.works[a.w].owner == o && s.works[a.w].kind != Call
  }

  /** An open session is closed by an action exactly when the action ends its connection,
      or loses the reply of control work of its own; and it stays closed. */
  lemma ClosedExactlyBy(maximum: nat, actions: seq<Action>, a: Action, o: nat)
    requires o in Run(maximum, actions).sessions
    ensures var s, s' := Run(maximum, actions), Run(maximum, actions + [a]);
      && o in s'.sessions
      && (s'.sessions[o].closed <==>
            || s.sessions[o].closed
            || a in {OfSession(o, Close), OfSession(o, EndReading), OfSession(o, DropConnection)}
            || LosesControlOf(s, a, o))
  {
    var s := Run(maximum, actions);
    RunThen(maximum, actions, a);
    EveryRunKeepsInv(maximum, actions);
    match a
    case OfSession(p, b) => if p in s.sessions { SessionStepFrame(s, p, b); ClosedByOwn(s, p, b); }
    case OfWork(w, b) => if w in s.works { WorkStepFrame(s, w, b); ClosedByWork(s, w, b); }
    case _ =>
  }

  lemma ClosedByOwn(s: State, o: nat, b: SessionAction)
    requires o in s.sessions && (s.sessions[o].phase != Reading ==> s.sessions[o].closed)
    ensures o in SessionStep(s, o, b).sessions
    ensures SessionStep(s, o, b).sessions[o].closed <==>
      s.sessions[o].closed || b == Close || b == EndReading || b == DropConnection
  {
  }

  lemma ClosedByWork(s: State, w: nat, b: WorkAction)
    requires w in s.works && s.works[w].owner in s.sessions
    ensures var o := s.works[w].owner;
      && o in WorkStep(s, w, b).sessions
      && (WorkStep(s, w, b).sessions[o].closed <==> s.sessions[o].closed || LosesControlOf(s, OfWork(w, b), o))
  {
  }

  /** A lost reply tells its waiter so and touches nothing else, but for closing the
      session of a control request: the work, its slot and what it made go on. */
  lemma LostReplyLeavesWork(maximum: nat, actions: seq<Action>, a: Action, w: nat)
    requires LosesReply(Run(maximum, actions), a, w)
    ensures var s, s' := Run(maximum, actions), Run(maximum, actions + [a]);
      && w in s'.works && s'.works == s.works[w := s.works[w].(waiter := Unknown)]
      && s'.resources == s.resources && s'.sessions.Keys == s.sessions.Keys
      && forall o :: o in s.sessions ==>
           s'.sessions[o] == s.sessions[o].(closed := s.sessions[o].closed || LosesControlOf(s, a, o))
  {
    RunThen(maximum, actions, a);
    EveryRunKeepsInv(maximum, actions);
    LostReplyStep(Run(maximum, actions), w, a.work);
  }

  lemma LostReplyStep(s: State, w: nat, b: WorkAction)
    requires LosesReply(s, OfWork(w, b), w) && s.works[w].owner in s.sessions
    ensures var s' := WorkStep(s, w, b);
      && w in s'.works && s'.works == s.works[w := s.works[w].(waiter := Unknown)]
      && s'.resources == s.resources && s'.sessions.Keys == s.sessions.Keys
      && forall o :: o in s.sessions ==>
           s'.sessions[o] == s.sessions[o].(closed := s.sessions[o].closed || LosesControlOf(s, OfWork(w, b), o))
  {
  }

  // ----- How waiters end -----

  /** How an action leaves the waiter of w. */
  function WaiterAfter(s: State, a: Action, w: nat): Waiter
    requires w in s.works && s.works[w].owner in s.sessions
  {
    var work := s.works[w];
    if work.waiter != Waiting then work.waiter
    else if LosesReply(s, a, w) then Unknown
    else if a == OfWork(w, Reply) && work.phase == Done(true) then Answered
    else if a == OfWork(w, AbortWaiter) && s.sessions[work.owner].phase in {Closing, Orphaned} then Aborted
    else Waiting
  }

  lemma WaitersEndExactly(maximum: nat, actions: seq<Action>, a: Action, w: nat)
    requires w in Run(maximum, actions).works
    ensures Run(maximum, actions).works[w].owner in Run(maximum, actions).sessions
    ensures w in Run(maximum, actions + [a]).works
    ensures Run(maximum, actions + [a]).works[w].waiter == WaiterAfter(Run(maximum, actions), a, w)
  {
    RunThen(maximum, actions, a);
    EveryRunKeepsInv(maximum, actions);
    StepOnWaiter(Run(maximum, actions), maximum, a, w);
  }

  lemma StepOnWaiter(s: State, maximum: nat, a: Action, w: nat)
    requires Named(s) && w in s.works
    ensures w in Step(s, maximum, a).works
    ensures Step(s, maximum, a).works[w].waiter == WaiterAfter(s, a, w)
  {
    match a
    case OfSession(p, b) => if p in s.sessions { SessionStepFrame(s, p, b); }
    case OfWork(v, b) => if v in s.works { WorkStepFrame(s, v, b); WaiterStep(s, v, b); }
    case _ =>
  }

  lemma WaiterStep(s: State, w: nat, b: WorkAction)
    requires w in s.works && s.works[w].owner in s.sessions
    ensures w in WorkStep(s, w, b).works
    ensures WorkStep(s, w, b).works[w].waiter == WaiterAfter(s, OfWork(w, b), w)
  {
  }

  /** The waiters of an ended connection are aborted.  That ends work not yet spawned, and
      gives its slot back; spawned work and what it made go on. */
  lemma AbortLeavesSpawnedWork(maximum: nat, actions: seq<Action>, w: nat)
    requires w in Run(maximum, actions).works && Run(maximum, actions).works[w].waiter == Waiting
    ensures Run(maximum, actions).works[w].owner in Run(maximum, actions).sessions
    ensures var s, s' := Run(maximum, actions), Run(maximum, actions + [OfWork(w, AbortWaiter)]);
      var work := s.works[w];
      if s.sessions[work.owner].phase !in {Closing, Orphaned} then s' == s
      else if work.phase == Admitted then
        s'.works == s.works[w := work.(phase := Discarded, waiter := Aborted)] && s'.resources == s.resources
      else s' == s.(works := s.works[w := work.(waiter := Aborted)])
  {
    RunThen(maximum, actions, OfWork(w, AbortWaiter));
    EveryRunKeepsInv(maximum, actions);
    AbortStep(Run(maximum, actions), w);
  }

  lemma AbortStep(s: State, w: nat)
    requires w in s.works && s.works[w].waiter == Waiting && s.works[w].owner in s.sessions
    ensures var s', work := WorkStep(s, w, AbortWaiter), s.works[w];
      if s.sessions[work.owner].phase !in {Closing, Orphaned} then s' == s
      else if work.phase == Admitted then
        s'.works == s.works[w := work.(phase := Discarded, waiter := Aborted)] && s'.resources == s.resources
      else s' == s.(works := s.works[w := work.(waiter := Aborted)])
  {
  }

  // ----- What starts -----

  predicate IsRunning(s: State, w: nat) {
    w in s.works && s.works[w].phase == Running
  }

  /** Work enters the service exactly by its own dispatch, and only while its session is
      open: what was not running when the session closed never runs. */
  lemma StartsExactlyWhileOpen(maximum: nat, actions: seq<Action>, a: Action, w: nat)
    requires !IsRunning(Run(maximum, actions), w)
    ensures IsRunning(Run(maximum, actions + [a]), w) <==> MayStart(Run(maximum, actions), a, w)
  {
    RunThen(maximum, actions, a);
    EveryRunKeepsInv(maximum, actions);
    StepStarts(Run(maximum, actions), maximum, a, w);
  }

  predicate MayStart(s: State, a: Action, w: nat) {
    && a == OfWork(w, Dispatch) && w in s.works && s.works[w].phase == Spawned
    && s.works[w].owner in s.sessions && !s.sessions[s.works[w].owner].closed
  }

  lemma StepStarts(s: State, maximum: nat, a: Action, w: nat)
    requires Named(s) && !IsRunning(s, w)
    ensures IsRunning(Step(s, maximum, a), w) <==> MayStart(s, a, w)
  {
    match a
    case OfSession(o, b) => if o in s.sessions { SessionStepAdmits(s, o, b); }
    case OfWork(v, b) =>
      if v in s.works {
        WorkStepFrame(s, v, b);
        if v == w {
          WorkStepStarts(s, v, b);
        }
      }
    case _ =>
  }

  /** A session's own steps only add work that is still to be spawned. */
  lemma SessionStepAdmits(s: State, o: nat, b: SessionAction)
    requires o in s.sessions
    ensures forall w :: w in SessionStep(s, o, b).works ==>
      || (w in s.works && SessionStep(s, o, b).works[w] == s.works[w])
      || (b.Accept? && w == s.nextWork && SessionStep(s, o, b).works[w] == Work(o, b.kind, Admitted, Waiting))
  {
  }

  lemma WorkStepStarts(s: State, w: nat, b: WorkAction)
    requires w in s.works && s.works[w].owner in s.sessions && !IsRunning(s, w)
    ensures IsRunning(WorkStep(s, w, b), w) <==> MayStart(s, OfWork(w, b), w)
  {
  }

  /** A request is accepted exactly while its session is reading and fewer of its kind
      than allowed are in progress; refusing one changes nothing. */
  lemma AcceptedExactly(maximum: nat, actions: seq<Action>, o: nat, kind: Kind)
    requires o in Run(maximum, actions).sessions
    ensures var s, s' := Run(maximum, actions), Run(maximum, actions + [OfSession(o, Accept(kind))]);
      var limit := if kind == Call || kind == Subscribe then maximum else 16;
      if s.sessions[o].phase == Reading && |SlotHolders(s.works, o, kind == Call || kind == Subscribe)| < limit
      then s.nextWork !in s.works && s'.works == s.works[s.nextWork := Work(o, kind, Admitted, Waiting)]
      else s' == s
  {
    RunThen(maximum, actions, OfSession(o, Accept(kind)));
    EveryRunKeepsInv(maximum, actions);
  }

  /** Resources come exactly from work inside the service, for that work's owner. */
  lemma ResourcesComeExactly(maximum: nat, actions: seq<Action>, a: Action, r: nat)
    requires r !in Run(maximum, actions).resources
    ensures var s, s' := Run(maximum, actions), Run(maximum, actions + [a]);
      && (r in s'.resources <==> a.OfWork? && a.work == Create && IsRunning(s, a.w) && r == s.nextResource)
      && (r in s'.resources ==> s'.resources[r] == Resource(s.works[a.w].owner, a.w))
  {
    RunThen(maximum, actions, a);
    EveryRunKeepsInv(maximum, actions);
    StepMakes(Run(maximum, actions), maximum, a, r);
  }

  lemma StepMakes(s: State, maximum: nat, a: Action, r: nat)
    requires Named(s) && r !in s.resources
    ensures var s' := Step(s, maximum, a);
      && (r in s'.resources <==> a.OfWork? && a.work == Create && IsRunning(s, a.w) && r == s.nextResource)
      && (r in s'.resources ==> s'.resources[r] == Resource(s.works[a.w].owner, a.w))
  {
    match a
    case OfSession(o, b) => if o in s.sessions { SessionStepFrame(s, o, b); }
    case OfWork(w, b) => if w in s.works { WorkStepMakes(s, w, b, r); }
    case _ =>
  }

  lemma WorkStepMakes(s: State, w: nat, b: WorkAction, r: nat)
    requires r !in s.resources && w in s.works && s.works[w].owner in s.sessions
    ensures r in WorkStep(s, w, b).resources <==> b == Create && IsRunning(s, w) && r == s.nextResource
    ensures r in WorkStep(s, w, b).resources ==> WorkStep(s, w, b).resources[r] == Resource(s.works[w].owner, w)
  {
  }

  /** A new session is open and reads, with all its slots free; no other is touched. */
  lemma ConnectedExactly(maximum: nat, actions: seq<Action>)
    ensures var s, s' := Run(maximum, actions), Run(maximum, actions + [Connect]);
      && s.nextSession !in s.sessions && s'.works == s.works && s'.resources == s.resources
      && s'.sessions == s.sessions[s.nextSession := Session(false, Reading, maximum, 16)]
  {
    RunThen(maximum, actions, Connect);
    EveryRunKeepsInv(maximum, actions);
  }

  /** A resource that ends by itself is gone, and nothing else is. */
  lemma ExpiredExactly(maximum: nat, actions: seq<Action>, r: nat)
    ensures var s, s' := Run(maximum, actions), Run(maximum, actions + [Expire(r)]);
      && r !in s'.resources && s' == s.(resources := s'.resources)
      && forall q :: q in s.resources && q != r ==> q in s'.resources && s'.resources[q] == s.resources[q]
  {
    RunThen(maximum, actions, Expire(r));
  }

  // ----- What success means -----

  predicate Succeeded(s: State, w: nat) {
    && w in s.works
    && match s.works[w].phase
       case Finished(ok) => ok
       case LateCleanup(_, ok) => ok
       case Done(ok) => ok
       case _ => false
  }

  /** The service itself ended this work well, while it was running it. */
  predicate WasServed(maximum: nat, actions: seq<Action>, w: nat, n: nat) {
    n < |actions| && actions[n] == OfWork(w, Finish(true)) && IsRunning(Run(maximum, actions[..n]), w)
  }

  /** Work has succeeded exactly when the service itself ended it well: no success is made
      up, and none is lost before its waiter hears of it. */
  lemma {:induction false} SuccessIsTheServices(maximum: nat, actions: seq<Action>, w: nat)
    ensures Succeeded(Run(maximum, actions), w) <==> exists n: nat :: WasServed(maximum, actions, w, n)
  {
    if actions != [] {
      var front, a := actions[..|actions| - 1], actions[|actions| - 1];
      SuccessIsTheServices(maximum, front, w);
      EveryRunKeepsInv(maximum, front);
      StepSucceeds(Run(maximum, front), maximum, a, w);
      ServedSnoc(maximum, front, a, w);
      assert actions == front + [a];
    }
  }

  predicate Serves(s: State, a: Action, w: nat) {
    a == OfWork(w, Finish(true)) && IsRunning(s, w)
  }

  lemma ServedSnoc(maximum: nat, actions: seq<Action>, a: Action, w: nat)
    ensures (exists n: nat :: WasServed(maximum, actions + [a], w, n)) <==>
      (exists n: nat :: WasServed(maximum, actions, w, n)) || Serves(Run(maximum, actions), a, w)
  {
    var more := actions + [a];
    assert more[..|actions|] == actions;
    assert forall n :: 0 <= n <= |actions| ==> more[..n] == actions[..n];
    if n: nat :| WasServed(maximum, actions, w, n) {
      assert WasServed(maximum, more, w, n);
    }
    if n: nat :| WasServed(maximum, more, w, n) {
      assert n < |actions| ==> WasServed(maximum, actions, w, n);
    }
    assert Serves(Run(maximum, actions), a, w) ==> WasServed(maximum, more, w, |actions|);
  }

  lemma StepSucceeds(s: State, maximum: nat, a: Action, w: nat)
    requires Named(s)
    ensures Succeeded(Step(s, maximum, a), w) <==> Succeeded(s, w) || Serves(s, a, w)
  {
    match a
    case OfSession(o, b) =>
      if o in s.sessions {
        SessionStepAdmits(s, o, b);
        SessionStepFrame(s, o, b);
      }
    case OfWork(v, b) =>
      if v in s.works {
        WorkStepFrame(s, v, b);
        WorkStepSucceeds(s, v, b);
      }
    case _ =>
  }

  lemma WorkStepSucceeds(s: State, w: nat, b: WorkAction)
    requires w in s.works && s.works[w].owner in s.sessions
    ensures Succeeded(WorkStep(s, w, b), w) <==> Succeeded(s, w) || Serves(s, OfWork(w, b), w)
  {
  }

  // ----- The order of an orderly end -----

  ghost predicate NoWaiters(s: State, o: nat) {
    forall w :: w in s.works && s.works[w].owner == o ==> s.works[w].waiter != Waiting
  }

  predicate IsCleaning(s: State, o: nat) {
    o in s.sessions && s.sessions[o].phase.Cleaning?
  }

  /** Cleanup begins exactly from a connection whose waiters have been joined, or which
      was dropped. */
  lemma CleanupBeginsExactly(maximum: nat, actions: seq<Action>, a: Action, o: nat)
    requires !IsCleaning(Run(maximum, actions), o)
    ensures IsCleaning(Run(maximum, actions + [a]), o) <==>
      && a == OfSession(o, StartCleanup) && o in Run(maximum, actions).sessions
      && Run(maximum, actions).sessions[o].phase in {Joined, Orphaned}
  {
    RunThen(maximum, actions, a);
    EveryRunKeepsInv(maximum, actions);
    StepCleans(Run(maximum, actions), maximum, a, o);
  }

  lemma StepCleans(s: State, maximum: nat, a: Action, o: nat)
    requires Named(s) && !IsCleaning(s, o)
    ensures IsCleaning(Step(s, maximum, a), o) <==>
      a == OfSession(o, StartCleanup) && o in s.sessions && s.sessions[o].phase in {Joined, Orphaned}
  {
    match a
    case OfSession(p, b) =>
      if p in s.sessions {
        SessionStepFrame(s, p, b);
        if p == o {
          SessionStepCleans(s, o, b);
        }
      }
    case OfWork(w, b) => if w in s.works { WorkStepFrame(s, w, b); }
    case _ =>
  }

  lemma SessionStepCleans(s: State, o: nat, b: SessionAction)
    requires o in s.sessions && !IsCleaning(s, o)
    ensures IsCleaning(SessionStep(s, o, b), o) <==> b == StartCleanup && s.sessions[o].phase in {Joined, Orphaned}
  {
  }

  /** Once the waiters have been joined, none waits. */
  lemma {:induction false} WaitersEndFirst(maximum: nat, actions: seq<Action>, o: nat)
    requires o in Run(maximum, actions).sessions && Run(maximum, actions).sessions[o].phase == Joined
    ensures NoWaiters(Run(maximum, actions), o)
  {
    var front, a := actions[..|actions| - 1], actions[|actions| - 1];
    var s := Run(maximum, front);
    EveryRunKeepsInv(maximum, front);
    StepJoins(s, maximum, a, o);
    if o in s.sessions && s.sessions[o].phase == Joined {
      WaitersEndFirst(maximum, front, o);
      forall w | w in Run(maximum, actions).works && Run(maximum, actions).works[w].owner == o
        ensures Run(maximum, actions).works[w].waiter != Waiting
      {
        StepOnOwnedWaiter(s, maximum, a, o, w);
      }
    }
  }

  lemma StepJoins(s: State, maximum: nat, a: Action, o: nat)
    requires Named(s)
    requires o in Step(s, maximum, a).sessions && Step(s, maximum, a).sessions[o].phase == Joined
    ensures o in s.sessions
    ensures s.sessions[o].phase != Joined ==> NoWaiters(Step(s, maximum, a), o)
  {
    match a
    case OfSession(p, b) =>
      if p in s.sessions {
        SessionStepFrame(s, p, b);
        if p == o && s.sessions[o].phase != Joined {
          SessionStepJoins(s, o, b);
        }
      }
    case OfWork(w, b) => if w in s.works { WorkStepFrame(s, w, b); }
    case _ =>
  }

  lemma SessionStepJoins(s: State, o: nat, b: SessionAction)
    requires o in s.sessions && s.sessions[o].phase != Joined
    ensures o in SessionStep(s, o, b).sessions
    ensures SessionStep(s, o, b).sessions[o].phase == Joined ==> NoWaiters(SessionStep(s, o, b), o)
  {
  }

  lemma StepOnOwnedWaiter(s: State, maximum: nat, a: Action, o: nat, w: nat)
    requires Named(s) && o in s.sessions && s.sessions[o].phase == Joined && NoWaiters(s, o)
    requires w in Step(s, maximum, a).works && Step(s, maximum, a).works[w].owner == o
    ensures Step(s, maximum, a).works[w].waiter != Waiting
  {
    match a
    case OfSession(p, b) =>
      if p in s.sessions {
        SessionStepAdmits(s, p, b);
        AcceptedOnlyWhileReading(s, p, b);
        SessionStepFrame(s, p, b);
      }
    case OfWork(v, b) => if v in s.works { WorkStepFrame(s, v, b); WaiterStep(s, v, b); }
    case _ =>
  }

  // ----- Everything can end -----

  function Steps(maximum: nat): (State, Action) -> State {
    (s, a) => Step(s, maximum, a)
  }

  lemma {:induction false} RunOnRun(maximum: nat, actions: seq<Action>, more: seq<Action>)
    ensures Run(maximum, actions + more) == RunOn(Steps(maximum), Run(maximum, actions), more)
  {
    if more == [] {
      assert actions + more == actions;
    } else {
      var front := more[..|more| - 1];
      RunOnRun(maximum, actions, front);
      RunThen(maximum, actions + front, more[|more| - 1]);
      assert actions + more == actions + front + [more[|more| - 1]];
    }
  }

  ghost predicate Leads(maximum: nat, s: State, s': State) {
    LeadsTo(Steps(maximum), s, s') && Inv(s', maximum)
  }

  lemma LeadsOn(maximum: nat, s: State, a: Action)
    requires Inv(s, maximum)
    ensures Leads(maximum, s, Step(s, maximum, a))
  {
    StepKeeps(s, maximum, a);
    StepLeads(Steps(maximum), s, a);
    assert Steps(maximum)(s, a) == Step(s, maximum, a);
  }

  /** Only work w differs, and it and its session are still what they were. */
  ghost predicate OnlyWork(s: State, s': State, w: nat) {
    && w in s.works && w in s'.works && s'.works == s.works[w := s'.works[w]]
    && s'.works[w].owner == s.works[w].owner && s'.works[w].kind == s.works[w].kind
    && s'.sessions.Keys == s.sessions.Keys
    && forall o :: o in s.sessions ==> s'.sessions[o].phase == s.sessions[o].phase
  }

  function StepsLeft(phase: WorkPhase): nat {
    match phase
    case Admitted => 5
    case Spawned => 4
    case Running => 3
    case Finished(_) => 2
    case LateCleanup(_, _) => 1
    case _ => 0
  }

  function Todo(phase: WorkPhase): set<nat> {
    if phase.LateCleanup? then phase.todo else {}
  }

  predicate CloserToItsEnd(before: WorkPhase, after: WorkPhase) {
    || StepsLeft(after) < StepsLeft(before)
    || (StepsLeft(after) == StepsLeft(before) && |Todo(after)| < |Todo(before)|)
  }

  /** What a piece of work can do next by itself. */
  lemma WorkAdvances(s: State, w: nat) returns (b: WorkAction)
    requires w in s.works && s.works[w].owner in s.sessions && ReplyOk(s, s.works[w])
    requires HoldsSlot(s.works[w].phase)
    ensures w in WorkStep(s, w, b).works && CloserToItsEnd(s.works[w].phase, WorkStep(s, w, b).works[w].phase)
  {
    if s.works[w].phase.LateCleanup? {
      b := CleanupAdvances(s, w);
    } else {
      b := match s.works[w].phase
           case Admitted => Spawn
           case Spawned => Dispatch
           case Running => Finish(true)
           case _ => CheckClosed;
    }
  }

  lemma CleanupAdvances(s: State, w: nat) returns (b: WorkAction)
    requires w in s.works && s.works[w].owner in s.sessions && s.works[w].phase.LateCleanup?
    ensures w in WorkStep(s, w, b).works && CloserToItsEnd(s.works[w].phase, WorkStep(s, w, b).works[w].phase)
  {
    var todo := s.works[w].phase.todo;
    if r :| r in todo {
      b := RemoveLate(r);
      assert |todo - {r}| == |todo| - 1;
    } else {
      b := EndLate;
    }
  }

  lemma WorkStepIsOnlyWork(s: State, w: nat, b: WorkAction)
    requires w in s.works && s.works[w].owner in s.sessions
    ensures OnlyWork(s, WorkStep(s, w, b), w)
  {
    WorkStepFrame(s, w, b);
  }

  lemma {:induction false} WorkCanEnd(maximum: nat, s: State, w: nat) returns (s': State)
    requires Inv(s, maximum) && w in s.works
    ensures Leads(maximum, s, s') && OnlyWork(s, s', w) && !HoldsSlot(s'.works[w].phase)
    decreases StepsLeft(s.works[w].phase), |Todo(s.works[w].phase)|
  {
    if HoldsSlot(s.works[w].phase) {
      var s1 := WorkMoves(maximum, s, w);
      s' := WorkCanEnd(maximum, s1, w);
      LeadsJoin(Steps(maximum), s, s1, s');
      OnlyWorkJoins(s, s1, s', w);
    } else {
      s' := s;
      LeadsNowhere(Steps(maximum), s);
      assert s.works == s.works[w := s.works[w]];
    }
  }

  lemma WorkMoves(maximum: nat, s: State, w: nat) returns (s': State)
    requires Inv(s, maximum) && w in s.works && HoldsSlot(s.works[w].phase)
    ensures Leads(maximum, s, s') && OnlyWork(s, s', w)
    ensures CloserToItsEnd(s.works[w].phase, s'.works[w].phase)
  {
    assert ReplyOk(s, s.works[w]);
    var b := WorkAdvances(s, w);
    s' := Step(s, maximum, OfWork(w, b));
    WorkStepIsOnlyWork(s, w, b);
    LeadsOn(maximum, s, OfWork(w, b));
  }

  lemma OnlyWorkJoins(s: State, s1: State, s2: State, w: nat)
    requires OnlyWork(s, s1, w) && OnlyWork(s1, s2, w)
    ensures OnlyWork(s, s2, w)
  {
    assert s.works[w := s1.works[w]][w := s2.works[w]] == s.works[w := s2.works[w]];
  }

  function Waiters(s: State, o: nat): set<nat> {
    set w | w in s.works && s.works[w].owner == o && s.works[w].waiter == Waiting
  }

  function PhasesLeft(phase: Phase): nat {
    match phase
    case Reading => 4
    case Closing => 3
    case Joined => 2
    case Orphaned => 2
    case Cleaning(_) => 1
    case Cleaned => 0
  }

  function CleanupTodo(phase: Phase): set<nat> {
    if phase.Cleaning? then phase.todo else {}
  }

  /** What is left of a phase: waiters to end, or resources to remove. */
  function InPhase(s: State, o: nat): nat
    requires o in s.sessions
  {
    if s.sessions[o].phase == Closing then |Waiters(s, o)| else |CleanupTodo(s.sessions[o].phase)|
  }

  ghost predicate NearsEnd(s: State, s': State, o: nat)
    requires o in s.sessions && o in s'.sessions
  {
    var before, after := s.sessions[o].phase, s'.sessions[o].phase;
    || PhasesLeft(after) < PhasesLeft(before)
    || (PhasesLeft(after) == PhasesLeft(before) && InPhase(s', o) < InPhase(s, o))
  }

  /** What a connection can do next towards its end. */
  lemma SessionAdvances(s: State, maximum: nat, o: nat) returns (a: Action)
    requires Named(s) && o in s.sessions && s.sessions[o].phase != Cleaned
    ensures o in Step(s, maximum, a).sessions
    ensures NearsEnd(s, Step(s, maximum, a), o)
  {
    match s.sessions[o].phase
    case Reading => a := OfSession(o, EndReading);
    case Closing =>
      if Waiters(s, o) == {} {
        a := OfSession(o, JoinWaiters);
        JoiningEnds(s, o);
      } else {
        var w :| w in Waiters(s, o);
        a := OfWork(w, AbortWaiter);
        AbortingEndsOne(s, o, w);
      }
    case Joined => a := OfSession(o, StartCleanup);
    case Orphaned => a := OfSession(o, StartCleanup);
    case Cleaning(todo) =>
      if todo == {} {
        a := OfSession(o, EndCleanup);
      } else {
        var r :| r in todo;
        a := OfSession(o, RemoveOwned(r));
        RemovingNears(s, o, r);
      }
  }

  lemma JoiningEnds(s: State, o: nat)
    requires o in s.sessions && s.sessions[o].phase == Closing && Waiters(s, o) == {}
    ensures o in SessionStep(s, o, JoinWaiters).sessions
    ensures SessionStep(s, o, JoinWaiters).sessions[o].phase == Joined
  {
    assert forall w :: w in s.works && s.works[w].owner == o && s.works[w].waiter == Waiting ==> w in Waiters(s, o);
  }

  lemma RemovingNears(s: State, o: nat, r: nat)
    requires IsCleaning(s, o) && r in s.sessions[o].phase.todo
    ensures o in SessionStep(s, o, RemoveOwned(r)).sessions
    ensures NearsEnd(s, SessionStep(s, o, RemoveOwned(r)), o)
  {
    var todo := s.sessions[o].phase.todo;
    assert |todo - {r}| == |todo| - 1;
  }

  lemma AbortingEndsOne(s: State, o: nat, w: nat)
    requires o in s.sessions && s.sessions[o].phase == Closing && w in Waiters(s, o)
    ensures var s' := WorkStep(s, w, AbortWaiter);
      o in s'.sessions && s'.sessions[o].phase == Closing && |Waiters(s', o)| < |Waiters(s, o)|
  {
    WorkStepFrame(s, w, AbortWaiter);
    assert Waiters(WorkStep(s, w, AbortWaiter), o) == Waiters(s, o) - {w};
  }

  lemma {:induction false} ConnectionCanEnd(maximum: nat, s: State, o: nat) returns (s': State)
    requires Inv(s, maximum) && o in s.sessions
    ensures Leads(maximum, s, s') && o in s'.sessions && s'.sessions[o].phase == Cleaned
    decreases PhasesLeft(s.sessions[o].phase), InPhase(s, o)
  {
    if s.sessions[o].phase == Cleaned {
      s' := s;
      LeadsNowhere(Steps(maximum), s);
    } else {
      var s1 := ConnectionMoves(maximum, s, o);
      s' := ConnectionCanEnd(maximum, s1, o);
      LeadsJoin(Steps(maximum), s, s1, s');
    }
  }

  lemma ConnectionMoves(maximum: nat, s: State, o: nat) returns (s': State)
    requires Inv(s, maximum) && o in s.sessions && s.sessions[o].phase != Cleaned
    ensures Leads(maximum, s, s') && o in s'.sessions && NearsEnd(s, s', o)
  {
    var a := SessionAdvances(s, maximum, o);
    s' := Step(s, maximum, a);
    LeadsOn(maximum, s, a);
  }

  function Holders(s: State, o: nat): set<nat> {
    set w | w in s.works && s.works[w].owner == o && HoldsSlot(s.works[w].phase)
  }

  lemma {:induction false} AllWorkCanEnd(maximum: nat, s: State, o: nat) returns (s': State)
    requires Inv(s, maximum) && o in s.sessions && s.sessions[o].phase == Cleaned
    ensures Leads(maximum, s, s') && Over(s', o)
    decreases |Holders(s, o)|
  {
    if w :| w in Holders(s, o) {
      var s1 := WorkCanEnd(maximum, s, w);
      OneHolderLess(s, s1, w, o);
      s' := AllWorkCanEnd(maximum, s1, o);
      LeadsJoin(Steps(maximum), s, s1, s');
    } else {
      s' := s;
      LeadsNowhere(Steps(maximum), s);
      NoHoldersOver(s, o);
    }
  }

  lemma OneHolderLess(s: State, s': State, w: nat, o: nat)
    requires OnlyWork(s, s', w) && w in Holders(s, o) && !HoldsSlot(s'.works[w].phase)
    requires o in s.sessions
    ensures o in s'.sessions && s'.sessions[o].phase == s.sessions[o].phase
    ensures |Holders(s', o)| < |Holders(s, o)|
  {
    assert Holders(s', o) == Holders(s, o) - {w};
  }

  lemma NoHoldersOver(s: State, o: nat)
    requires o in s.sessions && s.sessions[o].phase == Cleaned && Holders(s, o) == {}
    ensures Over(s, o)
  {
    assert forall w :: w in s.works && s.works[w].owner == o && HoldsSlot(s.works[w].phase) ==> w in Holders(s, o);
  }

  /** Wherever a run stands, every session can still end, with all its work and with
      nothing of its own left: no state is a dead end. */
  lemma EverySessionCanEnd(maximum: nat, actions: seq<Action>, o: nat) returns (more: seq<Action>)
    requires o in Run(maximum, actions).sessions
    ensures Over(Run(maximum, actions + more), o) && Owned(Run(maximum, actions + more), o) == {}
  {
    var s := Run(maximum, actions);
    EveryRunKeepsInv(maximum, actions);
    var s1 := ConnectionCanEnd(maximum, s, o);
    var s2 := AllWorkCanEnd(maximum, s1, o);
    LeadsJoin(Steps(maximum), s, s1, s2);
    OverOwnsNothing(s2, maximum, o);
    more :| RunOn(Steps(maximum), s, more) == s2;
    RunOnRun(maximum, actions, more);
  }
}
