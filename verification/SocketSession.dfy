/** Socket connections, the work they accept, and what that work leaves behind.
    A connection may end in many ways while accepted work goes on; nothing owned by
    it may outlive both.  Each action is what one task does between two awaits. */
module SocketSession {
  import opened Common

  const CONTROL_CAPACITY: nat := 16

  // ----- Requests -----

  datatype Kind = Call | Subscribe | Cancel | Release

  /** Losing the reply of one of these closes the session. */
  predicate IsControl(kind: Kind) {
    !kind.Call?
  }

  /** Subscriptions share the slots of calls. */
  predicate TakesCallSlot(kind: Kind) {
    kind.Call? || kind.Subscribe?
  }

  // ----- State -----

  /** Accepted work: its waiter has not spawned it yet; spawned; inside the service;
      finished with a result; running the late cleanup; done.  Discarded work was
      aborted with its waiter before it was spawned. */
  datatype WorkPhase =
    | Admitted | Spawned | Running | Finished(ok: bool)
    | LateCleanup(todo: set<nat>, ok: bool) | Done(ok: bool) | Discarded

  datatype Waiter = Waiting | Answered | Unknown | Aborted

  datatype Work = Work(owner: nat, kind: Kind, phase: WorkPhase, waiter: Waiter)

  /** Reading requests; the loop has ended and waiters are being aborted; waiters
      joined; inside `disconnected`; guard disarmed.  Orphaned: the connection itself
      was dropped, and its guard has yet to run the cleanup in a task of its own. */
  datatype Phase = Reading | Closing | Joined | Orphaned | Cleaning(todo: set<nat>) | Cleaned

  datatype Session = Session(closed: bool, phase: Phase, calls: nat, controls: nat)

  datatype Resource = Resource(owner: nat, work: nat)

  datatype State = State(
    sessions: map<nat, Session>, works: map<nat, Work>, resources: map<nat, Resource>,
    nextSession: nat, nextWork: nat, nextResource: nat)

  function Initial(): State {
    State(map[], map[], map[], 0, 0, 0)
  }

  datatype SessionAction =
    | Accept(kind: Kind)
    | Close                // an event could not be queued
    | EndReading           // input ended or failed, the writer ended, stop, or closed
    | JoinWaiters
    | DropConnection
    | StartCleanup
    | RemoveOwned(r: nat)
    | EndCleanup

  datatype WorkAction =
    | Spawn
    | Dispatch
    | Create
    | Finish(ok: bool)
    | CheckClosed
    | RemoveLate(r: nat)
    | EndLate
    | Timeout
    | Reply
    | AbortWaiter

  /** Expire: a resource ends by itself. */
  datatype Action =
    | Connect
    | OfSession(o: nat, session: SessionAction)
    | OfWork(w: nat, work: WorkAction)
    | Expire(r: nat)

  // ----- Steps -----

  function Owned(s: State, owner: nat): set<nat> {
    set r | r in s.resources && s.resources[r].owner == owner
  }

  function SetSession(s: State, o: nat, session: Session): State {
    s.(sessions := s.sessions[o := session])
  }

  function SetWork(s: State, w: nat, work: Work): State {
    s.(works := s.works[w := work])
  }

  function CloseSession(s: State, o: nat): State {
    if o in s.sessions then SetSession(s, o, s.sessions[o].(closed := true)) else s
  }

  function AddSlot(session: Session, kind: Kind, n: int): Session
    requires (if TakesCallSlot(kind) then session.calls else session.controls) + n >= 0
  {
    if TakesCallSlot(kind) then session.(calls := session.calls + n) else session.(controls := session.controls + n)
  }

  function FreeSlots(session: Session, kind: Kind): nat {
    if TakesCallSlot(kind) then session.calls else session.controls
  }

  /** The work's task ends, and its permit with it. */
  function EndWork(s: State, w: nat, phase: WorkPhase): State
    requires w in s.works && s.works[w].owner in s.sessions
  {
    var work := s.works[w];
    SetSession(SetWork(s, w, work.(phase := phase)), work.owner, AddSlot(s.sessions[work.owner], work.kind, 1))
  }

  function SessionStep(s: State, o: nat, a: SessionAction): State
    requires o in s.sessions
  {
    var session := s.sessions[o];
    match a
    case Accept(kind) =>
      if session.phase == Reading && FreeSlots(session, kind) > 0 then
        SetWork(SetSession(s, o, AddSlot(session, kind, -1)), s.nextWork, Work(o, kind, Admitted, Waiting))
        .(nextWork := s.nextWork + 1)
      else s
    case Close => CloseSession(s, o)
    case EndReading =>
      if session.phase == Reading then SetSession(s, o, session.(closed := true, phase := Closing)) else s
    case JoinWaiters =>
      if session.phase == Closing
         && (forall w :: w in s.works && s.works[w].owner == o ==> s.works[w].waiter != Waiting)
      then SetSession(s, o, session.(phase := Joined)) else s
    case DropConnection =>
      if session.phase == Cleaned then s else SetSession(s, o, session.(closed := true, phase := Orphaned))
    case StartCleanup =>
      if session.phase == Joined || session.phase == Orphaned
      then SetSession(s, o, session.(phase := Cleaning(Owned(s, o)))) else s
    case RemoveOwned(r) =>
      if session.phase.Cleaning? && r in session.phase.todo
      then SetSession(s, o, session.(phase := Cleaning(session.phase.todo - {r}))).(resources := s.resources - {r})
      else s
    case EndCleanup =>
      if session.phase == Cleaning({}) then SetSession(s, o, session.(phase := Cleaned)) else s
  }

  function WorkStep(s: State, w: nat, a: WorkAction): State
    requires w in s.works && s.works[w].owner in s.sessions
  {
    var work := s.works[w];
    var o, session := work.owner, s.sessions[work.owner];
    match a
    case Spawn =>
      if work.phase == Admitted && work.waiter == Waiting then SetWork(s, w, work.(phase := Spawned)) else s
    case Dispatch =>
      if work.phase == Spawned
      then SetWork(s, w, work.(phase := if session.closed then Finished(false) else Running)) else s
    case Create =>
      if work.phase == Running
      then s.(resources := s.resources[s.nextResource := Resource(o, w)], nextResource := s.nextResource + 1) else s
    case Finish(ok) =>
      if work.phase == Running then SetWork(s, w, work.(phase := Finished(ok))) else s
    case CheckClosed =>
      if !work.phase.Finished? then s
      else if session.closed then SetWork(s, w, work.(phase := LateCleanup(Owned(s, o), work.phase.ok)))
      else EndWork(s, w, Done(work.phase.ok))
    case RemoveLate(r) =>
      if work.phase.LateCleanup? && r in work.phase.todo
      then SetWork(s, w, work.(phase := work.phase.(todo := work.phase.todo - {r}))).(resources := s.resources - {r})
      else s
    case EndLate =>
      if work.phase.LateCleanup? && work.phase.todo == {} then EndWork(s, w, Done(work.phase.ok)) else s
    case Timeout =>
      if work.waiter == Waiting && work.phase != Admitted then LoseReply(s, w) else s
    case Reply =>
      if work.waiter == Waiting && work.phase.Done? then
        if work.phase.ok then SetWork(s, w, work.(waiter := Answered)) else LoseReply(s, w)
      else s
    case AbortWaiter =>
      if work.waiter == Waiting && (session.phase == Closing || session.phase == Orphaned) then
        var s1 := SetWork(s, w, work.(waiter := Aborted));
        if work.phase == Admitted then EndWork(s1, w, Discarded) else s1
      else s
  }

  /** The caller is told the outcome is unknown. */
  function LoseReply(s: State, w: nat): State
    requires w in s.works
  {
    var work := s.works[w];
    var s1 := SetWork(s, w, work.(waiter := Unknown));
    if IsControl(work.kind) then CloseSession(s1, work.owner) else s1
  }

  function Step(s: State, maximum: nat, a: Action): State {
    match a
    case Connect =>
      SetSession(s, s.nextSession, Session(false, Reading, maximum, CONTROL_CAPACITY))
      .(nextSession := s.nextSession + 1)
    case Expire(r) => s.(resources := s.resources - {r})
    case OfSession(o, b) => if o in s.sessions then SessionStep(s, o, b) else s
    case OfWork(w, b) => if w in s.works && s.works[w].owner in s.sessions then WorkStep(s, w, b) else s
  }

  function Run(maximum: nat, actions: seq<Action>): State {
    if actions == [] then Initial()
    else Step(Run(maximum, actions[..|actions| - 1]), maximum, actions[|actions| - 1])
  }

  // ----- The invariant -----

  /** Names are never reused, and everything belongs to something that exists. */
  ghost predicate Named(s: State) {
    && (forall o :: o in s.sessions ==> o < s.nextSession)
    && (forall w :: w in s.works ==> w < s.nextWork && s.works[w].owner in s.sessions)
    && (forall r :: r in s.resources ==> r < s.nextResource && BelongsToItsWork(s, r))
  }

  ghost predicate BelongsToItsWork(s: State, r: nat)
    requires r in s.resources
  {
    var made := s.resources[r];
    made.work in s.works && s.works[made.work].owner == made.owner && Dispatched(s.works[made.work].phase)
  }

  predicate Dispatched(phase: WorkPhase) {
    phase == Running || phase.Finished? || phase.LateCleanup? || phase.Done?
  }

  /** A session is closed before anything else happens to its connection. */
  ghost predicate ClosedFirst(s: State) {
    forall o :: o in s.sessions && s.sessions[o].phase != Reading ==> s.sessions[o].closed
  }

  /** Every resource is still somebody's duty. */
  ghost predicate Covered(s: State) {
    forall r :: r in s.resources && BelongsToItsWork(s, r) && s.resources[r].owner in s.sessions ==>
      CoveredBySession(s, r) || CoveredByWork(s, r)
  }

  ghost predicate CoveredBySession(s: State, r: nat)
    requires r in s.resources && s.resources[r].owner in s.sessions
  {
    var phase := s.sessions[s.resources[r].owner].phase;
    !phase.Cleaned? && (phase.Cleaning? ==> r in phase.todo)
  }

  ghost predicate CoveredByWork(s: State, r: nat)
    requires r in s.resources && s.resources[r].work in s.works
  {
    var phase := s.works[s.resources[r].work].phase;
    !phase.Done? && (phase.LateCleanup? ==> r in phase.todo)
  }

  /** A cleanup only has its own owner's resources to remove. */
  ghost predicate Scoped(s: State) {
    && (forall o, r :: o in s.sessions && s.sessions[o].phase.Cleaning? && r in s.sessions[o].phase.todo ==>
          ForOwner(s, r, o))
    && (forall w, r :: w in s.works && s.works[w].phase.LateCleanup? && r in s.works[w].phase.todo ==>
          ForOwner(s, r, s.works[w].owner) && s.works[w].owner in s.sessions && s.sessions[s.works[w].owner].closed)
  }

  ghost predicate ForOwner(s: State, r: nat, o: nat) {
    r < s.nextResource && (r in s.resources ==> s.resources[r].owner == o)
  }

  function SlotHolders(works: map<nat, Work>, o: nat, calls: bool): set<nat> {
    set w | w in works && works[w].owner == o && TakesCallSlot(works[w].kind) == calls && HoldsSlot(works[w].phase)
  }

  predicate HoldsSlot(phase: WorkPhase) {
    !phase.Done? && !phase.Discarded?
  }

  ghost predicate SlotsConserved(s: State, maximum: nat) {
    forall o :: o in s.sessions ==>
      && s.sessions[o].calls + |SlotHolders(s.works, o, true)| == maximum
      && s.sessions[o].controls + |SlotHolders(s.works, o, false)| == CONTROL_CAPACITY
  }

  ghost predicate RepliesOk(s: State) {
    forall w :: w in s.works ==> ReplyOk(s, s.works[w])
  }

  ghost predicate ReplyOk(s: State, work: Work) {
    && (work.waiter == Answered ==> work.phase == Done(true))
    && (work.waiter == Unknown && IsControl(work.kind) && work.owner in s.sessions ==> s.sessions[work.owner].closed)
    && (work.phase == Discarded ==> work.waiter == Aborted)
    && (work.phase == Admitted ==> work.waiter == Waiting)
  }

  ghost predicate Inv(s: State, maximum: nat) {
    Named(s) && ClosedFirst(s) && Covered(s) && Scoped(s) && SlotsConserved(s, maximum) && RepliesOk(s)
  }

  // ----- Every step keeps it -----

  lemma StepKeepsNamed(s: State, maximum: nat, a: Action)
    requires Named(s)
    ensures Named(Step(s, maximum, a))
  {
    var s' := Step(s, maximum, a);
    match a
    case OfSession(o, b) =>
      if o in s.sessions {
        SessionStepKeepsNamed(s, o, b);
      }
    case OfWork(w, b) =>
      if w in s.works {
        WorkStepKeepsNamed(s, w, b);
      }
    case _ =>
      forall r | r in s'.resources ensures BelongsToItsWork(s', r) {
        assert BelongsToItsWork(s, r);
      }
  }

  lemma SessionStepKeepsNamed(s: State, o: nat, a: SessionAction)
    requires Named(s) && o in s.sessions
    ensures Named(SessionStep(s, o, a))
  {
    var s' := SessionStep(s, o, a);
    forall r | r in s'.resources ensures r < s'.nextResource && BelongsToItsWork(s', r) {
      assert BelongsToItsWork(s, r);
    }
  }

  lemma WorkStepKeepsNamed(s: State, w: nat, a: WorkAction)
    requires Named(s) && w in s.works
    ensures Named(WorkStep(s, w, a))
  {
    var s' := WorkStep(s, w, a);
    forall r | r in s'.resources ensures r < s'.nextResource && BelongsToItsWork(s', r) {
      assert r in s.resources ==> BelongsToItsWork(s, r);
    }
  }

  lemma SessionStepKeepsClosedFirst(s: State, o: nat, a: SessionAction)
    requires ClosedFirst(s) && o in s.sessions
    ensures ClosedFirst(SessionStep(s, o, a))
  {
    SessionStepFrame(s, o, a);
    SessionStepCloses(s, o, a);
  }

  lemma SessionStepCloses(s: State, o: nat, a: SessionAction)
    requires o in s.sessions && (s.sessions[o].phase != Reading ==> s.sessions[o].closed)
    ensures var s' := SessionStep(s, o, a);
      o in s'.sessions && (s'.sessions[o].phase != Reading ==> s'.sessions[o].closed)
  {
  }

  lemma StepKeepsClosedFirst(s: State, maximum: nat, a: Action)
    requires Named(s) && ClosedFirst(s)
    ensures ClosedFirst(Step(s, maximum, a))
  {
    match a
    case OfSession(o, b) => if o in s.sessions { SessionStepKeepsClosedFirst(s, o, b); }
    case OfWork(w, b) => if w in s.works { WorkStepFrame(s, w, b); }
    case _ =>
  }

  lemma SessionStepKeepsCovered(s: State, o: nat, a: SessionAction)
    requires Named(s) && Covered(s) && Scoped(s) && o in s.sessions
    ensures Covered(SessionStep(s, o, a))
  {
    var s' := SessionStep(s, o, a);
    forall r | r in s'.resources && BelongsToItsWork(s', r) && s'.resources[r].owner in s'.sessions
      ensures CoveredBySession(s', r) || CoveredByWork(s', r)
    {
      assert r in s.resources && BelongsToItsWork(s, r);
      if a.StartCleanup? && s.resources[r].owner == o {
        assert r in Owned(s, o);
      }
    }
  }

  lemma WorkStepKeepsCovered(s: State, w: nat, a: WorkAction)
    requires Named(s) && ClosedFirst(s) && Covered(s) && Scoped(s) && w in s.works
    ensures Covered(WorkStep(s, w, a))
  {
    var s' := WorkStep(s, w, a);
    forall r | r in s'.resources && BelongsToItsWork(s', r) && s'.resources[r].owner in s'.sessions
      ensures CoveredBySession(s', r) || CoveredByWork(s', r)
    {
      if r in s.resources {
        assert BelongsToItsWork(s, r);
        if a.CheckClosed? && s.resources[r].owner == s.works[w].owner {
          assert r in Owned(s, s.works[w].owner);
        }
      }
    }
  }

  lemma StepKeepsCovered(s: State, maximum: nat, a: Action)
    requires Named(s) && ClosedFirst(s) && Covered(s) && Scoped(s)
    ensures Covered(Step(s, maximum, a))
  {
    var s' := Step(s, maximum, a);
    match a
    case OfSession(o, b) => if o in s.sessions { SessionStepKeepsCovered(s, o, b); }
    case OfWork(w, b) => if w in s.works { WorkStepKeepsCovered(s, w, b); }
    case _ =>
      forall r | r in s'.resources && BelongsToItsWork(s', r) && s'.resources[r].owner in s'.sessions
        ensures CoveredBySession(s', r) || CoveredByWork(s', r)
      {
        assert r in s.resources && BelongsToItsWork(s, r);
        assert CoveredBySession(s, r) || CoveredByWork(s, r);
      }
  }

  /** What a step of one piece of work can touch. */
  ghost predicate WorkFrame(s: State, s': State, w: nat)
    requires w in s.works && s.works[w].owner in s.sessions
  {
    var o := s.works[w].owner;
    && w in s'.works && s'.works == s.works[w := s'.works[w]]
    && s'.works[w].owner == o && s'.works[w].kind == s.works[w].kind
    && o in s'.sessions && s'.sessions == s.sessions[o := s'.sessions[o]]
    && s'.sessions[o].phase == s.sessions[o].phase && (s.sessions[o].closed ==> s'.sessions[o].closed)
    && s'.nextSession == s.nextSession && s'.nextWork == s.nextWork && s'.nextResource >= s.nextResource
    && (forall r :: r in s'.resources && r < s.nextResource ==> r in s.resources && s'.resources[r] == s.resources[r])
  }

  lemma WorkStepFrame(s: State, w: nat, a: WorkAction)
    requires w in s.works && s.works[w].owner in s.sessions
    ensures WorkFrame(s, WorkStep(s, w, a), w)
  {
  }

  /** What a step of one connection can touch. */
  ghost predicate SessionFrame(s: State, s': State, o: nat)
    requires o in s.sessions
  {
    && o in s'.sessions && s'.sessions == s.sessions[o := s'.sessions[o]]
    && (s.sessions[o].closed ==> s'.sessions[o].closed)
    && (s'.works == s.works || (s.nextWork in s'.works && s'.works == s.works[s.nextWork := s'.works[s.nextWork]]))
    && s'.nextSession == s.nextSession && s'.nextWork >= s.nextWork && s'.nextResource == s.nextResource
    && (forall r :: r in s'.resources ==> r in s.resources && s'.resources[r] == s.resources[r])
  }

  lemma SessionStepFrame(s: State, o: nat, a: SessionAction)
    requires o in s.sessions
    ensures SessionFrame(s, SessionStep(s, o, a), o)
  {
    var s' := SessionStep(s, o, a);
    assert s'.sessions == s.sessions[o := s'.sessions[o]];
  }

  lemma SessionStepKeepsScoped(s: State, o: nat, a: SessionAction)
    requires Named(s) && Scoped(s) && o in s.sessions
    ensures Scoped(SessionStep(s, o, a))
  {
    var s' := SessionStep(s, o, a);
    SessionStepFrame(s, o, a);
    forall p, r | p in s'.sessions && s'.sessions[p].phase.Cleaning? && r in s'.sessions[p].phase.todo
      ensures ForOwner(s', r, p)
    {
      if p == o && a.StartCleanup? {
        assert s'.sessions[o].phase.todo == Owned(s, o) || s' == s;
      }
      assert ForOwner(s, r, p);
    }
    forall w, r | w in s'.works && s'.works[w].phase.LateCleanup? && r in s'.works[w].phase.todo
      ensures ForOwner(s', r, s'.works[w].owner)
      ensures s'.works[w].owner in s'.sessions && s'.sessions[s'.works[w].owner].closed
    {
      assert w in s.works && s'.works[w] == s.works[w];
      assert ForOwner(s, r, s.works[w].owner);
    }
  }

  lemma WorkStepKeepsScoped(s: State, w: nat, a: WorkAction)
    requires Named(s) && Scoped(s) && w in s.works
    ensures Scoped(WorkStep(s, w, a))
  {
    var s' := WorkStep(s, w, a);
    var o := s.works[w].owner;
    WorkStepFrame(s, w, a);
    forall p, r | p in s'.sessions && s'.sessions[p].phase.Cleaning? && r in s'.sessions[p].phase.todo
      ensures ForOwner(s', r, p)
    {
      assert ForOwner(s, r, p);
    }
    assert s'.works[w].phase.LateCleanup? ==>
      (s.works[w].phase.LateCleanup? && s'.works[w].phase.todo <= s.works[w].phase.todo)
      || (s.sessions[o].closed && s'.works[w].phase.todo == Owned(s, o));
    forall v, r | v in s'.works && s'.works[v].phase.LateCleanup? && r in s'.works[v].phase.todo
      ensures ForOwner(s', r, s'.works[v].owner)
      ensures s'.works[v].owner in s'.sessions && s'.sessions[s'.works[v].owner].closed
    {
      assert v in s.works && s'.works[v].owner == s.works[v].owner;
      assert ForOwner(s, r, s.works[v].owner);
    }
  }

  lemma StepKeepsScoped(s: State, maximum: nat, a: Action)
    requires Named(s) && Scoped(s)
    ensures Scoped(Step(s, maximum, a))
  {
    match a
    case OfSession(o, b) => if o in s.sessions { SessionStepKeepsScoped(s, o, b); }
    case OfWork(w, b) => if w in s.works { WorkStepKeepsScoped(s, w, b); }
    case Connect =>
    case Expire(q) =>
      var s' := Step(s, maximum, a);
      assert forall r, o :: ForOwner(s, r, o) ==> ForOwner(s', r, o);
  }

  lemma HoldersAfter(works: map<nat, Work>, w: nat, work: Work, o: nat, calls: bool)
    requires w in works ==> works[w].owner == work.owner && works[w].kind == work.kind
    ensures var mine := work.owner == o && TakesCallSlot(work.kind) == calls;
      |SlotHolders(works[w := work], o, calls)| + (if mine && w in works && HoldsSlot(works[w].phase) then 1 else 0)
      == |SlotHolders(works, o, calls)| + if mine && HoldsSlot(work.phase) then 1 else 0
  {
    SizeChange(SlotHolders(works, o, calls), SlotHolders(works[w := work], o, calls), w);
  }

  /** One work changes, and its session's free slots by as much as it gives back. */
  lemma SlotsAfter(s: State, s': State, maximum: nat, w: nat)
    requires SlotsConserved(s, maximum) && w in s'.works && s'.works == s.works[w := s'.works[w]]
    requires w in s.works ==> s.works[w].owner == s'.works[w].owner && s.works[w].kind == s'.works[w].kind
    requires s'.sessions.Keys == s.sessions.Keys
    requires var work := s'.works[w];
      var held, holds := w in s.works && HoldsSlot(s.works[w].phase), HoldsSlot(work.phase);
      var change := (if held then 1 else 0) - (if holds then 1 else 0);
      var calls := TakesCallSlot(work.kind);
      forall o :: o in s.sessions ==>
        && s'.sessions[o].calls == s.sessions[o].calls + (if o == work.owner && calls then change else 0)
        && s'.sessions[o].controls == s.sessions[o].controls + (if o == work.owner && !calls then change else 0)
    ensures SlotsConserved(s', maximum)
  {
    forall o | o in s'.sessions
      ensures s'.sessions[o].calls + |SlotHolders(s'.works, o, true)| == maximum
      ensures s'.sessions[o].controls + |SlotHolders(s'.works, o, false)| == CONTROL_CAPACITY
    {
      HoldersAfter(s.works, w, s'.works[w], o, true);
      HoldersAfter(s.works, w, s'.works[w], o, false);
    }
  }

  lemma AcceptTakesASlot(s: State, o: nat, kind: Kind)
    requires o in s.sessions
    ensures var s' := SessionStep(s, o, Accept(kind));
      s' == s || (
        && s'.works == s.works[s.nextWork := Work(o, kind, Admitted, Waiting)]
        && o in s'.sessions && s'.sessions == s.sessions[o := s'.sessions[o]]
        && s'.sessions[o].calls == s.sessions[o].calls - (if TakesCallSlot(kind) then 1 else 0)
        && s'.sessions[o].controls == s.sessions[o].controls - (if TakesCallSlot(kind) then 0 else 1))
  {
  }

  lemma OthersKeepSlots(s: State, o: nat, a: SessionAction)
    requires o in s.sessions && !a.Accept?
    ensures var s' := SessionStep(s, o, a);
      && s'.works == s.works && o in s'.sessions && s'.sessions == s.sessions[o := s'.sessions[o]]
      && s'.sessions[o].calls == s.sessions[o].calls && s'.sessions[o].controls == s.sessions[o].controls
  {
    SessionStepFrame(s, o, a);
  }

  lemma SessionStepKeepsSlots(s: State, maximum: nat, o: nat, a: SessionAction)
    requires Named(s) && SlotsConserved(s, maximum) && o in s.sessions
    ensures SlotsConserved(SessionStep(s, o, a), maximum)
  {
    var s' := SessionStep(s, o, a);
    if a.Accept? {
      AcceptTakesASlot(s, o, a.kind);
      if s' != s {
        SlotsAfter(s, s', maximum, s.nextWork);
      }
    } else {
      OthersKeepSlots(s, o, a);
    }
  }

  /** Work that stops holding a slot gives it back in the same step. */
  lemma WorkStepSlots(s: State, w: nat, a: WorkAction)
    requires w in s.works && s.works[w].owner in s.sessions
    ensures WorkFrame(s, WorkStep(s, w, a), w) && SlotsMoved(s, WorkStep(s, w, a), w)
  {
    WorkStepFrame(s, w, a);
  }

  lemma WorkStepKeepsSlots(s: State, maximum: nat, w: nat, a: WorkAction)
    requires Named(s) && SlotsConserved(s, maximum) && w in s.works
    ensures SlotsConserved(WorkStep(s, w, a), maximum)
  {
    WorkStepSlots(s, w, a);
    FrameKeepsSlots(s, WorkStep(s, w, a), maximum, w);
  }

  lemma FrameKeepsSlots(s: State, s': State, maximum: nat, w: nat)
    requires SlotsConserved(s, maximum) && w in s.works && s.works[w].owner in s.sessions && WorkFrame(s, s', w)
    requires SlotsMoved(s, s', w)
    ensures SlotsConserved(s', maximum)
  {
    SlotsAfter(s, s', maximum, w);
  }

  /** The free slots of the work's session change as the work does. */
  ghost predicate SlotsMoved(s: State, s': State, w: nat)
    requires w in s.works && s.works[w].owner in s.sessions && WorkFrame(s, s', w)
  {
    var o, calls := s.works[w].owner, TakesCallSlot(s.works[w].kind);
    var change := (if HoldsSlot(s.works[w].phase) then 1 else 0) - (if HoldsSlot(s'.works[w].phase) then 1 else 0);
    && s'.sessions[o].calls == s.sessions[o].calls + (if calls then change else 0)
    && s'.sessions[o].controls == s.sessions[o].controls + (if !calls then change else 0)
  }

  lemma StepKeepsSlots(s: State, maximum: nat, a: Action)
    requires Named(s) && SlotsConserved(s, maximum)
    ensures SlotsConserved(Step(s, maximum, a), maximum)
  {
    match a
    case OfSession(o, b) => if o in s.sessions { SessionStepKeepsSlots(s, maximum, o, b); }
    case OfWork(w, b) => if w in s.works { WorkStepKeepsSlots(s, maximum, w, b); }
    case Connect =>
      assert SlotHolders(s.works, s.nextSession, true) == {};
      assert SlotHolders(s.works, s.nextSession, false) == {};
    case Expire(_) =>
  }

  lemma WorkStepKeepsReply(s: State, w: nat, a: WorkAction)
    requires w in s.works && s.works[w].owner in s.sessions && ReplyOk(s, s.works[w])
    ensures ReplyOk(WorkStep(s, w, a), WorkStep(s, w, a).works[w])
  {
  }

  lemma StepKeepsReplies(s: State, maximum: nat, a: Action)
    requires Named(s) && RepliesOk(s)
    ensures RepliesOk(Step(s, maximum, a))
  {
    var s' := Step(s, maximum, a);
    match a
    case OfSession(o, b) =>
      if o in s.sessions {
        SessionStepFrame(s, o, b);
        assert s'.works != s.works ==> b.Accept? && s'.works[s.nextWork] == Work(o, b.kind, Admitted, Waiting);
        assert forall w :: w in s'.works && w in s.works ==> ReplyOk(s, s.works[w]) && s'.works[w] == s.works[w];
      }
    case OfWork(w, b) =>
      if w in s.works {
        WorkStepFrame(s, w, b);
        WorkStepKeepsReply(s, w, b);
        assert forall v :: v in s.works && v != w ==> ReplyOk(s, s.works[v]) && s'.works[v] == s.works[v];
      }
    case _ =>
      assert s'.works == s.works;
      assert forall w :: w in s.works ==> ReplyOk(s, s.works[w]);
  }

  lemma StepKeeps(s: State, maximum: nat, a: Action)
    requires Inv(s, maximum)
    ensures Inv(Step(s, maximum, a), maximum)
  {
    StepKeepsNamed(s, maximum, a);
    StepKeepsClosedFirst(s, maximum, a);
    StepKeepsCovered(s, maximum, a);
    StepKeepsScoped(s, maximum, a);
    StepKeepsSlots(s, maximum, a);
    StepKeepsReplies(s, maximum, a);
  }

  lemma {:induction false} EveryRunKeepsInv(maximum: nat, actions: seq<Action>)
    ensures Inv(Run(maximum, actions), maximum)
  {
    if actions != [] {
      EveryRunKeepsInv(maximum, actions[..|actions| - 1]);
      StepKeeps(Run(maximum, actions[..|actions| - 1]), maximum, actions[|actions| - 1]);
    }
  }

  // ----- What sessions promise -----

  /** The connection's cleanup has returned, and no accepted work is left. */
  ghost predicate Over(s: State, o: nat) {
    && o in s.sessions && s.sessions[o].phase == Cleaned
    && forall w :: w in s.works && s.works[w].owner == o ==> !HoldsSlot(s.works[w].phase)
  }

  lemma OverOwnsNothing(s: State, maximum: nat, o: nat)
    requires Inv(s, maximum) && Over(s, o)
    ensures Owned(s, o) == {}
  {
    forall r | r in s.resources ensures s.resources[r].owner != o {
      assert BelongsToItsWork(s, r);
    }
  }

  lemma OverStaysOver(s: State, maximum: nat, a: Action, o: nat)
    requires Inv(s, maximum) && Over(s, o)
    ensures Over(Step(s, maximum, a), o)
  {
    match a
    case OfSession(p, b) =>
      if p in s.sessions {
        SessionStepFrame(s, p, b);
        AcceptedOnlyWhileReading(s, p, b);
      }
    case OfWork(w, b) =>
      if w in s.works {
        WorkStepSlots(s, w, b);
        if s.works[w].owner == o {
          EndedWorkStaysEnded(s, w, b);
        }
      }
    case _ =>
  }

  lemma AcceptedOnlyWhileReading(s: State, o: nat, a: SessionAction)
    requires Named(s) && o in s.sessions
    ensures var s' := SessionStep(s, o, a);
      && (s'.works != s.works ==> s.sessions[o].phase == Reading && s'.works[s.nextWork].owner == o)
      && (s.sessions[o].phase == Cleaned ==> s'.sessions[o].phase == Cleaned)
  {
    SessionStepFrame(s, o, a);
  }

  lemma EndedWorkStaysEnded(s: State, w: nat, a: WorkAction)
    requires w in s.works && s.works[w].owner in s.sessions && !HoldsSlot(s.works[w].phase)
    ensures w in WorkStep(s, w, a).works && WorkStep(s, w, a).works[w].phase == s.works[w].phase
  {
  }

  /** However accepted work, timeouts, closing, a dropped connection and both
      cleanups interleave: once the connection and all its work are over, nothing it
      owned is left, and nothing will be. */
  lemma {:induction false} NothingOutlivesASession(maximum: nat, actions: seq<Action>, n: nat, o: nat)
    requires n <= |actions| && Over(Run(maximum, actions[..n]), o)
    ensures Over(Run(maximum, actions), o) && Owned(Run(maximum, actions), o) == {}
    decreases |actions|
  {
    if n < |actions| {
      var front := actions[..|actions| - 1];
      assert front[..n] == actions[..n];
      NothingOutlivesASession(maximum, front, n, o);
      EveryRunKeepsInv(maximum, front);
      OverStaysOver(Run(maximum, front), maximum, actions[|actions| - 1], o);
    } else {
      assert actions[..n] == actions;
    }
    EveryRunKeepsInv(maximum, actions);
    OverOwnsNothing(Run(maximum, actions), maximum, o);
  }

  /** A resource goes only by its own end or because its own session was closed. */
  lemma OnlyClosedSessionsLoseResources(maximum: nat, actions: seq<Action>, a: Action, r: nat)
    requires r in Run(maximum, actions).resources && r !in Run(maximum, actions + [a]).resources
    ensures a == Expire(r)
         || (Run(maximum, actions).resources[r].owner in Run(maximum, actions).sessions
             && Run(maximum, actions).sessions[Run(maximum, actions).resources[r].owner].closed)
  {
    var s := Run(maximum, actions);
    EveryRunKeepsInv(maximum, actions);
    assert (actions + [a])[..|actions|] == actions;
    assert BelongsToItsWork(s, r);
    match a
    case OfSession(o, b) => SessionStepRemoves(s, o, b, r);
    case OfWork(w, b) => WorkStepRemoves(s, w, b, r);
    case _ =>
  }

  lemma SessionStepRemoves(s: State, o: nat, a: SessionAction, r: nat)
    requires Named(s) && ClosedFirst(s) && Scoped(s)
    requires r in s.resources && o in s.sessions && r !in SessionStep(s, o, a).resources
    ensures s.resources[r].owner == o && s.sessions[o].closed
  {
    assert ForOwner(s, r, o);
  }

  lemma WorkStepRemoves(s: State, w: nat, a: WorkAction, r: nat)
    requires Named(s) && ClosedFirst(s) && Scoped(s)
    requires r in s.resources && w in s.works && r !in WorkStep(s, w, a).resources
    ensures s.resources[r].owner == s.works[w].owner && s.sessions[s.works[w].owner].closed
  {
    assert ForOwner(s, r, s.works[w].owner);
  }

  /** Per connection, work in progress never exceeds the two sets of slots, and every
      slot not held is free: lost replies and deadlines release nothing. */
  lemma WorkIsBounded(maximum: nat, actions: seq<Action>, o: nat)
    requires o in Run(maximum, actions).sessions
    ensures var s := Run(maximum, actions);
      && |SlotHolders(s.works, o, true)| == maximum - s.sessions[o].calls
      && |SlotHolders(s.works, o, false)| == CONTROL_CAPACITY - s.sessions[o].controls
  {
    EveryRunKeepsInv(maximum, actions);
  }

  /** A caller hears of success only when its work is done and succeeded; a control
      request whose outcome is unknown has closed its session. */
  lemma RepliesAreTrue(maximum: nat, actions: seq<Action>, w: nat)
    requires w in Run(maximum, actions).works
    ensures var s := Run(maximum, actions);
      && (s.works[w].waiter == Answered ==> s.works[w].phase == Done(true))
      && (s.works[w].waiter == Unknown && IsControl(s.works[w].kind) ==>
            s.works[w].owner in s.sessions && s.sessions[s.works[w].owner].closed)
      && (s.works[w].phase == Discarded ==> s.works[w].waiter == Aborted)
  {
    EveryRunKeepsInv(maximum, actions);
    var s := Run(maximum, actions);
    assert ReplyOk(s, s.works[w]);
  }
}
