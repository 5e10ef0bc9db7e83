/** What each part of the blocking lane does, over every run: which submissions are
    refused and why, in which order jobs are taken, what ends the dispatcher, and what the
    replies and the reports of shutdown tell. */
module LaneLaws {
  import opened Common
  import opened BlockingLane
  import opened Reach

  lemma RunThen(b: Bounds, actions: seq<Action>, a: Action)
    ensures Run(b, actions + [a]) == Step(Run(b, actions), b, a)
  {
    assert (actions + [a])[..|actions|] == actions;
  }

  // ----- Submission -----

  /** Queued jobs are the queue, each once. */
  lemma QueueIsQueued(l: Lane, b: Bounds)
    requires LaneInv(l, b)
    ensures |InStage(l.jobs, Queued)| == |l.queue|
  {
    forall j ensures j in InStage(l.jobs, Queued) <==> j in l.queue {
      if j in l.jobs {
        assert JobOk(j, l.jobs[j], l);
      }
    }
    DistinctSize(l.queue, InStage(l.jobs, Queued));
  }

  lemma {:induction false} DistinctSize(q: seq<nat>, members: set<nat>)
    requires forall i, k :: 0 <= i < k < |q| ==> q[i] != q[k]
    requires forall j :: j in members <==> j in q
    ensures |members| == |q|
  {
    if q == [] {
      assert members == {};
    } else {
      var front, last := q[..|q| - 1], q[|q| - 1];
      assert q == front + [last];
      assert last in members && last !in front;
      DistinctSize(front, members - {last});
    }
  }

  /** A submission is refused as closed once the lane is closed or its dispatcher has
      stopped, and as full when as many jobs wait as the queue holds; otherwise a new job
      waits behind the others.  A refusal changes nothing. */
  lemma SubmittedExactly(b: Bounds, actions: seq<Action>)
    ensures var s, s' := Run(b, actions), Run(b, actions + [Submit]);
      var r, waiting := SubmitResult(s, b), |InStage(s.lane.jobs, Queued)|;
      && (r == Closed <==> s.closed || s.lane.dispatcher == Stopped)
      && (r == Full <==> !s.closed && s.lane.dispatcher != Stopped && waiting == b.capacity)
      && (!r.Accepted? ==> s' == s)
      && (r.Accepted? ==>
            && r.job !in s.lane.jobs && s'.lane.jobs == s.lane.jobs[r.job := Job(Queued, Pending, 0)]
            && s'.lane.queue == s.lane.queue + [r.job])
  {
    RunThen(b, actions, Submit);
    EveryRunKeepsInv(b, actions);
    QueueIsQueued(Run(b, actions).lane, b);
  }

  // ----- Order -----

  /** Jobs are numbered as they are accepted, and the queue holds the last of them. */
  ghost predicate QueueIsLast(l: Lane) {
    && |l.queue| <= l.next
    && (forall i :: 0 <= i < |l.queue| ==> l.queue[i] == l.next - |l.queue| + i)
    && (forall j: nat :: j in l.jobs <==> j < l.next)
  }

  lemma StepKeepsOrder(s: State, b: Bounds, a: Action)
    requires LaneInv(s.lane, b) && QueueIsLast(s.lane)
    ensures QueueIsLast(Step(s, b, a).lane)
  {
    match a
    case OfDispatcher(d) => DispatcherKeepsOrder(s.lane, b, s.shutdown, s.aborted, d);
    case OfJob(j, step) => if j in s.lane.jobs { JobFrame(s.lane, j, step); }
    case OfCaller(c, step) => if c in s.callers { CallerStepFrame(s, c, step); }
    case Submit => EnqueueKeepsOrder(s.lane);
    case DropLane =>
  }

  lemma EnqueueKeepsOrder(l: Lane)
    requires QueueIsLast(l)
    ensures QueueIsLast(Enqueue(l))
  {
  }

  lemma DispatcherKeepsOrder(l: Lane, b: Bounds, shutdown: bool, aborted: bool, d: DispatcherStep)
    requires LaneInv(l, b) && QueueIsLast(l)
    ensures QueueIsLast(DispatcherNext(l, shutdown, aborted, d))
  {
    var l' := DispatcherNext(l, shutdown, aborted, d);
    if l'.dispatcher == Stopped {
    } else if d == Receive && l' != l {
      ReceiveKeepsOrder(l, b);
    } else {
      assert l'.queue == l.queue && l'.next == l.next;
    }
  }

  lemma ReceiveKeepsOrder(l: Lane, b: Bounds)
    requires LaneInv(l, b) && QueueIsLast(l)
    ensures QueueIsLast(DispatcherNext(l, false, false, Receive))
  {
  }

  lemma {:induction false} QueueKeepsOrder(b: Bounds, actions: seq<Action>)
    ensures QueueIsLast(Run(b, actions).lane)
  {
    if actions != [] {
      var front := actions[..|actions| - 1];
      QueueKeepsOrder(b, front);
      EveryRunKeepsInv(b, front);
      StepKeepsOrder(Run(b, front), b, actions[|actions| - 1]);
    }
  }

  /** No job overtakes another: while one waits, all that were accepted after it wait. */
  lemma NobodyOvertakes(b: Bounds, actions: seq<Action>, j: nat, k: nat)
    requires var jobs := Run(b, actions).lane.jobs; j in jobs && k in jobs && j <= k && jobs[j].stage == Queued
    ensures Run(b, actions).lane.jobs[k].stage == Queued
  {
    var l := Run(b, actions).lane;
    EveryRunKeepsInv(b, actions);
    QueueKeepsOrder(b, actions);
    assert JobOk(j, l.jobs[j], l) && JobOk(k, l.jobs[k], l);
    var i :| 0 <= i < |l.queue| && l.queue[i] == j;
    assert l.queue[i + (k - j)] == k;
  }

  // ----- What ends the lane -----

  /** A call of shutdown has closed the lane, or has gone further. */
  predicate HasClosed(caller: Caller) {
    caller.phase != Closing
  }

  predicate HasSignalled(caller: Caller) {
    caller.phase != Closing && caller.phase != Signalling
  }

  /** Its join of the dispatcher timed out. */
  predicate HasGivenUp(caller: Caller) {
    !caller.stopped
  }

  ghost predicate SomeCaller(s: State, p: Caller -> bool) {
    exists c :: c in s.callers && p(s.callers[c])
  }

  /** The lane closes by a call of shutdown alone; the dispatcher is signalled by one, or
      by the lane's own drop, and aborted by one that reports it so, or by that drop; and
      it stops only once signalled. */
  ghost predicate EndedBy(s: State, dropped: bool) {
    && (s.closed <==> SomeCaller(s, HasClosed))
    && (s.shutdown <==> dropped || SomeCaller(s, HasSignalled))
    && (s.aborted <==> dropped || SomeCaller(s, HasGivenUp))
    && (s.lane.dispatcher == Stopped ==> s.shutdown)
    && (s.aborted ==> s.shutdown)
  }

  lemma {:induction false} EndsExactly(b: Bounds, actions: seq<Action>)
    ensures EndedBy(Run(b, actions), DropLane in actions)
  {
    if actions != [] {
      var front, a := actions[..|actions| - 1], actions[|actions| - 1];
      assert actions == front + [a];
      EndsExactly(b, front);
      EveryRunKeepsInv(b, front);
      StepEnds(Run(b, front), b, a, DropLane in front);
    }
  }

  lemma StepEnds(s: State, b: Bounds, a: Action, dropped: bool)
    requires Inv(s, b) && EndedBy(s, dropped)
    ensures EndedBy(Step(s, b, a), dropped || a == DropLane)
  {
    match a
    case OfDispatcher(d) => DispatcherEnds(s.lane, s.shutdown, s.aborted, d);
    case OfJob(j, step) => if j in s.lane.jobs { JobEnds(s, b, j, step, dropped); }
    case OfCaller(c, step) => CallerEnds(s, b, c, step, dropped);
    case _ =>
  }

  lemma DispatcherEnds(l: Lane, shutdown: bool, aborted: bool, d: DispatcherStep)
    requires (l.dispatcher == Stopped ==> shutdown) && (aborted ==> shutdown)
    ensures DispatcherNext(l, shutdown, aborted, d).dispatcher == Stopped ==> shutdown
  {
  }

  lemma JobEnds(s: State, b: Bounds, j: nat, step: JobStep, dropped: bool)
    requires EndedBy(s, dropped) && j in s.lane.jobs
    ensures EndedBy(Step(s, b, OfJob(j, step)), dropped)
  {
    var s' := Step(s, b, OfJob(j, step));
    JobFrame(s.lane, j, step);
    forall c | c in s.callers
      ensures c in s'.callers && HasClosed(s'.callers[c]) == HasClosed(s.callers[c])
      ensures HasSignalled(s'.callers[c]) == HasSignalled(s.callers[c])
      ensures s'.callers[c].stopped == s.callers[c].stopped
    {
    }
    SameCallers(s, s', HasClosed);
    SameCallers(s, s', HasSignalled);
    SameCallers(s, s', HasGivenUp);
  }

  lemma SameCallers(s: State, s': State, p: Caller -> bool)
    requires s'.callers.Keys == s.callers.Keys
    requires forall c :: c in s.callers ==> p(s'.callers[c]) == p(s.callers[c])
    ensures SomeCaller(s', p) == SomeCaller(s, p)
  {
    if SomeCaller(s, p) {
      var c :| c in s.callers && p(s.callers[c]);
      assert c in s'.callers && p(s'.callers[c]);
    }
    if SomeCaller(s', p) {
      var c :| c in s'.callers && p(s'.callers[c]);
      assert c in s.callers;
    }
  }

  /** One caller changes, and what it satisfied it goes on to satisfy. */
  lemma OneCaller(s: State, s': State, c: nat, p: Caller -> bool)
    requires c in s'.callers && s'.callers == s.callers[c := s'.callers[c]]
    requires c in s.callers && p(s.callers[c]) ==> p(s'.callers[c])
    ensures SomeCaller(s', p) <==> SomeCaller(s, p) || p(s'.callers[c])
  {
    if SomeCaller(s, p) {
      var d :| d in s.callers && p(s.callers[d]);
      assert d in s'.callers && p(s'.callers[d]);
    }
    if SomeCaller(s', p) && !p(s'.callers[c]) {
      var d :| d in s'.callers && p(s'.callers[d]);
      assert d in s.callers && s.callers[d] == s'.callers[d];
    }
  }

  lemma CallerEnds(s: State, b: Bounds, c: nat, step: CallerStep, dropped: bool)
    requires Inv(s, b) && EndedBy(s, dropped)
    ensures EndedBy(Step(s, b, OfCaller(c, step)), dropped)
  {
    var s' := Step(s, b, OfCaller(c, step));
    if c in s'.callers {
      assert c in s.callers && !s.callers[c].stopped ==> HasGivenUp(s.callers[c]);
      CallerMoves(s, b, c, step);
      CallerFacts(s, s', c);
    }
  }

  lemma CallerFacts(s: State, s': State, c: nat)
    requires c in s'.callers && s'.callers == s.callers[c := s'.callers[c]]
    requires c in s.callers && HasClosed(s.callers[c]) ==> HasClosed(s'.callers[c])
    requires c in s.callers && HasSignalled(s.callers[c]) ==> HasSignalled(s'.callers[c])
    requires c in s.callers && HasGivenUp(s.callers[c]) ==> HasGivenUp(s'.callers[c])
    ensures SomeCaller(s', HasClosed) <==> SomeCaller(s, HasClosed) || HasClosed(s'.callers[c])
    ensures SomeCaller(s', HasSignalled) <==> SomeCaller(s, HasSignalled) || HasSignalled(s'.callers[c])
    ensures SomeCaller(s', HasGivenUp) <==> SomeCaller(s, HasGivenUp) || HasGivenUp(s'.callers[c])
  {
    OneCaller(s, s', c, HasClosed);
    OneCaller(s, s', c, HasSignalled);
    OneCaller(s, s', c, HasGivenUp);
  }

  lemma CallerMoves(s: State, b: Bounds, c: nat, step: CallerStep)
    requires CallersOk(s) && c in Step(s, b, OfCaller(c, step)).callers
    requires c in s.callers && !s.callers[c].stopped ==> s.aborted
    ensures var s' := Step(s, b, OfCaller(c, step));
      var now := s'.callers[c];
      && s'.callers == s.callers[c := now] && s'.lane == s.lane
      && (c in s.callers && HasClosed(s.callers[c]) ==> HasClosed(now))
      && (c in s.callers && HasSignalled(s.callers[c]) ==> HasSignalled(now))
      && (c in s.callers && !s.callers[c].stopped ==> !now.stopped)
      && (s'.closed <==> s.closed || HasClosed(now))
      && (s'.shutdown <==> s.shutdown || HasSignalled(now))
      && (s'.aborted <==> s.aborted || !now.stopped)
  {
    if c in s.callers {
      CallerStepFrame(s, c, step);
      assert CallerOk(s, s.callers[c]);
    }
  }

  // ----- What reports and replies tell -----

  /** Action n is this step of caller c, taken where `p` holds of the caller and the lane. */
  ghost predicate CallerDidAt(
    b: Bounds, actions: seq<Action>, c: nat, step: CallerStep, p: (Caller, Lane) -> bool, n: nat)
  {
    && n < |actions| && actions[n] == OfCaller(c, step)
    && var s := Run(b, actions[..n]); c in s.callers && p(s.callers[c], s.lane)
  }

  ghost predicate CallerDid(
    b: Bounds, actions: seq<Action>, c: nat, step: CallerStep, p: (Caller, Lane) -> bool)
  {
    exists n: nat :: CallerDidAt(b, actions, c, step, p, n)
  }

  predicate CallerDoes(s: State, a: Action, c: nat, step: CallerStep, p: (Caller, Lane) -> bool) {
    a == OfCaller(c, step) && c in s.callers && p(s.callers[c], s.lane)
  }

  lemma CallerDidSnoc(
    b: Bounds, actions: seq<Action>, a: Action, c: nat, step: CallerStep, p: (Caller, Lane) -> bool)
    ensures CallerDid(b, actions + [a], c, step, p) <==>
      CallerDid(b, actions, c, step, p) || CallerDoes(Run(b, actions), a, c, step, p)
  {
    var more := actions + [a];
    assert more[..|actions|] == actions;
    forall n: nat | n < |actions|
      ensures CallerDidAt(b, more, c, step, p, n) <==> CallerDidAt(b, actions, c, step, p, n)
    {
      assert more[..n] == actions[..n];
    }
    if CallerDid(b, actions, c, step, p) {
      var n: nat :| CallerDidAt(b, actions, c, step, p, n);
      assert CallerDidAt(b, more, c, step, p, n);
    }
    if CallerDid(b, more, c, step, p) {
      var n: nat :| CallerDidAt(b, more, c, step, p, n);
      assert n < |actions| ==> CallerDidAt(b, actions, c, step, p, n);
    }
    assert CallerDoes(Run(b, actions), a, c, step, p) ==> CallerDidAt(b, more, c, step, p, |actions|);
  }

  predicate JoinsInVain(caller: Caller, l: Lane) {
    caller.phase == Joining && l.dispatcher != Stopped
  }

  /** A call reports that the dispatcher had not stopped exactly when its join timed out
      before the dispatcher stopped. */
  lemma {:induction false} GivingUpMeans(b: Bounds, actions: seq<Action>, c: nat)
    requires c in Run(b, actions).callers
    ensures !Run(b, actions).callers[c].stopped <==> CallerDid(b, actions, c, JoinTimesOut, JoinsInVain)
  {
    var front, a := actions[..|actions| - 1], actions[|actions| - 1];
    assert actions == front + [a];
    CallerDidSnoc(b, front, a, c, JoinTimesOut, JoinsInVain);
    StepGivesUp(Run(b, front), b, a, c);
    if c in Run(b, front).callers {
      GivingUpMeans(b, front, c);
    } else {
      NeverDid(b, front, c, JoinTimesOut, JoinsInVain);
    }
  }

  /** Steps of others leave a caller as it is, or wake it. */
  lemma OthersOnlyWake(s: State, b: Bounds, a: Action, c: nat)
    requires c in Step(s, b, a).callers && !(a.OfCaller? && a.caller == c)
    ensures c in s.callers
    ensures Step(s, b, a).callers[c] == s.callers[c] || Step(s, b, a).callers[c] == Notified(s.callers[c])
  {
    match a
    case OfCaller(d, step) => if d in s.callers { CallerStepFrame(s, d, step); }
    case _ =>
  }

  lemma StepGivesUp(s: State, b: Bounds, a: Action, c: nat)
    requires c in Step(s, b, a).callers
    ensures c in s.callers ==> (HasGivenUp(Step(s, b, a).callers[c]) <==>
      HasGivenUp(s.callers[c]) || CallerDoes(s, a, c, JoinTimesOut, JoinsInVain))
    ensures c !in s.callers ==> Step(s, b, a).callers[c] == Caller(false, true, Closing)
  {
    if a.OfCaller? && a.caller == c {
      if c in s.callers {
        OwnStepGivesUp(s, c, a.c);
      }
    } else {
      OthersOnlyWake(s, b, a, c);
    }
  }

  lemma OwnStepGivesUp(s: State, c: nat, step: CallerStep)
    requires c in s.callers
    ensures c in CallerNext(s, c, step).callers
    ensures HasGivenUp(CallerNext(s, c, step).callers[c]) <==>
      HasGivenUp(s.callers[c]) || (step == JoinTimesOut && JoinsInVain(s.callers[c], s.lane))
  {
  }

  /** A caller that is not there yet has done nothing. */
  lemma {:induction false} NeverDid(
    b: Bounds, actions: seq<Action>, c: nat, step: CallerStep, p: (Caller, Lane) -> bool)
    requires c !in Run(b, actions).callers
    ensures !CallerDid(b, actions, c, step, p)
  {
    if actions != [] {
      var front, a := actions[..|actions| - 1], actions[|actions| - 1];
      assert actions == front + [a];
      if c in Run(b, front).callers {
        CallerStays(Run(b, front), b, a, c);
      }
      NeverDid(b, front, c, step, p);
      CallerDidSnoc(b, front, a, c, step, p);
    }
  }

  lemma CallerStays(s: State, b: Bounds, a: Action, c: nat)
    requires c in s.callers
    ensures c in Step(s, b, a).callers
  {
    match a
    case OfCaller(d, step) => if d in s.callers { CallerStepFrame(s, d, step); }
    case _ =>
  }

  /** The number a call reports is the activity count that it loaded. */
  lemma {:induction false} ReportIsTheCount(b: Bounds, actions: seq<Action>, c: nat)
    requires c in Run(b, actions).callers && Run(b, actions).callers[c].phase.Reported?
    ensures var active := Run(b, actions).callers[c].phase.active;
      CallerDid(b, actions, c, Load, (caller: Caller, l: Lane) => caller.phase == Loading && l.count == active)
  {
    var active := Run(b, actions).callers[c].phase.active;
    var loads := (caller: Caller, l: Lane) => caller.phase == Loading && l.count == active;
    var front, a := actions[..|actions| - 1], actions[|actions| - 1];
    assert actions == front + [a];
    CallerDidSnoc(b, front, a, c, Load, loads);
    StepReports(Run(b, front), b, a, c);
    if c in Run(b, front).callers && Run(b, front).callers[c].phase.Reported? {
      ReportIsTheCount(b, front, c);
    }
  }

  lemma StepReports(s: State, b: Bounds, a: Action, c: nat)
    requires c in Step(s, b, a).callers && Step(s, b, a).callers[c].phase.Reported?
    ensures c in s.callers
    ensures var now := Step(s, b, a).callers[c];
      || now.phase == s.callers[c].phase
      || (a == OfCaller(c, Load) && s.callers[c].phase == Loading && s.lane.count == now.phase.active)
  {
    if a.OfCaller? && a.caller == c {
      if c in s.callers {
        OwnStepReports(s, c, a.c);
      }
    } else {
      OthersOnlyWake(s, b, a, c);
    }
  }

  lemma OwnStepReports(s: State, c: nat, step: CallerStep)
    requires c in s.callers
    ensures c in CallerNext(s, c, step).callers
    ensures var now := CallerNext(s, c, step).callers[c];
      now.phase.Reported? ==>
        now.phase == s.callers[c].phase
        || (step == Load && s.callers[c].phase == Loading && s.lane.count == now.phase.active)
  {
  }

  /** Action n ends job j's execution, with a panic or not. */
  ghost predicate EndedAt(b: Bounds, actions: seq<Action>, j: nat, panicked: bool, n: nat) {
    && n < |actions| && actions[n] == OfJob(j, Finish(panicked))
    && j in Run(b, actions[..n]).lane.jobs && Run(b, actions[..n]).lane.jobs[j].stage == Executing
  }

  /** A value, or news of a panic, is what the job's own execution ended with. */
  lemma {:induction false} ReplyIsTheJobs(b: Bounds, actions: seq<Action>, j: nat, panicked: bool)
    requires j in Run(b, actions).lane.jobs
    requires Run(b, actions).lane.jobs[j].reply == if panicked then Panicked else Value
    ensures exists n: nat :: EndedAt(b, actions, j, panicked, n)
  {
    var front, a := actions[..|actions| - 1], actions[|actions| - 1];
    assert actions == front + [a];
    var s := Run(b, front);
    EveryRunKeepsInv(b, front);
    StepReplies(s, b, a, j);
    if j in s.lane.jobs && s.lane.jobs[j].reply == Run(b, actions).lane.jobs[j].reply {
      ReplyIsTheJobs(b, front, j, panicked);
      var n: nat :| EndedAt(b, front, j, panicked, n);
      assert actions[..n] == front[..n];
      assert EndedAt(b, actions, j, panicked, n);
    } else {
      assert EndedAt(b, actions, j, panicked, |front|);
    }
  }

  lemma StepReplies(s: State, b: Bounds, a: Action, j: nat)
    requires Inv(s, b) && j in Step(s, b, a).lane.jobs
    requires Step(s, b, a).lane.jobs[j].reply in {Value, Panicked}
    ensures j in s.lane.jobs
    ensures var now := Step(s, b, a).lane.jobs[j];
      || now.reply == s.lane.jobs[j].reply
      || (a == OfJob(j, Finish(now.reply == Panicked)) && s.lane.jobs[j].stage == Executing)
  {
    match a
    case OfDispatcher(d) => DispatcherReplies(s.lane, s.shutdown, s.aborted, d, j);
    case OfJob(k, step) => if k in s.lane.jobs { JobFrame(s.lane, k, step); }
    case OfCaller(d, step) => if d in s.callers { CallerStepFrame(s, d, step); }
    case _ =>
  }

  lemma DispatcherReplies(l: Lane, shutdown: bool, aborted: bool, d: DispatcherStep, j: nat)
    requires j in DispatcherNext(l, shutdown, aborted, d).jobs
    requires DispatcherNext(l, shutdown, aborted, d).jobs[j].reply != ReplyClosed
    ensures j in l.jobs && DispatcherNext(l, shutdown, aborted, d).jobs[j].reply == l.jobs[j].reply
  {
  }

  /** A caller that a notification has woken looks again: it is done if no activity is
      left, and otherwise waits for the next notification. */
  lemma WokenCallersLookAgain(b: Bounds, actions: seq<Action>, c: nat)
    requires c in Run(b, actions).callers && Run(b, actions).callers[c].phase == Idling(Blocked(true))
    ensures var more := actions + [OfCaller(c, Wake)] + [OfCaller(c, Enable)] + [OfCaller(c, CheckIdle)];
      && c in Run(b, more).callers
      && Run(b, more).callers[c].phase ==
           if Run(b, actions).lane.count == 0 then Loading else Idling(Blocked(false))
  {
    var woken := actions + [OfCaller(c, Wake)];
    var enabled := woken + [OfCaller(c, Enable)];
    RunThen(b, actions, OfCaller(c, Wake));
    assert Run(b, woken) == SetPhase(Run(b, actions), c, Idling(Arriving));
    RunThen(b, woken, OfCaller(c, Enable));
    assert Run(b, enabled) == SetPhase(Run(b, woken), c, Idling(Enabled(false)));
    RunThen(b, enabled, OfCaller(c, CheckIdle));
  }

  /** An aborted dispatcher can end wherever it waits. */
  lemma AbortEndsTheWait(b: Bounds, actions: seq<Action>)
    requires Run(b, actions).aborted && Run(b, actions).lane.dispatcher in {Top, WantPermit, WantJob}
    ensures Run(b, actions + [OfDispatcher(EndAborted)]).lane.dispatcher == Stopped
  {
    RunThen(b, actions, OfDispatcher(EndAborted));
  }

  // ----- Shutdown can always report -----

  /** The steps of the dispatcher and of the callers: those of jobs, which may hang, are
      not among them. */
  datatype Prompt = ByDispatcher(d: DispatcherStep) | ByCaller(caller: nat, c: CallerStep)

  function AsAction(p: Prompt): Action {
    match p
    case ByDispatcher(d) => OfDispatcher(d)
    case ByCaller(caller, c) => OfCaller(caller, c)
  }

  function AsActions(ps: seq<Prompt>): seq<Action> {
    seq(|ps|, i requires 0 <= i < |ps| => AsAction(ps[i]))
  }

  function Steps(b: Bounds): (State, Prompt) -> State {
    (s, p) => Step(s, b, AsAction(p))
  }

  lemma {:induction false} RunOnRun(b: Bounds, actions: seq<Action>, ps: seq<Prompt>)
    ensures Run(b, actions + AsActions(ps)) == RunOn(Steps(b), Run(b, actions), ps)
  {
    if ps == [] {
      assert actions + AsActions(ps) == actions;
    } else {
      var front, last := ps[..|ps| - 1], ps[|ps| - 1];
      RunOnRun(b, actions, front);
      RunThen(b, actions + AsActions(front), AsAction(last));
      assert actions + AsActions(ps) == actions + AsActions(front) + [AsAction(last)];
    }
  }

  function CallerLeft(phase: Phase): nat {
    match phase
    case Closing => 7
    case Signalling => 6
    case Taking => 5
    case Joining => 4
    case Aborting => 3
    case Idling(_) => 2
    case Loading => 1
    case Reported(_) => 0
  }

  function DispatcherLeft(d: Dispatcher): nat {
    match d
    case TryJob => 5
    case Received(_) => 4
    case Counted(_) => 3
    case TryPermit => 2
    case Stopped => 0
    case _ => 1
  }

  /** What the dispatcher does next, once signalled, on its way to its end. */
  lemma DispatcherNears(s: State, b: Bounds) returns (d: DispatcherStep)
    requires QueueOk(s.lane, b) && s.shutdown && s.lane.dispatcher != Stopped
    ensures var s' := Step(s, b, OfDispatcher(d));
      s'.callers == s.callers && DispatcherLeft(s'.lane.dispatcher) < DispatcherLeft(s.lane.dispatcher)
  {
    d := match s.lane.dispatcher
         case Top => CheckShutdown
         case TryPermit => TakePermit
         case TryJob => Receive
         case Received(_) => CountUp
         case Counted(_) => SpawnJob
         case _ => PollShutdown;
  }

  function CallerNearing(s: State, phase: Phase): CallerStep {
    match phase
    case Closing => CloseLane
    case Signalling => Signal
    case Taking => TakeHandle
    case Joining => if s.lane.dispatcher == Stopped then JoinEnds else JoinTimesOut
    case Aborting => AbortEnds
    case Idling(_) => WaitTimesOut
    case _ => Load
  }

  lemma CallerNears(s: State, c: nat)
    requires c in s.callers && !s.callers[c].phase.Reported?
    requires s.callers[c].phase == Aborting ==> s.lane.dispatcher == Stopped
    ensures var s' := CallerNext(s, c, CallerNearing(s, s.callers[c].phase));
      c in s'.callers && CallerLeft(s'.callers[c].phase) < CallerLeft(s.callers[c].phase)
  {
  }

  ghost predicate Leads(b: Bounds, s: State, s': State) {
    LeadsTo(Steps(b), s, s') && Inv(s', b)
  }

  lemma LeadsOn(b: Bounds, s: State, p: Prompt)
    requires Inv(s, b)
    ensures Leads(b, s, Step(s, b, AsAction(p)))
  {
    StepKeeps(s, b, AsAction(p));
    StepLeads(Steps(b), s, p);
    assert Steps(b)(s, p) == Step(s, b, AsAction(p));
  }

  lemma Nears(b: Bounds, s: State, c: nat) returns (s': State)
    requires Inv(s, b) && c in s.callers && !s.callers[c].phase.Reported?
    ensures Leads(b, s, s') && c in s'.callers
    ensures CallerLeft(s'.callers[c].phase) < CallerLeft(s.callers[c].phase)
      || (s'.callers[c].phase == s.callers[c].phase
          && DispatcherLeft(s'.lane.dispatcher) < DispatcherLeft(s.lane.dispatcher))
  {
    assert CallerOk(s, s.callers[c]);
    if s.callers[c].phase == Aborting && s.lane.dispatcher != Stopped {
      var d := DispatcherNears(s, b);
      s' := Step(s, b, OfDispatcher(d));
      LeadsOn(b, s, ByDispatcher(d));
    } else {
      var step := CallerNearing(s, s.callers[c].phase);
      CallerNears(s, c);
      s' := Step(s, b, OfCaller(c, step));
      LeadsOn(b, s, ByCaller(c, step));
    }
  }

  lemma {:induction false} CallerCanReport(b: Bounds, s: State, c: nat) returns (s': State)
    requires Inv(s, b) && c in s.callers
    ensures Leads(b, s, s') && c in s'.callers && s'.callers[c].phase.Reported?
    decreases CallerLeft(s.callers[c].phase), DispatcherLeft(s.lane.dispatcher)
  {
    if s.callers[c].phase.Reported? {
      s' := s;
      LeadsNowhere(Steps(b), s);
    } else {
      var s1 := Nears(b, s, c);
      s' := CallerCanReport(b, s1, c);
      LeadsJoin(Steps(b), s, s1, s');
    }
  }

  /** Wherever a run stands, every call of shutdown can still report, even if no job takes
      another step. */
  lemma ShutdownCanReport(b: Bounds, actions: seq<Action>, c: nat) returns (more: seq<Prompt>)
    requires c in Run(b, actions).callers
    ensures var s := Run(b, actions + AsActions(more)); c in s.callers && s.callers[c].phase.Reported?
  {
    EveryRunKeepsInv(b, actions);
    var s' := CallerCanReport(b, Run(b, actions), c);
    more :| RunOn(Steps(b), Run(b, actions), more) == s';
    RunOnRun(b, actions, more);
  }
}
