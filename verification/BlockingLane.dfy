/** A lane for blocking work: a bounded queue, a dispatcher that takes a permit
    before a job, jobs that cannot be cancelled once started, and any number of
    callers of shutdown.  Each action is one atomic step of one task; any order of
    actions is a run. */
module BlockingLane {
  import opened Common

  /** Both are nonzero in the original. */
  datatype Bounds = Bounds(capacity: nat, concurrency: nat)

  // ----- State -----

  /** Each of the two selects polls the shutdown signal first: Want before, Try after. */
  datatype Dispatcher =
    | Top | WantPermit | TryPermit | WantJob | TryJob | Received(job: nat) | Counted(job: nat) | Stopped

  /** A job that finished drops its permit first, then its activity: the counter
      goes down, then the waiters are notified. */
  datatype Stage = Queued | Taken | Spawned | Executing | Finished | Unpermitted | Uncounted | Done | Discarded

  datatype Reply = Pending | Value | Panicked | ReplyClosed

  datatype Job = Job(stage: Stage, reply: Reply, starts: nat)

  type Jobs = map<nat, Job>

  /** The queue, the dispatcher and the jobs. */
  datatype Lane = Lane(queue: seq<nat>, dispatcher: Dispatcher, permits: nat, count: int, jobs: Jobs, next: nat)

  /** The loop of wait_until_idle. */
  datatype Waiter = Arriving | Enabled(notified: bool) | Blocked(notified: bool)

  /** How far a call of shutdown has got. */
  datatype Phase =
    | Closing | Signalling | Taking | Joining | Aborting | Idling(waiter: Waiter) | Loading | Reported(active: int)

  /** `took`: it found the dispatcher's handle; `stopped` is what it will report. */
  datatype Caller = Caller(took: bool, stopped: bool, phase: Phase)

  type Callers = map<nat, Caller>

  datatype State = State(closed: bool, shutdown: bool, aborted: bool, handle: bool, lane: Lane, callers: Callers)

  function Initial(b: Bounds): State {
    State(false, false, false, true, Lane([], Top, b.concurrency, 0, map[], 0), map[])
  }

  // ----- Steps -----

  datatype DispatcherStep = CheckShutdown | PollShutdown | TakePermit | Receive | CountUp | SpawnJob | EndAborted

  datatype JobStep = Begin | Finish(panicked: bool) | DropPermit | CountDown | Notify

  datatype CallerStep =
    | Enter | CloseLane | Signal | TakeHandle | JoinEnds | JoinTimesOut | AbortEnds
    | Enable | CheckIdle | Wake | WaitTimesOut | Load

  /** DropLane: the lane's own drop signals and aborts without waiting. */
  datatype Action =
    | Submit
    | OfDispatcher(d: DispatcherStep)
    | OfJob(job: nat, j: JobStep)
    | OfCaller(caller: nat, c: CallerStep)
    | DropLane

  datatype Admission = Accepted(job: nat) | Full | Closed

  function SubmitResult(s: State, b: Bounds): Admission {
    if s.closed then Closed
    else if s.lane.dispatcher == Stopped then Closed
    else if |s.lane.queue| >= b.capacity then Full
    else Accepted(s.lane.next)
  }

  function Enqueue(l: Lane): Lane {
    l.(queue := l.queue + [l.next], jobs := l.jobs[l.next := Job(Queued, Pending, 0)], next := l.next + 1)
  }

  /** Dropping the receiver drops the jobs still queued, and their reply senders. */
  function DiscardQueue(jobs: Jobs, queue: seq<nat>): Jobs {
    map j | j in jobs :: if j in queue then Job(Discarded, ReplyClosed, jobs[j].starts) else jobs[j]
  }

  function Stop(l: Lane): Lane {
    l.(dispatcher := Stopped, queue := [], jobs := DiscardQueue(l.jobs, l.queue),
       permits := if HoldsSpare(l.dispatcher) then l.permits + 1 else l.permits)
  }

  /** A permit taken for a job that is not counted yet. */
  predicate HoldsSpare(d: Dispatcher) {
    d == WantJob || d == TryJob || d.Received?
  }

  function SetStage(l: Lane, j: nat, stage: Stage): Lane
    requires j in l.jobs
  {
    l.(jobs := l.jobs[j := l.jobs[j].(stage := stage)])
  }

  function DispatcherNext(l: Lane, shutdown: bool, aborted: bool, step: DispatcherStep): Lane {
    match step
    case CheckShutdown =>
      if l.dispatcher != Top then l else if shutdown then Stop(l) else l.(dispatcher := WantPermit)
    case PollShutdown =>
      if l.dispatcher == WantPermit then (if shutdown then Stop(l) else l.(dispatcher := TryPermit))
      else if l.dispatcher == WantJob then (if shutdown then Stop(l) else l.(dispatcher := TryJob))
      else l
    case TakePermit =>
      if l.dispatcher != TryPermit then l
      else if l.permits == 0 then l.(dispatcher := WantPermit)
      else l.(dispatcher := WantJob, permits := l.permits - 1)
    case Receive =>
      if l.dispatcher != TryJob then l
      else if l.queue == [] || l.queue[0] !in l.jobs then l.(dispatcher := WantJob)
      else SetStage(l, l.queue[0], Taken).(dispatcher := Received(l.queue[0]), queue := l.queue[1..])
    case CountUp =>
      if l.dispatcher.Received? then l.(dispatcher := Counted(l.dispatcher.job), count := l.count + 1) else l
    case SpawnJob =>
      if l.dispatcher.Counted? && l.dispatcher.job in l.jobs
      then SetStage(l, l.dispatcher.job, Spawned).(dispatcher := Top) else l
    // An abort takes effect where the task awaits, or before it first runs.
    case EndAborted =>
      if aborted && (l.dispatcher == Top || l.dispatcher == WantPermit || l.dispatcher == WantJob) then Stop(l) else l
  }

  function JobNext(l: Lane, j: nat, step: JobStep): Lane
    requires j in l.jobs
  {
    var job := l.jobs[j];
    match step
    case Begin =>
      if job.stage == Spawned then l.(jobs := l.jobs[j := job.(stage := Executing, starts := job.starts + 1)]) else l
    case Finish(panicked) =>
      if job.stage == Executing
      then l.(jobs := l.jobs[j := job.(stage := Finished, reply := if panicked then Panicked else Value)]) else l
    case DropPermit => if job.stage == Finished then SetStage(l, j, Unpermitted).(permits := l.permits + 1) else l
    case CountDown => if job.stage == Unpermitted then SetStage(l, j, Uncounted).(count := l.count - 1) else l
    case Notify => if job.stage == Uncounted then SetStage(l, j, Done) else l
  }

  function Notified(caller: Caller): Caller {
    match caller.phase
    case Idling(Enabled(_)) => caller.(phase := Idling(Enabled(true)))
    case Idling(Blocked(_)) => caller.(phase := Idling(Blocked(true)))
    case _ => caller
  }

  function NotifyAll(callers: Callers): Callers {
    map c | c in callers :: Notified(callers[c])
  }

  function SetPhase(s: State, c: nat, phase: Phase): State
    requires c in s.callers
  {
    s.(callers := s.callers[c := s.callers[c].(phase := phase)])
  }

  function CallerNext(s: State, c: nat, step: CallerStep): State
    requires c in s.callers
  {
    var caller, phase := s.callers[c], s.callers[c].phase;
    match step
    case Enter => s
    case CloseLane => if phase == Closing then SetPhase(s, c, Signalling).(closed := true) else s
    case Signal => if phase == Signalling then SetPhase(s, c, Taking).(shutdown := true) else s
    case TakeHandle =>
      if phase != Taking then s
      else if s.handle then s.(callers := s.callers[c := caller.(took := true, phase := Joining)], handle := false)
      else SetPhase(s, c, Idling(Arriving))
    case JoinEnds =>
      if phase == Joining && s.lane.dispatcher == Stopped then SetPhase(s, c, Idling(Arriving)) else s
    case JoinTimesOut =>
      if phase == Joining && s.lane.dispatcher != Stopped
      then s.(callers := s.callers[c := caller.(stopped := false, phase := Aborting)], aborted := true) else s
    case AbortEnds =>
      if phase == Aborting && s.lane.dispatcher == Stopped then SetPhase(s, c, Idling(Arriving)) else s
    case Enable => if phase == Idling(Arriving) then SetPhase(s, c, Idling(Enabled(false))) else s
    case CheckIdle =>
      if phase.Idling? && phase.waiter.Enabled?
      then SetPhase(s, c, if s.lane.count == 0 then Loading else Idling(Blocked(phase.waiter.notified))) else s
    case Wake => if phase == Idling(Blocked(true)) then SetPhase(s, c, Idling(Arriving)) else s
    case WaitTimesOut => if phase.Idling? then SetPhase(s, c, Loading) else s
    case Load => if phase == Loading then SetPhase(s, c, Reported(s.lane.count)) else s
  }

  function Step(s: State, b: Bounds, a: Action): State {
    match a
    case Submit => if SubmitResult(s, b).Accepted? then s.(lane := Enqueue(s.lane)) else s
    case OfDispatcher(d) => s.(lane := DispatcherNext(s.lane, s.shutdown, s.aborted, d))
    case OfJob(j, step) =>
      if j !in s.lane.jobs then s
      else
        var notifies := step.Notify? && s.lane.jobs[j].stage == Uncounted;
        s.(lane := JobNext(s.lane, j, step), callers := if notifies then NotifyAll(s.callers) else s.callers)
    case OfCaller(c, step) =>
      if c in s.callers then CallerNext(s, c, step)
      else if step.Enter? then s.(callers := s.callers[c := Caller(false, true, Closing)])
      else s
    case DropLane => s.(shutdown := true, aborted := true, handle := false)
  }

  function Run(b: Bounds, actions: seq<Action>): State {
    if actions == [] then Initial(b)
    else Step(Run(b, actions[..|actions| - 1]), b, actions[|actions| - 1])
  }

  // ----- The invariant of the lane -----

  predicate HoldsPermit(stage: Stage) {
    stage == Spawned || stage == Executing || stage == Finished
  }

  predicate IsActive(stage: Stage) {
    HoldsPermit(stage) || stage == Unpermitted
  }

  predicate HasRun(stage: Stage) {
    stage == Finished || stage == Unpermitted || stage == Uncounted || stage == Done
  }

  function InStage(jobs: Jobs, stage: Stage): set<nat> {
    set j | j in jobs && jobs[j].stage == stage
  }

  function PermitHolders(jobs: Jobs): set<nat> {
    set j | j in jobs && HoldsPermit(jobs[j].stage)
  }

  function ActiveJobs(jobs: Jobs): set<nat> {
    set j | j in jobs && IsActive(jobs[j].stage)
  }

  /** Permits are conserved, and the counter counts. */
  ghost predicate Counters(l: Lane, b: Bounds) {
    && l.permits + (if HoldsSpare(l.dispatcher) || l.dispatcher.Counted? then 1 else 0) + |PermitHolders(l.jobs)|
       == b.concurrency
    && l.count == |ActiveJobs(l.jobs)| + (if l.dispatcher.Counted? then 1 else 0)
  }

  predicate Holds(d: Dispatcher, j: nat) {
    (d.Received? || d.Counted?) && d.job == j
  }

  ghost predicate JobOk(j: nat, job: Job, l: Lane) {
    && (job.stage == Queued <==> j in l.queue)
    && (job.stage == Taken <==> Holds(l.dispatcher, j))
    && (job.reply == ReplyClosed <==> job.stage == Discarded)
    && (job.reply == Value || job.reply == Panicked <==> HasRun(job.stage))
    && job.starts == if job.stage == Executing || HasRun(job.stage) then 1 else 0
  }

  ghost predicate QueueOk(l: Lane, b: Bounds) {
    && |l.queue| <= b.capacity
    && (forall i, k :: 0 <= i < k < |l.queue| ==> l.queue[i] != l.queue[k])
    && (forall i :: 0 <= i < |l.queue| ==> l.queue[i] in l.jobs)
    && (l.dispatcher == Stopped ==> l.queue == [])
    && (l.dispatcher.Received? || l.dispatcher.Counted? ==> l.dispatcher.job in l.jobs)
  }

  ghost predicate AllJobsOk(l: Lane) {
    forall j :: j in l.jobs ==> JobOk(j, l.jobs[j], l) && j < l.next
  }

  ghost predicate LaneInv(l: Lane, b: Bounds) {
    Counters(l, b) && QueueOk(l, b) && AllJobsOk(l)
  }

  lemma SetsAfter(jobs: Jobs, j: nat, job: Job)
    ensures var had, has := j in jobs && HoldsPermit(jobs[j].stage), HoldsPermit(job.stage);
      |PermitHolders(jobs[j := job])| + (if had then 1 else 0) == |PermitHolders(jobs)| + if has then 1 else 0
    ensures var was, now := j in jobs && IsActive(jobs[j].stage), IsActive(job.stage);
      |ActiveJobs(jobs[j := job])| + (if was then 1 else 0) == |ActiveJobs(jobs)| + if now then 1 else 0
  {
    SizeChange(PermitHolders(jobs), PermitHolders(jobs[j := job]), j);
    SizeChange(ActiveJobs(jobs), ActiveJobs(jobs[j := job]), j);
  }

  lemma EnqueueKeeps(l: Lane, b: Bounds)
    requires LaneInv(l, b) && |l.queue| < b.capacity && l.dispatcher != Stopped
    ensures LaneInv(Enqueue(l), b)
  {
    var l' := Enqueue(l);
    assert l.next !in l.jobs;
    SetsAfter(l.jobs, l.next, Job(Queued, Pending, 0));
    assert forall j :: j in l'.queue <==> j in l.queue || j == l.next;
    forall j | j in l'.jobs ensures JobOk(j, l'.jobs[j], l') && j < l'.next {
      assert j in l.jobs ==> JobOk(j, l.jobs[j], l);
    }
  }

  lemma ReceiveKeepsQueue(l: Lane, b: Bounds)
    requires QueueOk(l, b) && AllJobsOk(l) && l.dispatcher == TryJob && l.queue != []
    ensures var l' := DispatcherNext(l, false, false, Receive);
      QueueOk(l', b) && (forall k :: k in l'.queue <==> k in l.queue && k != l.queue[0])
  {
    var l' := DispatcherNext(l, false, false, Receive);
    assert l.queue == [l.queue[0]] + l'.queue;
  }

  lemma ReceiveKeepsJobs(l: Lane, b: Bounds)
    requires QueueOk(l, b) && AllJobsOk(l) && l.dispatcher == TryJob && l.queue != []
    ensures AllJobsOk(DispatcherNext(l, false, false, Receive))
  {
    var l' := DispatcherNext(l, false, false, Receive);
    var j := l.queue[0];
    ReceiveKeepsQueue(l, b);
    assert JobOk(j, l.jobs[j], l);
    forall k | k in l'.jobs ensures JobOk(k, l'.jobs[k], l') && k < l'.next {
      assert JobOk(k, l.jobs[k], l);
    }
  }

  lemma ReceiveKeeps(l: Lane, b: Bounds)
    requires LaneInv(l, b) && l.dispatcher == TryJob && l.queue != []
    ensures LaneInv(DispatcherNext(l, false, false, Receive), b)
  {
    var j := l.queue[0];
    assert JobOk(j, l.jobs[j], l);
    SetsAfter(l.jobs, j, l.jobs[j].(stage := Taken));
    ReceiveKeepsQueue(l, b);
    ReceiveKeepsJobs(l, b);
  }

  lemma StopKeepsJobs(l: Lane, b: Bounds)
    requires QueueOk(l, b) && AllJobsOk(l) && !l.dispatcher.Received? && !l.dispatcher.Counted?
    ensures AllJobsOk(Stop(l)) && QueueOk(Stop(l), b)
  {
    var l' := Stop(l);
    forall j | j in l'.jobs ensures JobOk(j, l'.jobs[j], l') && j < l'.next {
      assert JobOk(j, l.jobs[j], l);
    }
  }

  lemma StopKeeps(l: Lane, b: Bounds)
    requires LaneInv(l, b) && !l.dispatcher.Received? && !l.dispatcher.Counted?
    ensures LaneInv(Stop(l), b)
  {
    var l' := Stop(l);
    StopKeepsJobs(l, b);
    assert forall j :: j in l.jobs ==> JobOk(j, l.jobs[j], l);
    assert PermitHolders(l'.jobs) == PermitHolders(l.jobs);
    assert ActiveJobs(l'.jobs) == ActiveJobs(l.jobs);
  }

  lemma SpawnKeeps(l: Lane, b: Bounds)
    requires LaneInv(l, b) && l.dispatcher.Counted?
    ensures LaneInv(DispatcherNext(l, false, false, SpawnJob), b)
  {
    var l' := DispatcherNext(l, false, false, SpawnJob);
    var j := l.dispatcher.job;
    assert JobOk(j, l.jobs[j], l);
    SetsAfter(l.jobs, j, l.jobs[j].(stage := Spawned));
    forall k | k in l'.jobs ensures JobOk(k, l'.jobs[k], l') && k < l'.next {
      assert JobOk(k, l.jobs[k], l);
    }
  }

  /** The dispatcher changes state and nothing that a job or the queue depends on. */
  lemma MovesKeep(l: Lane, l': Lane, b: Bounds)
    requires LaneInv(l, b)
    requires l' == l.(dispatcher := l'.dispatcher, permits := l'.permits, count := l'.count)
    requires Counters(l', b) && l.dispatcher != Stopped && l'.dispatcher != Stopped
    requires forall j :: Holds(l'.dispatcher, j) <==> Holds(l.dispatcher, j)
    ensures LaneInv(l', b)
  {
    forall j | j in l'.jobs ensures JobOk(j, l'.jobs[j], l') && j < l'.next {
      assert JobOk(j, l.jobs[j], l);
    }
    if l'.dispatcher.Received? || l'.dispatcher.Counted? {
      assert Holds(l'.dispatcher, l'.dispatcher.job);
    }
  }

  lemma DispatcherKeeps(l: Lane, b: Bounds, shutdown: bool, aborted: bool, step: DispatcherStep)
    requires LaneInv(l, b)
    ensures LaneInv(DispatcherNext(l, shutdown, aborted, step), b)
  {
    var l' := DispatcherNext(l, shutdown, aborted, step);
    if l' == l {
    } else if l'.dispatcher == Stopped {
      StopKeeps(l, b);
    } else if step == Receive && l.queue != [] {
      ReceiveKeeps(l, b);
    } else if step == SpawnJob {
      SpawnKeeps(l, b);
    } else {
      MovesKeep(l, l', b);
    }
  }

  /** The next stage of a job on the pool, for the step that is due to it. */
  predicate Moves(job: Job, job': Job, step: JobStep) {
    match step
    case Begin => job.stage == Spawned && job' == job.(stage := Executing, starts := job.starts + 1)
    case Finish(panicked) =>
      job.stage == Executing && job' == job.(stage := Finished, reply := if panicked then Panicked else Value)
    case DropPermit => job.stage == Finished && job' == job.(stage := Unpermitted)
    case CountDown => job.stage == Unpermitted && job' == job.(stage := Uncounted)
    case Notify => job.stage == Uncounted && job' == job.(stage := Done)
  }

  lemma MoveKeepsJob(j: nat, job: Job, job': Job, l: Lane, step: JobStep)
    requires JobOk(j, job, l) && Moves(job, job', step)
    ensures JobOk(j, job', l)
  {
  }

  lemma JobFrame(l: Lane, j: nat, step: JobStep)
    requires j in l.jobs
    ensures var l' := JobNext(l, j, step);
      l' == l || (j in l'.jobs && Moves(l.jobs[j], l'.jobs[j], step) && l'.jobs == l.jobs[j := l'.jobs[j]]
                  && l'.queue == l.queue && l'.dispatcher == l.dispatcher && l'.next == l.next
                  && l'.permits == l.permits + (if step == DropPermit then 1 else 0)
                  && l'.count == l.count - (if step == CountDown then 1 else 0))
  {
  }

  lemma JobKeepsJobs(l: Lane, j: nat, step: JobStep)
    requires AllJobsOk(l) && j in l.jobs
    ensures AllJobsOk(JobNext(l, j, step))
  {
    var l' := JobNext(l, j, step);
    JobFrame(l, j, step);
    if l' != l {
      MoveKeepsJob(j, l.jobs[j], l'.jobs[j], l, step);
      forall k | k in l'.jobs ensures JobOk(k, l'.jobs[k], l') && k < l'.next {
        assert JobOk(k, l.jobs[k], l);
      }
    }
  }

  lemma JobKeeps(l: Lane, b: Bounds, j: nat, step: JobStep)
    requires LaneInv(l, b) && j in l.jobs
    ensures LaneInv(JobNext(l, j, step), b)
  {
    JobFrame(l, j, step);
    JobKeepsJobs(l, j, step);
    SetsAfter(l.jobs, j, JobNext(l, j, step).jobs[j]);
  }

  // ----- The invariant of the callers -----

  /** A caller that sleeps unnotified still has a notification coming. */
  ghost predicate NoLostWakeup(l: Lane, caller: Caller) {
    caller.phase == Idling(Blocked(false)) ==> l.count > 0 || InStage(l.jobs, Uncounted) != {}
  }

  predicate PastJoin(phase: Phase) {
    phase.Idling? || phase.Loading? || phase.Reported?
  }

  ghost predicate CallerOk(s: State, caller: Caller) {
    && (caller.phase != Closing ==> s.closed)
    && (caller.phase != Closing && caller.phase != Signalling ==> s.shutdown)
    && (caller.took && PastJoin(caller.phase) ==> s.lane.dispatcher == Stopped)
    && (caller.took ==> caller.phase == Joining || caller.phase == Aborting || PastJoin(caller.phase))
    && (!caller.stopped || caller.phase == Joining || caller.phase == Aborting ==> caller.took)
    && (caller.took && caller.phase == Reported(0) ==> s.lane.count == 0)
    && NoLostWakeup(s.lane, caller)
  }

  ghost predicate CallersOk(s: State) {
    && (forall c :: c in s.callers ==> CallerOk(s, s.callers[c]))
    && (forall c :: c in s.callers && s.callers[c].took ==> !s.handle)
    && (forall c, d :: c in s.callers && d in s.callers && s.callers[c].took && s.callers[d].took ==> c == d)
  }

  ghost predicate Inv(s: State, b: Bounds) {
    LaneInv(s.lane, b) && CallersOk(s)
  }

  /** What a change of the lane must leave to its callers. */
  ghost predicate LaneGoesOn(l: Lane, l': Lane) {
    && (l.dispatcher == Stopped ==> l'.dispatcher == Stopped && (l.count == 0 ==> l'.count == 0))
    && (l.count > 0 || InStage(l.jobs, Uncounted) != {} ==> l'.count > 0 || InStage(l'.jobs, Uncounted) != {})
  }

  lemma LaneChangeKeepsCallers(s: State, l': Lane)
    requires CallersOk(s) && LaneGoesOn(s.lane, l')
    ensures CallersOk(s.(lane := l'))
  {
    var s' := s.(lane := l');
    forall c | c in s'.callers ensures CallerOk(s', s'.callers[c]) {
      assert CallerOk(s, s.callers[c]);
    }
  }

  lemma UncountedStays(l: Lane, l': Lane)
    requires forall j :: j in l.jobs && l.jobs[j].stage == Uncounted ==> j in l'.jobs && l'.jobs[j].stage == Uncounted
    ensures InStage(l.jobs, Uncounted) != {} ==> InStage(l'.jobs, Uncounted) != {}
  {
    assert InStage(l.jobs, Uncounted) <= InStage(l'.jobs, Uncounted);
  }

  lemma DispatcherGoesOn(l: Lane, b: Bounds, shutdown: bool, aborted: bool, step: DispatcherStep)
    requires LaneInv(l, b)
    ensures LaneGoesOn(l, DispatcherNext(l, shutdown, aborted, step))
  {
    var l' := DispatcherNext(l, shutdown, aborted, step);
    forall j | j in l.jobs && l.jobs[j].stage == Uncounted ensures j in l'.jobs && l'.jobs[j].stage == Uncounted {
      assert JobOk(j, l.jobs[j], l);
    }
    UncountedStays(l, l');
  }

  lemma EnqueueGoesOn(l: Lane)
    requires AllJobsOk(l)
    ensures LaneGoesOn(l, Enqueue(l))
  {
    UncountedStays(l, Enqueue(l));
  }

  lemma JobGoesOn(l: Lane, b: Bounds, j: nat, step: JobStep)
    requires LaneInv(l, b) && j in l.jobs && !(step.Notify? && l.jobs[j].stage == Uncounted)
    ensures LaneGoesOn(l, JobNext(l, j, step))
  {
    var l' := JobNext(l, j, step);
    JobFrame(l, j, step);
    if l' != l {
      UncountedStays(l, l');
      if step == CountDown {
        assert j in ActiveJobs(l.jobs);
        assert j in InStage(l'.jobs, Uncounted);
      }
    }
  }

  lemma NotifiedOk(s: State, s': State, caller: Caller)
    requires CallerOk(s, caller) && s'.closed == s.closed && s'.shutdown == s.shutdown
    requires s'.lane.dispatcher == s.lane.dispatcher && s'.lane.count == s.lane.count
    ensures CallerOk(s', Notified(caller)) && Notified(caller).took == caller.took
  {
  }

  lemma NotifyKeepsCallers(s: State, j: nat)
    requires CallersOk(s) && j in s.lane.jobs
    ensures CallersOk(s.(lane := JobNext(s.lane, j, Notify), callers := NotifyAll(s.callers)))
  {
    var s' := s.(lane := JobNext(s.lane, j, Notify), callers := NotifyAll(s.callers));
    JobFrame(s.lane, j, Notify);
    forall c | c in s'.callers ensures CallerOk(s', s'.callers[c]) && s'.callers[c].took == s.callers[c].took {
      NotifiedOk(s, s', s.callers[c]);
    }
  }

  /** What one step of shutdown touches. */
  ghost predicate CallerFrame(s: State, s': State, c: nat)
    requires c in s.callers
  {
    && c in s'.callers && s'.callers == s.callers[c := s'.callers[c]] && s'.lane == s.lane
    && (s.closed ==> s'.closed) && (s.shutdown ==> s'.shutdown) && (s'.handle ==> s.handle)
    && (s'.callers[c].took ==> s.callers[c].took || (s.handle && !s'.handle))
  }

  lemma CallerStepFrame(s: State, c: nat, step: CallerStep)
    requires c in s.callers
    ensures CallerFrame(s, CallerNext(s, c, step), c)
  {
    var s' := CallerNext(s, c, step);
    if s' != s {
      assert s'.callers == s.callers[c := s'.callers[c]];
    } else {
      assert s.callers == s.callers[c := s.callers[c]];
    }
  }

  lemma CallerStepOk(s: State, c: nat, step: CallerStep)
    requires c in s.callers && s.lane.count >= 0 && CallerOk(s, s.callers[c])
    ensures var s' := CallerNext(s, c, step); c in s'.callers && CallerOk(s', s'.callers[c])
  {
  }

  lemma CallerKeeps(s: State, c: nat, step: CallerStep)
    requires CallersOk(s) && c in s.callers && s.lane.count >= 0
    ensures CallersOk(CallerNext(s, c, step))
  {
    CallerStepFrame(s, c, step);
    CallerStepOk(s, c, step);
    FrameKeepsCallers(s, CallerNext(s, c, step), c);
  }

  lemma FrameKeepsCallers(s: State, s': State, c: nat)
    requires CallersOk(s) && c in s.callers && CallerFrame(s, s', c) && CallerOk(s', s'.callers[c])
    ensures CallersOk(s')
  {
    forall d | d in s'.callers ensures CallerOk(s', s'.callers[d]) {
      assert CallerOk(s, s.callers[d]);
    }
  }

  lemma SubmitKeeps(s: State, b: Bounds)
    requires Inv(s, b) && SubmitResult(s, b).Accepted?
    ensures Inv(s.(lane := Enqueue(s.lane)), b)
  {
    EnqueueKeeps(s.lane, b);
    EnqueueGoesOn(s.lane);
    LaneChangeKeepsCallers(s, Enqueue(s.lane));
  }

  lemma DispatcherStepKeeps(s: State, b: Bounds, step: DispatcherStep)
    requires Inv(s, b)
    ensures Inv(s.(lane := DispatcherNext(s.lane, s.shutdown, s.aborted, step)), b)
  {
    DispatcherKeeps(s.lane, b, s.shutdown, s.aborted, step);
    DispatcherGoesOn(s.lane, b, s.shutdown, s.aborted, step);
    LaneChangeKeepsCallers(s, DispatcherNext(s.lane, s.shutdown, s.aborted, step));
  }

  lemma CallerStepKeeps(s: State, b: Bounds, c: nat, step: CallerStep)
    requires Inv(s, b)
    ensures Inv(Step(s, b, OfCaller(c, step)), b)
  {
    if c in s.callers {
      CallerKeeps(s, c, step);
      CallerStepFrame(s, c, step);
    } else {
      EnterKeeps(s, b, c);
    }
  }

  lemma DropKeeps(s: State, b: Bounds)
    requires Inv(s, b)
    ensures Inv(Step(s, b, DropLane), b)
  {
    assert forall c :: c in s.callers ==> CallerOk(s, s.callers[c]);
  }

  lemma StepKeeps(s: State, b: Bounds, a: Action)
    requires Inv(s, b)
    ensures Inv(Step(s, b, a), b)
  {
    match a
    case Submit => if SubmitResult(s, b).Accepted? { SubmitKeeps(s, b); }
    case OfDispatcher(d) => DispatcherStepKeeps(s, b, d);
    case OfJob(j, step) => if j in s.lane.jobs { JobStepKeeps(s, b, j, step); }
    case OfCaller(c, step) => CallerStepKeeps(s, b, c, step);
    case DropLane => DropKeeps(s, b);
  }

  lemma EnterKeeps(s: State, b: Bounds, c: nat)
    requires Inv(s, b) && c !in s.callers
    ensures Inv(s.(callers := s.callers[c := Caller(false, true, Closing)]), b)
  {
    assert forall d :: d in s.callers ==> CallerOk(s, s.callers[d]);
  }

  lemma JobStepKeeps(s: State, b: Bounds, j: nat, step: JobStep)
    requires Inv(s, b) && j in s.lane.jobs
    ensures Inv(Step(s, b, OfJob(j, step)), b)
  {
    JobKeeps(s.lane, b, j, step);
    if step.Notify? && s.lane.jobs[j].stage == Uncounted {
      NotifyKeepsCallers(s, j);
    } else {
      JobGoesOn(s.lane, b, j, step);
      LaneChangeKeepsCallers(s, JobNext(s.lane, j, step));
    }
  }

  lemma {:induction false} EveryRunKeepsInv(b: Bounds, actions: seq<Action>)
    ensures Inv(Run(b, actions), b)
  {
    if actions != [] {
      EveryRunKeepsInv(b, actions[..|actions| - 1]);
      StepKeeps(Run(b, actions[..|actions| - 1]), b, actions[|actions| - 1]);
    }
  }

  // ----- What the lane promises -----

  function Unfinished(jobs: Jobs): set<nat> {
    set j | j in jobs && (jobs[j].stage == Queued || jobs[j].stage == Taken || HoldsPermit(jobs[j].stage))
  }

  /** Executing jobs never exceed the concurrency; accepted jobs not yet finished
      never exceed capacity plus concurrency; the counter never goes below zero. */
  lemma WorkIsBounded(b: Bounds, actions: seq<Action>)
    ensures var l := Run(b, actions).lane;
      && |InStage(l.jobs, Executing)| <= b.concurrency
      && |Unfinished(l.jobs)| <= b.capacity + b.concurrency
      && l.count >= 0
  {
    var l := Run(b, actions).lane;
    EveryRunKeepsInv(b, actions);
    SubsetSize(InStage(l.jobs, Executing), PermitHolders(l.jobs));
    var queued := set i | 0 <= i < |l.queue| :: l.queue[i];
    QueueSize(l.queue);
    var taken := if l.dispatcher.Received? || l.dispatcher.Counted? then {l.dispatcher.job} else {};
    forall j | j in Unfinished(l.jobs) ensures j in queued + taken + PermitHolders(l.jobs) {
      assert JobOk(j, l.jobs[j], l);
    }
    SubsetSize(Unfinished(l.jobs), queued + taken + PermitHolders(l.jobs));
    UnionSize(queued + taken, PermitHolders(l.jobs));
    UnionSize(queued, taken);
  }

  lemma UnionSize(a: set<nat>, b: set<nat>)
    ensures |a + b| <= |a| + |b|
  {
    assert a + b == a + (b - a);
    SubsetSize(b - a, b);
  }

  lemma {:induction false} QueueSize(q: seq<nat>)
    ensures |set i | 0 <= i < |q| :: q[i]| <= |q|
  {
    if q != [] {
      var front := q[..|q| - 1];
      QueueSize(front);
      var all, fewer := set i | 0 <= i < |q| :: q[i], set i | 0 <= i < |front| :: front[i];
      assert all == fewer + {q[|q| - 1]};
      UnionSize(fewer, {q[|q| - 1]});
    }
  }

  /** The activity count, exactly.  It exceeds the concurrency exactly when the jobs
      that have given their permit back and still count outnumber the free permits
      and the one the dispatcher holds for a job not counted yet. */
  lemma CountIsExact(b: Bounds, actions: seq<Action>)
    ensures var l := Run(b, actions).lane;
      var spare, finishing := l.permits + (if HoldsSpare(l.dispatcher) then 1 else 0), |InStage(l.jobs, Unpermitted)|;
      && l.count == b.concurrency - spare + finishing
      && (l.count > b.concurrency <==> finishing > spare)
  {
    var l := Run(b, actions).lane;
    EveryRunKeepsInv(b, actions);
    assert ActiveJobs(l.jobs) == PermitHolders(l.jobs) + InStage(l.jobs, Unpermitted);
    assert PermitHolders(l.jobs) !! InStage(l.jobs, Unpermitted);
  }

  /** Every accepted job starts at most once.  Its caller is told Closed exactly
      when the job was dropped from the queue, and then it never started; a caller
      told anything else had its job run to the end. */
  lemma CallersLearnTheTruth(b: Bounds, actions: seq<Action>, j: nat)
    requires j in Run(b, actions).lane.jobs
    ensures var job := Run(b, actions).lane.jobs[j];
      && job.starts <= 1
      && (job.reply == ReplyClosed <==> job.stage == Discarded)
      && (job.reply == ReplyClosed ==> job.starts == 0)
      && (job.reply == Value || job.reply == Panicked ==> job.starts == 1 && HasRun(job.stage))
      && (HasRun(job.stage) ==> job.reply == Value || job.reply == Panicked)
  {
    EveryRunKeepsInv(b, actions);
    var l := Run(b, actions).lane;
    assert JobOk(j, l.jobs[j], l);
  }

  lemma DiscardedStays(s: State, b: Bounds, a: Action, j: nat)
    requires LaneInv(s.lane, b) && j in s.lane.jobs && s.lane.jobs[j].stage == Discarded
    ensures j in Step(s, b, a).lane.jobs && Step(s, b, a).lane.jobs[j] == s.lane.jobs[j]
  {
    assert JobOk(j, s.lane.jobs[j], s.lane) && j < s.lane.next;
    match a
    case OfJob(k, step) => if k in s.lane.jobs { JobFrame(s.lane, k, step); }
    case OfDispatcher(d) => DiscardedByDispatcher(s.lane, s.shutdown, s.aborted, d, j);
    case OfCaller(c, step) => if c in s.callers { CallerStepFrame(s, c, step); }
    case _ =>
  }

  lemma DiscardedByDispatcher(l: Lane, shutdown: bool, aborted: bool, step: DispatcherStep, j: nat)
    requires j in l.jobs && l.jobs[j].stage == Discarded && JobOk(j, l.jobs[j], l)
    ensures var l' := DispatcherNext(l, shutdown, aborted, step); j in l'.jobs && l'.jobs[j] == l.jobs[j]
  {
  }

  /** A job whose caller was told Closed is never run later either. */
  lemma {:induction false} ClosedIsFinal(b: Bounds, actions: seq<Action>, n: nat, j: nat)
    requires n <= |actions| && j in Run(b, actions[..n]).lane.jobs
    requires Run(b, actions[..n]).lane.jobs[j].reply == ReplyClosed
    ensures j in Run(b, actions).lane.jobs && Run(b, actions).lane.jobs[j] == Run(b, actions[..n]).lane.jobs[j]
    decreases |actions|
  {
    if n < |actions| {
      var front := actions[..|actions| - 1];
      assert front[..n] == actions[..n];
      ClosedIsFinal(b, front, n, j);
      EveryRunKeepsInv(b, front);
      var s := Run(b, front);
      assert JobOk(j, s.lane.jobs[j], s.lane);
      DiscardedStays(s, b, actions[|actions| - 1], j);
    } else {
      assert actions[..n] == actions;
    }
  }

  // ----- After shutdown -----

  predicate MayHaveRun(jobs: Jobs, j: nat) {
    j in jobs && (jobs[j].starts > 0 || jobs[j].stage == Spawned)
  }

  lemma StoppedStep(s: State, b: Bounds, a: Action)
    requires s.lane.dispatcher == Stopped
    ensures Step(s, b, a).lane.dispatcher == Stopped
    ensures forall j :: MayHaveRun(Step(s, b, a).lane.jobs, j) ==> MayHaveRun(s.lane.jobs, j)
  {
    if a.OfJob? && a.job in s.lane.jobs {
      JobFrame(s.lane, a.job, a.j);
    } else {
      assert Step(s, b, a).lane == s.lane;
    }
  }

  /** Once the dispatcher has stopped, no job runs but those already on the pool. */
  lemma {:induction false} NothingStartsAfterStop(b: Bounds, actions: seq<Action>, n: nat, j: nat)
    requires n <= |actions| && Run(b, actions[..n]).lane.dispatcher == Stopped
    ensures Run(b, actions).lane.dispatcher == Stopped
    ensures MayHaveRun(Run(b, actions).lane.jobs, j) ==> MayHaveRun(Run(b, actions[..n]).lane.jobs, j)
    decreases |actions|
  {
    if n < |actions| {
      var front := actions[..|actions| - 1];
      assert front[..n] == actions[..n];
      NothingStartsAfterStop(b, front, n, j);
      StoppedStep(Run(b, front), b, actions[|actions| - 1]);
    } else {
      assert actions[..n] == actions;
    }
  }

  /** The dispatcher is past every look at the signal and has, or will get, a job. */
  predicate WillDispatch(l: Lane) {
    l.dispatcher.Received? || l.dispatcher.Counted? || (l.dispatcher == TryJob && l.queue != [])
  }

  /** Shut down, with no activity counted and no job on its way. */
  ghost predicate Settled(s: State) {
    s.closed && s.shutdown && s.lane.count == 0 && !WillDispatch(s.lane)
  }

  function Started(jobs: Jobs): set<nat> {
    set j | j in jobs && jobs[j].starts > 0
  }

  lemma IdleLaneHasNoActivity(l: Lane, b: Bounds, j: nat)
    requires LaneInv(l, b) && l.count == 0 && j in l.jobs
    ensures !IsActive(l.jobs[j].stage)
  {
    assert ActiveJobs(l.jobs) == {};
    assert j !in ActiveJobs(l.jobs);
  }

  lemma SettledDispatcher(l: Lane, b: Bounds, aborted: bool, step: DispatcherStep)
    requires LaneInv(l, b) && l.count == 0 && !WillDispatch(l)
    ensures var l' := DispatcherNext(l, true, aborted, step);
      l'.count == 0 && !WillDispatch(l') && Started(l'.jobs) == Started(l.jobs)
  {
  }

  lemma SettledStep(s: State, b: Bounds, a: Action)
    requires Inv(s, b) && Settled(s)
    ensures Settled(Step(s, b, a)) && Started(Step(s, b, a).lane.jobs) == Started(s.lane.jobs)
  {
    match a
    case OfDispatcher(d) => SettledDispatcher(s.lane, b, s.aborted, d);
    case OfJob(j, step) =>
      if j in s.lane.jobs {
        IdleLaneHasNoActivity(s.lane, b, j);
        JobFrame(s.lane, j, step);
      }
    case OfCaller(c, step) => if c in s.callers { CallerStepFrame(s, c, step); }
    case _ =>
  }

  lemma {:induction false} SettledIsFinal(b: Bounds, before: seq<Action>, more: seq<Action>)
    requires Settled(Run(b, before))
    ensures Settled(Run(b, before + more))
    ensures Started(Run(b, before + more).lane.jobs) == Started(Run(b, before).lane.jobs)
    decreases |more|
  {
    if more == [] {
      assert before + more == before;
    } else {
      var front, last := more[..|more| - 1], more[|more| - 1];
      SettledIsFinal(b, before, front);
      EveryRunKeepsInv(b, before + front);
      var all := Then(b, before + front, last);
      assert all == before + more;
      SettledStep(Run(b, before + front), b, last);
    }
  }

  /** One more job starts, some time after `before`. */
  ghost predicate LaterStart(b: Bounds, before: seq<Action>, more: seq<Action>) {
    Started(Run(b, before + more).lane.jobs) != Started(Run(b, before).lane.jobs)
  }

  lemma Then(b: Bounds, actions: seq<Action>, a: Action) returns (more: seq<Action>)
    ensures more == actions + [a]
    ensures Run(b, more) == Step(Run(b, actions), b, a)
  {
    more := actions + [a];
    assert more[..|more| - 1] == actions;
  }

  lemma HeldJobStarts(b: Bounds, before: seq<Action>, j: nat)
    requires Run(b, before).lane.dispatcher == Received(j)
    ensures LaterStart(b, before, [OfDispatcher(CountUp), OfDispatcher(SpawnJob), OfJob(j, Begin)])
  {
    var s := Run(b, before);
    EveryRunKeepsInv(b, before);
    HeldJobIsTaken(s.lane, b, j);
    var x := HeldJobSpawns(b, before, j);
    var x3 := Then(b, x, OfJob(j, Begin));
    assert x3 == before + [OfDispatcher(CountUp), OfDispatcher(SpawnJob), OfJob(j, Begin)];
    assert j in Started(Run(b, x3).lane.jobs) && j !in Started(s.lane.jobs);
  }

  lemma HeldJobSpawns(b: Bounds, before: seq<Action>, j: nat) returns (x: seq<Action>)
    requires Run(b, before).lane.dispatcher == Received(j) && j in Run(b, before).lane.jobs
    ensures x == before + [OfDispatcher(CountUp), OfDispatcher(SpawnJob)]
    ensures j in Run(b, x).lane.jobs && Run(b, x).lane.jobs[j].stage == Spawned
  {
    var x1 := Then(b, before, OfDispatcher(CountUp));
    x := Then(b, x1, OfDispatcher(SpawnJob));
  }

  lemma HeldJobIsTaken(l: Lane, b: Bounds, j: nat)
    requires LaneInv(l, b) && l.dispatcher == Received(j)
    ensures j in l.jobs && l.jobs[j] == Job(Taken, Pending, 0)
  {
    assert JobOk(j, l.jobs[j], l);
  }

  lemma QueuedJobStarts(b: Bounds, before: seq<Action>) returns (more: seq<Action>)
    requires Run(b, before).lane.dispatcher == TryJob && Run(b, before).lane.queue != []
    ensures LaterStart(b, before, more)
  {
    var l := Run(b, before).lane;
    EveryRunKeepsInv(b, before);
    var x := Then(b, before, OfDispatcher(Receive));
    HeldJobStarts(b, x, l.queue[0]);
    assert Started(Run(b, x).lane.jobs) == Started(l.jobs);
    var rest := [OfDispatcher(CountUp), OfDispatcher(SpawnJob), OfJob(l.queue[0], Begin)];
    more := [OfDispatcher(Receive)] + rest;
    assert before + more == x + rest;
  }

  /** When a caller of shutdown loads a count of zero, its report is final, so that no
      job will ever start again, exactly when the dispatcher is not past its last look
      at the signal with a job in hand or in the queue. */
  lemma ZeroIsFinal(b: Bounds, actions: seq<Action>, c: nat)
    requires var s := Run(b, actions); c in s.callers && s.callers[c].phase == Loading && s.lane.count == 0
    ensures (forall more :: !LaterStart(b, actions, more)) <==> !WillDispatch(Run(b, actions).lane)
  {
    var s := Run(b, actions);
    EveryRunKeepsInv(b, actions);
    assert CallerOk(s, s.callers[c]);
    if WillDispatch(s.lane) {
      if s.lane.dispatcher.Received? {
        HeldJobStarts(b, actions, s.lane.dispatcher.job);
      } else {
        var more := QueuedJobStarts(b, actions);
      }
    } else {
      forall more ensures !LaterStart(b, actions, more) {
        SettledIsFinal(b, actions, more);
      }
    }
  }

  function Startable(jobs: Jobs): set<nat> {
    set j | j in jobs && (jobs[j].stage == Queued || jobs[j].stage == Taken || IsActive(jobs[j].stage))
  }

  /** The report of the caller that took the handle is the truth: its dispatcher has
      stopped, and if it counted zero nothing is running, waiting or ever to start. */
  lemma TakersReportIsFinal(b: Bounds, actions: seq<Action>, c: nat, more: seq<Action>)
    requires var s := Run(b, actions); c in s.callers && s.callers[c].took && s.callers[c].phase.Reported?
    ensures var s := Run(b, actions);
      && s.lane.dispatcher == Stopped
      && (s.callers[c].phase.active == 0 ==>
            s.lane.count == 0 && Startable(s.lane.jobs) == {} && !LaterStart(b, actions, more))
  {
    var s := Run(b, actions);
    EveryRunKeepsInv(b, actions);
    assert CallerOk(s, s.callers[c]);
    if s.callers[c].phase.active == 0 {
      forall j | j in s.lane.jobs ensures j !in Startable(s.lane.jobs) {
        IdleLaneHasNoActivity(s.lane, b, j);
        assert JobOk(j, s.lane.jobs[j], s.lane);
      }
      SettledIsFinal(b, actions, more);
    }
  }

  /** One caller at most takes the handle; any other reports a stopped dispatcher. */
  lemma OthersReportStopped(b: Bounds, actions: seq<Action>, c: nat, d: nat)
    requires var s := Run(b, actions); c in s.callers && d in s.callers && c != d && s.callers[c].took
    ensures var s := Run(b, actions); !s.callers[d].took && s.callers[d].stopped
  {
    EveryRunKeepsInv(b, actions);
    var s := Run(b, actions);
    assert CallerOk(s, s.callers[d]);
  }

  /** An idle check that ends the wait saw a count of zero; a caller asleep without a
      notification still has active work, or one coming. */
  lemma IdleReportsAreTrue(b: Bounds, actions: seq<Action>, c: nat)
    requires c in Run(b, actions).callers
    ensures var s := Run(b, actions);
      && (s.callers[c].phase == Idling(Blocked(false)) ==> s.lane.count > 0 || InStage(s.lane.jobs, Uncounted) != {})
      && (s.callers[c].phase.Idling? && CallerNext(s, c, CheckIdle).callers[c].phase == Loading ==> s.lane.count == 0)
      && (s.lane.count == 0 ==> ActiveJobs(s.lane.jobs) == {} && !s.lane.dispatcher.Counted?)
  {
    EveryRunKeepsInv(b, actions);
    var s := Run(b, actions);
    assert CallerOk(s, s.callers[c]);
  }

  // ----- Runs that show the limits of a report -----

  /** A lane that takes work, its dispatcher at the top of its loop. */
  predicate Open(s: State) {
    !s.closed && !s.shutdown && !s.aborted && s.lane.queue == [] && s.lane.dispatcher == Top
  }

  /** One more job is submitted, and received once there is a permit. */
  function AfterReceive(s: State): State
    requires s.lane.permits > 0
  {
    s.(lane := s.lane.(dispatcher := Received(s.lane.next), permits := s.lane.permits - 1, next := s.lane.next + 1,
                       jobs := s.lane.jobs[s.lane.next := Job(Taken, Pending, 0)]))
  }

  lemma Dispatch(b: Bounds, actions: seq<Action>) returns (more: seq<Action>)
    requires Open(Run(b, actions)) && b.capacity > 0 && Run(b, actions).lane.permits > 0
    ensures Run(b, more) == AfterReceive(Run(b, actions))
  {
    var s := Run(b, actions);
    var x1 := Then(b, actions, Submit);
    assert Run(b, x1).lane == Enqueue(s.lane) && Enqueue(s.lane).queue == [s.lane.next];
    var x2 := Then(b, x1, OfDispatcher(CheckShutdown));
    var x3 := Then(b, x2, OfDispatcher(PollShutdown));
    more := TakeAndReceive(b, s, x3);
  }

  lemma TakeAndReceive(b: Bounds, s: State, actions: seq<Action>) returns (more: seq<Action>)
    requires Open(s) && s.lane.permits > 0
    requires Run(b, actions) == s.(lane := Enqueue(s.lane).(dispatcher := TryPermit))
    ensures Run(b, more) == AfterReceive(s)
  {
    var x4 := Then(b, actions, OfDispatcher(TakePermit));
    var x5 := Then(b, x4, OfDispatcher(PollShutdown));
    assert Run(b, x5) == s.(lane := Enqueue(s.lane).(dispatcher := TryJob, permits := s.lane.permits - 1));
    more := Then(b, x5, OfDispatcher(Receive));
    assert Run(b, more).lane.jobs == AfterReceive(s).lane.jobs;
    assert Run(b, more).lane.queue == [];
  }

  lemma Launch(b: Bounds, actions: seq<Action>) returns (more: seq<Action>)
    requires Open(Run(b, actions)) && b.capacity > 0 && Run(b, actions).lane.permits > 0
    ensures var s := Run(b, actions);
      Run(b, more) == s.(lane := s.lane.(
        permits := s.lane.permits - 1, count := s.lane.count + 1, next := s.lane.next + 1,
        jobs := s.lane.jobs[s.lane.next := Job(Spawned, Pending, 0)]))
  {
    var s := Run(b, actions);
    var x1 := Dispatch(b, actions);
    var x2 := Then(b, x1, OfDispatcher(CountUp));
    more := Then(b, x2, OfDispatcher(SpawnJob));
    assert Run(b, more).lane.jobs == s.lane.jobs[s.lane.next := Job(Spawned, Pending, 0)];
  }

  /** Every permit in use, each by a job on the pool. */
  lemma {:induction false} FillLane(b: Bounds, k: nat) returns (actions: seq<Action>)
    requires b.capacity > 0 && k <= b.concurrency
    ensures var s := Run(b, actions);
      && Open(s) && s.lane.permits == b.concurrency - k && s.lane.count == k && s.lane.next == k
      && (k > 0 ==> k - 1 in s.lane.jobs && s.lane.jobs[k - 1] == Job(Spawned, Pending, 0))
  {
    if k == 0 {
      actions := [];
    } else {
      var x := FillLane(b, k - 1);
      actions := Launch(b, x);
    }
  }

  lemma GiveBackPermit(b: Bounds, actions: seq<Action>, j: nat) returns (more: seq<Action>)
    requires var l := Run(b, actions).lane; j in l.jobs && l.jobs[j] == Job(Spawned, Pending, 0)
    ensures var s := Run(b, actions);
      Run(b, more) == s.(lane := s.lane.(
        permits := s.lane.permits + 1, jobs := s.lane.jobs[j := Job(Unpermitted, Value, 1)]))
  {
    var s := Run(b, actions);
    var x1 := Then(b, actions, OfJob(j, Begin));
    assert Run(b, x1).lane.jobs == s.lane.jobs[j := Job(Executing, Pending, 1)];
    var x2 := Then(b, x1, OfJob(j, Finish(false)));
    assert Run(b, x2).lane.jobs == s.lane.jobs[j := Job(Finished, Value, 1)];
    more := Then(b, x2, OfJob(j, DropPermit));
    assert Run(b, more).lane.jobs == s.lane.jobs[j := Job(Unpermitted, Value, 1)];
  }

  /** In every lane the activity count may exceed the concurrency for a moment: a
      finished job gives its permit back before it stops counting. */
  lemma CountMayExceedConcurrency(b: Bounds)
    requires b.capacity > 0 && b.concurrency > 0
    ensures exists actions :: Run(b, actions).lane.count == b.concurrency + 1
  {
    var x1 := FillLane(b, b.concurrency);
    var x2 := GiveBackPermit(b, x1, b.concurrency - 1);
    var x3 := CountOneMore(b, x2);
  }

  lemma CountOneMore(b: Bounds, actions: seq<Action>) returns (more: seq<Action>)
    requires Open(Run(b, actions)) && b.capacity > 0 && Run(b, actions).lane.permits > 0
    ensures Run(b, more).lane.count == Run(b, actions).lane.count + 1
  {
    var x := Dispatch(b, actions);
    more := Then(b, x, OfDispatcher(CountUp));
  }

  /** A caller that did not take the handle, and reports everything stopped and idle. */
  predicate ReportsAllDone(s: State, c: nat) {
    c in s.callers && s.callers[c] == Caller(false, true, Reported(0))
  }

  lemma ShutdownOf(b: Bounds, actions: seq<Action>, c: nat, took: bool) returns (more: seq<Action>)
    requires var s := Run(b, actions); c !in s.callers && s.handle == took
    ensures var s := Run(b, actions);
      Run(b, more) == s.(closed := true, shutdown := true, handle := false,
                         callers := s.callers[c := Caller(took, true, if took then Joining else Idling(Arriving))])
  {
    var s := Run(b, actions);
    var x1 := Then(b, actions, OfCaller(c, Enter));
    var x2 := Then(b, x1, OfCaller(c, CloseLane));
    assert Run(b, x2) == s.(closed := true, callers := s.callers[c := Caller(false, true, Signalling)]);
    var x3 := Then(b, x2, OfCaller(c, Signal));
    assert Run(b, x3) == s.(closed := true, shutdown := true, callers := s.callers[c := Caller(false, true, Taking)]);
    more := Then(b, x3, OfCaller(c, TakeHandle));
    assert Run(b, more).callers
        == s.callers[c := Caller(took, true, if took then Joining else Idling(Arriving))];
  }

  lemma ReportZero(b: Bounds, actions: seq<Action>, c: nat) returns (more: seq<Action>)
    requires var s := Run(b, actions);
      c in s.callers && s.callers[c] == Caller(false, true, Idling(Arriving)) && s.lane.count == 0
    ensures var s := Run(b, actions); Run(b, more) == s.(callers := s.callers[c := Caller(false, true, Reported(0))])
  {
    var s := Run(b, actions);
    var x1 := Then(b, actions, OfCaller(c, Enable));
    assert Run(b, x1).callers == s.callers[c := Caller(false, true, Idling(Enabled(false)))];
    var x2 := Then(b, x1, OfCaller(c, CheckIdle));
    assert Run(b, x2).callers == s.callers[c := Caller(false, true, Loading)];
    more := Then(b, x2, OfCaller(c, Load));
    assert Run(b, more).callers == s.callers[c := Caller(false, true, Reported(0))];
  }

  /** In every lane a second, concurrent shutdown may report a stopped dispatcher and
      no activity while a job is still to start. */
  lemma SecondReportMayBeFalse(b: Bounds)
    requires b.capacity > 0 && b.concurrency > 0
    ensures exists actions, more :: ReportsAllDone(Run(b, actions), 1) && LaterStart(b, actions, more)
  {
    assert Open(Run(b, []));
    var x1 := Dispatch(b, []);
    var x2 := ShutdownOf(b, x1, 0, true);
    var x3 := ShutdownOf(b, x2, 1, false);
    var x4 := ReportZero(b, x3, 1);
    HeldJobStarts(b, x4, 0);
  }
}
