/** Waiting for the owner of a bus name to go away.  A monitor turns the bus's
    name-change signals into a bounded, overwriting broadcast; waiters subscribe to it
    before they ask the bus.  Each action is one atomic step of the bus, of the
    monitor or of one waiter. */
module OwnerLoss {
  import opened Common

  type Name = string

  predicate Unique(name: Name) {
    name != "" && name[0] == ':'
  }

  // ----- The bus -----

  datatype Message = Malformed | NameOwnerChanged(name: Name, was: string, now: string)

  /** `used` holds every name that ever had an owner. */
  datatype Bus = Bus(owners: map<Name, string>, used: set<Name>)

  function OwnerOf(bus: Bus, name: Name): string {
    if name in bus.owners then bus.owners[name] else ""
  }

  function HasOwner(bus: Bus, name: Name): bool {
    OwnerOf(bus, name) != ""
  }

  /** A unique name is given out once, keeps its owner, and is never given out again. */
  predicate MayChange(bus: Bus, name: Name, now: string) {
    && OwnerOf(bus, name) != now
    && (Unique(name) ==> if HasOwner(bus, name) then now == "" else name !in bus.used)
  }

  function SetOwner(bus: Bus, name: Name, now: string): Bus {
    Bus(bus.owners[name := now], bus.used + {name})
  }

  // ----- The monitor and the broadcast -----

  datatype Monitor = NotStarted | Watching | Stopped

  /** The names the monitor publishes. */
  function Loss(m: Message): Option<Name> {
    if m.Malformed? then None
    else if Unique(m.name) && m.was != "" && m.now == "" then Some(m.name)
    else None
  }

  // ----- Waiters -----

  /** Told holds an answer the bus has given and the waiter has not yet seen. */
  datatype Phase =
    | Subscribing | Asking(cursor: nat) | Told(owned: bool, cursor: nat) | Blocked(cursor: nat) | Lost | Failed

  /** `known`: the name had had an owner when the wait began. */
  datatype Waiter = Waiter(name: Name, known: bool, phase: Phase)

  datatype State = State(bus: Bus, monitor: Monitor, signals: seq<Message>, log: seq<Name>, waiters: map<nat, Waiter>)

  function Initial(): State {
    State(Bus(map[], {}), NotStarted, [], [], map[])
  }

  datatype Action =
    | Change(name: Name, now: string)
    | Garble
    | Publish
    | StopMonitor
    | Wait(w: nat, name: Name)
    | OfWaiter(w: nat, step: WaiterStep)

  datatype WaiterStep = Subscribe | Ask | Hear | Fail | Receive

  function Deliver(s: State, m: Message): State {
    if s.monitor == Watching then s.(signals := s.signals + [m]) else s
  }

  function Step(s: State, capacity: nat, a: Action): State {
    match a
    case Change(name, now) =>
      if MayChange(s.bus, name, now)
      then Deliver(s.(bus := SetOwner(s.bus, name, now)), NameOwnerChanged(name, OwnerOf(s.bus, name), now)) else s
    case Garble => Deliver(s, Malformed)
    case Publish =>
      if s.monitor == Watching && s.signals != [] then
        var rest := s.(signals := s.signals[1..]);
        if Loss(s.signals[0]).Some? then rest.(log := s.log + [Loss(s.signals[0]).value]) else rest
      else s
    case StopMonitor => if s.monitor == Watching then s.(monitor := Stopped) else s
    case Wait(w, name) =>
      if w in s.waiters then s else s.(waiters := s.waiters[w := Waiter(name, name in s.bus.used, Subscribing)])
    case OfWaiter(w, step) =>
      if w !in s.waiters then s
      else
        var phase := WaiterNext(s, capacity, s.waiters[w], step);
        var starts := s.waiters[w].phase.Subscribing? && step.Subscribe? && s.monitor.NotStarted?;
        s.(waiters := s.waiters[w := s.waiters[w].(phase := phase)],
           monitor := if starts then Watching else s.monitor)
  }

  function WaiterNext(s: State, capacity: nat, waiter: Waiter, step: WaiterStep): Phase {
    var phase := waiter.phase;
    match step
    case Subscribe => if phase.Subscribing? then Asking(|s.log|) else phase
    case Ask => if phase.Asking? then Told(HasOwner(s.bus, waiter.name), phase.cursor) else phase
    case Hear =>
      if phase.Told? then if phase.owned then Blocked(phase.cursor) else Lost
      else phase
    case Fail => if phase.Subscribing? || phase.Asking? then Failed else phase
    case Receive =>
      if !phase.Blocked? then phase
      else if s.monitor == Stopped then Failed
      else if phase.cursor >= |s.log| then phase
      else if |s.log| - phase.cursor > capacity then Asking(|s.log| - capacity)
      else if s.log[phase.cursor] == waiter.name then Lost
      else Blocked(phase.cursor + 1)
  }

  function Run(capacity: nat, actions: seq<Action>): State {
    if actions == [] then Initial()
    else Step(Run(capacity, actions[..|actions| - 1]), capacity, actions[|actions| - 1])
  }

  // ----- The invariant -----

  predicate InFlight(signals: seq<Message>, name: Name) {
    exists i :: 0 <= i < |signals| && Loss(signals[i]) == Some(name)
  }

  predicate Queued(log: seq<Name>, cursor: nat, name: Name) {
    exists i :: cursor <= i < |log| && log[i] == name
  }

  /** A name that was owned once and is not now. */
  predicate Gone(bus: Bus, name: Name) {
    name in bus.used && !HasOwner(bus, name)
  }

  ghost predicate BusOk(bus: Bus) {
    forall name :: name in bus.owners ==> name in bus.used
  }

  ghost predicate LossesTrue(s: State) {
    && (forall i :: 0 <= i < |s.log| ==> Unique(s.log[i]) && Gone(s.bus, s.log[i]))
    && (forall i :: 0 <= i < |s.signals| && Loss(s.signals[i]).Some? ==> Gone(s.bus, Loss(s.signals[i]).value))
  }

  predicate Listening(phase: Phase) {
    phase.Asking? || phase.Told? || phase.Blocked?
  }

  /** The waiter was told that the name has an owner. */
  predicate Trusting(phase: Phase) {
    phase.Blocked? || (phase.Told? && phase.owned)
  }

  ghost predicate WaiterOk(s: State, waiter: Waiter) {
    && (waiter.known ==> waiter.name in s.bus.used)
    && (Listening(waiter.phase) ==> s.monitor != NotStarted && waiter.phase.cursor <= |s.log|)
    && (Trusting(waiter.phase) ==> waiter.name in s.bus.used)
    && (Trusting(waiter.phase) && Unique(waiter.name) && !HasOwner(s.bus, waiter.name) && s.monitor == Watching ==>
          InFlight(s.signals, waiter.name) || Queued(s.log, waiter.phase.cursor, waiter.name))
    && ((waiter.phase.Lost? || (waiter.phase.Told? && !waiter.phase.owned)) && waiter.known && Unique(waiter.name) ==>
          Gone(s.bus, waiter.name))
  }

  ghost predicate Inv(s: State) {
    BusOk(s.bus) && LossesTrue(s) && forall w :: w in s.waiters ==> WaiterOk(s, s.waiters[w])
  }

  lemma GoneForGood(bus: Bus, name: Name, changed: Name, now: string)
    requires Unique(name) && Gone(bus, name) && MayChange(bus, changed, now)
    ensures Gone(SetOwner(bus, changed, now), name)
  {
  }

  lemma InFlightSnoc(signals: seq<Message>, m: Message, name: Name)
    ensures InFlight(signals + [m], name) <==> InFlight(signals, name) || Loss(m) == Some(name)
  {
    var all := signals + [m];
    assert all[|signals|] == m;
    if InFlight(signals, name) {
      var i :| 0 <= i < |signals| && Loss(signals[i]) == Some(name);
      assert all[i] == signals[i];
    }
  }

  lemma InFlightHead(signals: seq<Message>, name: Name)
    requires signals != []
    ensures InFlight(signals, name) <==> InFlight(signals[1..], name) || Loss(signals[0]) == Some(name)
  {
    if InFlight(signals, name) {
      var i :| 0 <= i < |signals| && Loss(signals[i]) == Some(name);
      assert i > 0 ==> signals[1..][i - 1] == signals[i];
    }
    if InFlight(signals[1..], name) {
      var i :| 0 <= i < |signals| - 1 && Loss(signals[1..][i]) == Some(name);
      assert signals[i + 1] == signals[1..][i];
    }
  }

  lemma QueuedSnoc(log: seq<Name>, lost: Name, cursor: nat, name: Name)
    requires cursor <= |log|
    ensures Queued(log + [lost], cursor, name) <==> Queued(log, cursor, name) || lost == name
  {
    var all := log + [lost];
    assert all[|log|] == lost;
    if Queued(log, cursor, name) {
      var i :| cursor <= i < |log| && log[i] == name;
      assert all[i] == log[i];
    }
  }

  lemma ChangeKeeps(s: State, capacity: nat, name: Name, now: string)
    requires Inv(s) && MayChange(s.bus, name, now)
    ensures Inv(Step(s, capacity, Change(name, now)))
  {
    var s' := Step(s, capacity, Change(name, now));
    var m := NameOwnerChanged(name, OwnerOf(s.bus, name), now);
    forall n | Unique(n) && Gone(s.bus, n) ensures Gone(s'.bus, n) {
      GoneForGood(s.bus, n, name, now);
    }
    assert Loss(m).Some? ==> Gone(s'.bus, name);
    assert LossesTrue(s');
    forall w | w in s'.waiters ensures WaiterOk(s', s'.waiters[w]) {
      assert WaiterOk(s, s.waiters[w]);
      InFlightSnoc(s.signals, m, s.waiters[w].name);
    }
  }

  lemma PublishKeeps(s: State, capacity: nat)
    requires Inv(s) && s.monitor == Watching && s.signals != []
    ensures Inv(Step(s, capacity, Publish))
  {
    var s' := Step(s, capacity, Publish);
    assert forall i :: 0 <= i < |s'.signals| ==> s'.signals[i] == s.signals[i + 1];
    assert LossesTrue(s');
    forall w | w in s'.waiters ensures WaiterOk(s', s'.waiters[w]) {
      var waiter := s.waiters[w];
      assert WaiterOk(s, waiter);
      InFlightHead(s.signals, waiter.name);
      if Listening(waiter.phase) && Loss(s.signals[0]).Some? {
        QueuedSnoc(s.log, Loss(s.signals[0]).value, waiter.phase.cursor, waiter.name);
      }
    }
  }

  lemma WaiterStepKeeps(s: State, capacity: nat, w: nat, step: WaiterStep)
    requires Inv(s) && w in s.waiters
    ensures Inv(Step(s, capacity, OfWaiter(w, step)))
  {
    var s' := Step(s, capacity, OfWaiter(w, step));
    forall v | v in s'.waiters ensures WaiterOk(s', s'.waiters[v]) {
      assert WaiterOk(s, s.waiters[v]);
    }
  }

  lemma StepKeeps(s: State, capacity: nat, a: Action)
    requires Inv(s)
    ensures Inv(Step(s, capacity, a))
  {
    match a
    case Change(name, now) =>
      if MayChange(s.bus, name, now) {
        ChangeKeeps(s, capacity, name, now);
      }
    case Garble =>
      var s' := Step(s, capacity, a);
      forall w | w in s'.waiters ensures WaiterOk(s', s'.waiters[w]) {
        assert WaiterOk(s, s.waiters[w]);
        InFlightSnoc(s.signals, Malformed, s.waiters[w].name);
      }
    case Publish =>
      if s.monitor == Watching && s.signals != [] {
        PublishKeeps(s, capacity);
      }
    case OfWaiter(w, step) =>
      if w in s.waiters {
        WaiterStepKeeps(s, capacity, w, step);
      }
    case _ =>
      var s' := Step(s, capacity, a);
      assert forall w :: w in s.waiters ==> WaiterOk(s, s.waiters[w]);
  }

  lemma {:induction false} EveryRunKeepsInv(capacity: nat, actions: seq<Action>)
    ensures Inv(Run(capacity, actions))
  {
    if actions != [] {
      EveryRunKeepsInv(capacity, actions[..|actions| - 1]);
      StepKeeps(Run(capacity, actions[..|actions| - 1]), capacity, actions[|actions| - 1]);
    }
  }

  // ----- What a wait promises -----

  /** A blocked waiter whose owner is gone has something coming: the signal is on its
      way to the monitor, or the loss lies at or after the waiter's cursor (still
      held, or overwritten, and then the next receive reports a lag), or the monitor
      has stopped and the next receive fails. */
  lemma NoLossIsMissed(capacity: nat, actions: seq<Action>, w: nat)
    requires w in Run(capacity, actions).waiters
    requires var waiter := Run(capacity, actions).waiters[w];
      waiter.phase.Blocked? && Unique(waiter.name) && !HasOwner(Run(capacity, actions).bus, waiter.name)
    ensures var s, waiter := Run(capacity, actions), Run(capacity, actions).waiters[w];
      s.monitor == Stopped || InFlight(s.signals, waiter.name) || Queued(s.log, waiter.phase.cursor, waiter.name)
  {
    EveryRunKeepsInv(capacity, actions);
    assert WaiterOk(Run(capacity, actions), Run(capacity, actions).waiters[w]);
  }

  /** Success is never invented: for a unique name that had been in use when the wait
      began, it means that the owner is gone. */
  lemma LostMeansGone(capacity: nat, actions: seq<Action>, w: nat)
    requires w in Run(capacity, actions).waiters
    requires var waiter := Run(capacity, actions).waiters[w];
      waiter.phase.Lost? && waiter.known && Unique(waiter.name)
    ensures Gone(Run(capacity, actions).bus, Run(capacity, actions).waiters[w].name)
  {
    EveryRunKeepsInv(capacity, actions);
    assert WaiterOk(Run(capacity, actions), Run(capacity, actions).waiters[w]);
  }

  /** Success for this name, known or not when the wait began, always means that it
      has no owner. */
  ghost predicate SuccessIsTrue(capacity: nat, name: Name, known: bool) {
    forall actions, w :: w in Run(capacity, actions).waiters ==> ReportIsTrue(Run(capacity, actions), w, name, known)
  }

  predicate ReportIsTrue(s: State, w: nat, name: Name, known: bool)
    requires w in s.waiters
  {
    s.waiters[w].name == name && s.waiters[w].known == known && s.waiters[w].phase.Lost? ==> !HasOwner(s.bus, name)
  }

  /** An owner that a name may have. */
  function SomeOwner(name: Name): string {
    if Unique(name) then name else ":1"
  }

  /** A wait for a name without an owner succeeds, and then the name gets one. */
  lemma LostThenOwned(capacity: nat, before: seq<Action>, name: Name) returns (more: seq<Action>)
    requires var s := Run(capacity, before);
      s.waiters == map[] && s.monitor == NotStarted && !HasOwner(s.bus, name) && (Unique(name) ==> name !in s.bus.used)
    ensures var s, s' := Run(capacity, before), Run(capacity, more);
      s'.waiters == map[0 := Waiter(name, name in s.bus.used, Lost)] && HasOwner(s'.bus, name)
  {
    var s := Run(capacity, before);
    var known := name in s.bus.used;
    var x1 := Then(capacity, before, Wait(0, name));
    var x2 := Then(capacity, x1, OfWaiter(0, Subscribe));
    assert Run(capacity, x2) == s.(monitor := Watching, waiters := map[0 := Waiter(name, known, Asking(|s.log|))]);
    var x3 := Then(capacity, x2, OfWaiter(0, Ask));
    assert Run(capacity, x3).waiters == map[0 := Waiter(name, known, Told(false, |s.log|))];
    var x4 := Then(capacity, x3, OfWaiter(0, Hear));
    assert Run(capacity, x4).waiters == map[0 := Waiter(name, known, Lost)];
    more := Then(capacity, x4, Change(name, SomeOwner(name)));
  }

  /** A name that is given an owner and loses it, before any wait. */
  lemma OwnedOnce(capacity: nat, name: Name) returns (actions: seq<Action>)
    requires !Unique(name)
    ensures Run(capacity, actions) == State(Bus(map[name := ""], {name}), NotStarted, [], [], map[])
  {
    var x1 := Then(capacity, [], Change(name, SomeOwner(name)));
    actions := Then(capacity, x1, Change(name, ""));
    assert Run(capacity, actions).bus.owners == map[name := ""];
  }

  /** Success always means gone exactly for unique names that had been in use when the
      wait began: any other may be reported lost, and then be owned, or owned again. */
  lemma SuccessIsTrueExactly(capacity: nat, name: Name, known: bool)
    ensures SuccessIsTrue(capacity, name, known) <==> known && Unique(name)
  {
    if known && Unique(name) {
      forall actions, w | w in Run(capacity, actions).waiters
        ensures ReportIsTrue(Run(capacity, actions), w, name, known)
      {
        EveryRunKeepsInv(capacity, actions);
        assert WaiterOk(Run(capacity, actions), Run(capacity, actions).waiters[w]);
      }
    } else {
      var before := [];
      if known {
        before := OwnedOnce(capacity, name);
      }
      var more := LostThenOwned(capacity, before, name);
      assert !ReportIsTrue(Run(capacity, more), 0, name, known);
    }
  }

  /** And gone is gone. */
  lemma {:induction false} GoneIsFinal(capacity: nat, actions: seq<Action>, n: nat, name: Name)
    requires n <= |actions| && Unique(name) && Gone(Run(capacity, actions[..n]).bus, name)
    ensures Gone(Run(capacity, actions).bus, name)
    decreases |actions|
  {
    if n < |actions| {
      var front, last := actions[..|actions| - 1], actions[|actions| - 1];
      assert front[..n] == actions[..n];
      GoneIsFinal(capacity, front, n, name);
      var s := Run(capacity, front);
      if last.Change? && MayChange(s.bus, last.name, last.now) {
        GoneForGood(s.bus, name, last.name, last.now);
      }
    } else {
      assert actions[..n] == actions;
    }
  }

  // ----- The wait ends -----

  function Steps(s: State, capacity: nat, actions: seq<Action>): State
    decreases |actions|
  {
    if actions == [] then s else Steps(Step(s, capacity, actions[0]), capacity, actions[1..])
  }

  /** The steps that finish a wait: the monitor publishes what it has, then the waiter
      receives, and asks the bus again where it lagged. */
  function Finish(s: State, capacity: nat, w: nat): seq<Action>
    requires w in s.waiters && s.waiters[w].phase.Blocked? && s.waiters[w].phase.cursor <= |s.log|
    decreases |s.signals|, |s.log| - s.waiters[w].phase.cursor
  {
    var cursor := s.waiters[w].phase.cursor;
    if s.monitor == Watching && s.signals != [] then [Publish] + Finish(Step(s, capacity, Publish), capacity, w)
    else if s.monitor != Watching || cursor == |s.log| then []
    else if |s.log| - cursor > capacity then [OfWaiter(w, Receive), OfWaiter(w, Ask), OfWaiter(w, Hear)]
    else if s.log[cursor] == s.waiters[w].name then [OfWaiter(w, Receive)]
    else [OfWaiter(w, Receive)] + Finish(Step(s, capacity, OfWaiter(w, Receive)), capacity, w)
  }

  lemma {:induction false} FinishHears(s: State, capacity: nat, w: nat)
    requires Inv(s) && w in s.waiters && s.waiters[w].phase.Blocked? && s.monitor == Watching
    requires Unique(s.waiters[w].name) && !HasOwner(s.bus, s.waiters[w].name)
    ensures var s' := Steps(s, capacity, Finish(s, capacity, w));
      w in s'.waiters && s'.waiters[w].name == s.waiters[w].name && s'.waiters[w].phase == Lost
    decreases |s.signals|, |s.log| - s.waiters[w].phase.cursor
  {
    var waiter := s.waiters[w];
    var cursor := waiter.phase.cursor;
    assert WaiterOk(s, waiter);
    var plan := Finish(s, capacity, w);
    if s.signals != [] {
      var s1 := Step(s, capacity, Publish);
      StepKeeps(s, capacity, Publish);
      FinishHears(s1, capacity, w);
      assert plan[0] == Publish && plan[1..] == Finish(s1, capacity, w);
    } else if |s.log| - cursor > capacity {
      var s1 := Step(s, capacity, OfWaiter(w, Receive));
      var s2 := Step(s1, capacity, OfWaiter(w, Ask));
      assert plan[1..] == [OfWaiter(w, Ask), OfWaiter(w, Hear)] && plan[1..][1..] == [OfWaiter(w, Hear)];
      assert Steps(s, capacity, plan) == Steps(s2, capacity, plan[1..][1..]);
      assert Steps(s2, capacity, [OfWaiter(w, Hear)]) == Step(s2, capacity, OfWaiter(w, Hear));
    } else if s.log[cursor] == waiter.name {
      assert Steps(s, capacity, plan) == Step(s, capacity, OfWaiter(w, Receive));
    } else {
      var s1 := Step(s, capacity, OfWaiter(w, Receive));
      StepKeeps(s, capacity, OfWaiter(w, Receive));
      FinishHears(s1, capacity, w);
      assert plan[0] == OfWaiter(w, Receive) && plan[1..] == Finish(s1, capacity, w);
    }
  }

  /** Steps of the monitor's publishing and of one waiter. */
  predicate OwnSteps(actions: seq<Action>, w: nat) {
    forall i :: 0 <= i < |actions| ==> actions[i] == Publish || (actions[i].OfWaiter? && actions[i].w == w)
  }

  lemma {:induction false} FinishIsOwn(s: State, capacity: nat, w: nat)
    requires w in s.waiters && s.waiters[w].phase.Blocked? && s.waiters[w].phase.cursor <= |s.log|
    ensures OwnSteps(Finish(s, capacity, w), w)
    decreases |s.signals|, |s.log| - s.waiters[w].phase.cursor
  {
    var cursor := s.waiters[w].phase.cursor;
    if s.monitor == Watching && s.signals != [] {
      FinishIsOwn(Step(s, capacity, Publish), capacity, w);
    } else if s.monitor == Watching && cursor < |s.log| <= cursor + capacity && s.log[cursor] != s.waiters[w].name {
      FinishIsOwn(Step(s, capacity, OfWaiter(w, Receive)), capacity, w);
    }
  }

  ghost predicate HeardAfter(s: State, capacity: nat, w: nat, more: seq<Action>) {
    OwnSteps(more, w) && w in Steps(s, capacity, more).waiters && Steps(s, capacity, more).waiters[w].phase == Lost
  }

  /** From every reachable state, a blocked waiter whose owner is gone gets to its
      answer by steps of the monitor and its own alone, unless the monitor stops. */
  lemma EveryLossIsHeard(capacity: nat, actions: seq<Action>, w: nat)
    requires w in Run(capacity, actions).waiters && Run(capacity, actions).monitor == Watching
    requires var waiter := Run(capacity, actions).waiters[w];
      waiter.phase.Blocked? && Unique(waiter.name) && !HasOwner(Run(capacity, actions).bus, waiter.name)
    ensures exists more :: HeardAfter(Run(capacity, actions), capacity, w, more)
  {
    var s := Run(capacity, actions);
    EveryRunKeepsInv(capacity, actions);
    assert WaiterOk(s, s.waiters[w]);
    FinishHears(s, capacity, w);
    FinishIsOwn(s, capacity, w);
    assert HeardAfter(s, capacity, w, Finish(s, capacity, w));
  }

  // ----- What ends a wait -----

  /** The waiter acts on news that its name is lost: the bus has said that it has no
      owner, or the loss is the next one held for it and the monitor still runs. */
  predicate LearnsOfLoss(s: State, capacity: nat, a: Action, w: nat)
    requires w in s.waiters
  {
    var waiter := s.waiters[w];
    || (a == OfWaiter(w, Hear) && waiter.phase.Told? && !waiter.phase.owned)
    || (a == OfWaiter(w, Receive) && waiter.phase.Blocked? && s.monitor != Stopped
        && waiter.phase.cursor < |s.log| <= waiter.phase.cursor + capacity
        && s.log[waiter.phase.cursor] == waiter.name)
  }

  /** The bus refuses a call of the waiter, or the waiter finds the monitor stopped. */
  predicate LearnsOfFailure(s: State, a: Action, w: nat)
    requires w in s.waiters
  {
    var phase := s.waiters[w].phase;
    || (a == OfWaiter(w, Fail) && (phase.Subscribing? || phase.Asking?))
    || (a == OfWaiter(w, Receive) && phase.Blocked? && s.monitor == Stopped)
  }

  /** A wait succeeds exactly on news of its loss, fails exactly when a call fails or the
      monitor has stopped, and an answer is final. */
  lemma WaitsEndExactly(capacity: nat, actions: seq<Action>, a: Action, w: nat)
    requires w in Run(capacity, actions).waiters
    ensures w in Run(capacity, actions + [a]).waiters
    ensures var s := Run(capacity, actions);
      var was, now := s.waiters[w], Run(capacity, actions + [a]).waiters[w];
      && now.name == was.name && now.known == was.known
      && (now.phase == Lost <==> was.phase == Lost || LearnsOfLoss(s, capacity, a, w))
      && (now.phase == Failed <==> was.phase == Failed || LearnsOfFailure(s, a, w))
  {
    var more := Then(capacity, actions, a);
  }

  /** A receive reads one loss that is held, or, after a lag, goes to the oldest one held:
      no loss that is held is passed over. */
  lemma NothingHeldIsSkipped(capacity: nat, actions: seq<Action>, w: nat, k: nat)
    requires w in Run(capacity, actions).waiters && Run(capacity, actions).waiters[w].phase.Blocked?
    ensures w in Run(capacity, actions + [OfWaiter(w, Receive)]).waiters
    ensures var s := Run(capacity, actions);
      var cursor, phase := s.waiters[w].phase.cursor, Run(capacity, actions + [OfWaiter(w, Receive)]).waiters[w].phase;
      Listening(phase) ==>
        && cursor <= phase.cursor <= |s.log|
        && (cursor <= k < phase.cursor && k + capacity >= |s.log| ==> k == cursor && s.log[k] != s.waiters[w].name)
  {
    EveryRunKeepsInv(capacity, actions);
    assert WaiterOk(Run(capacity, actions), Run(capacity, actions).waiters[w]);
    var more := Then(capacity, actions, OfWaiter(w, Receive));
  }

  // ----- Only unique names are watched -----

  /** The monitor publishes unique names only, so a blocked waiter for any other name
      hears of its loss by lagging alone. */
  lemma OtherNamesAreNeverHeard(capacity: nat, actions: seq<Action>, w: nat)
    requires w in Run(capacity, actions).waiters && !Unique(Run(capacity, actions).waiters[w].name)
    requires Run(capacity, actions).waiters[w].phase.Blocked?
    ensures var s := Run(capacity, actions);
      !WaiterNext(s, capacity, s.waiters[w], Receive).Lost?
  {
    EveryRunKeepsInv(capacity, actions);
  }

  /** A blocked waiter for this name whose owner is gone has something coming. */
  predicate SomethingComing(s: State, w: nat, name: Name)
    requires w in s.waiters
  {
    var waiter := s.waiters[w];
    waiter.name == name && waiter.phase.Blocked? && !HasOwner(s.bus, name) ==>
      s.monitor == Stopped || InFlight(s.signals, name) || Queued(s.log, waiter.phase.cursor, name)
  }

  ghost predicate NoLossMissed(capacity: nat, name: Name) {
    forall actions, w :: w in Run(capacity, actions).waiters ==> SomethingComing(Run(capacity, actions), w, name)
  }

  /** For any name that is not unique, a waiter can sleep with nothing coming. */
  lemma OtherNamesMaySleep(capacity: nat, name: Name) returns (actions: seq<Action>)
    requires !Unique(name)
    ensures Run(capacity, actions).waiters == map[0 := Waiter(name, true, Blocked(0))]
    ensures !SomethingComing(Run(capacity, actions), 0, name)
  {
    var bus := Bus(map[name := SomeOwner(name)], {name});
    var x1 := Then(capacity, [], Change(name, SomeOwner(name)));
    assert Run(capacity, x1) == State(bus, NotStarted, [], [], map[]);
    var x2 := Then(capacity, x1, Wait(0, name));
    var x3 := Then(capacity, x2, OfWaiter(0, Subscribe));
    assert Run(capacity, x3) == State(bus, Watching, [], [], map[0 := Waiter(name, true, Asking(0))]);
    var x4 := Then(capacity, x3, OfWaiter(0, Ask));
    assert Run(capacity, x4).waiters == map[0 := Waiter(name, true, Told(true, 0))];
    var x5 := Then(capacity, x4, OfWaiter(0, Hear));
    assert Run(capacity, x5) == State(bus, Watching, [], [], map[0 := Waiter(name, true, Blocked(0))]);
    actions := LosingUnheard(capacity, x5, name);
  }

  lemma LosingUnheard(capacity: nat, actions: seq<Action>, name: Name) returns (more: seq<Action>)
    requires !Unique(name)
    requires Run(capacity, actions)
          == State(Bus(map[name := SomeOwner(name)], {name}), Watching, [], [],
                   map[0 := Waiter(name, true, Blocked(0))])
    ensures var s := Run(capacity, more);
      && s.waiters == Run(capacity, actions).waiters && s.monitor == Watching
      && s.signals == [] && s.log == [] && Gone(s.bus, name)
  {
    var x1 := Then(capacity, actions, Change(name, ""));
    assert Run(capacity, x1).signals == [NameOwnerChanged(name, SomeOwner(name), "")];
    more := Then(capacity, x1, Publish);
    assert Run(capacity, more).signals == [];
  }

  /** No wait ever misses the loss of a name exactly when the name is unique. */
  lemma NoLossMissedExactly(capacity: nat, name: Name)
    ensures NoLossMissed(capacity, name) <==> Unique(name)
  {
    if Unique(name) {
      forall actions, w | w in Run(capacity, actions).waiters ensures SomethingComing(Run(capacity, actions), w, name) {
        EveryRunKeepsInv(capacity, actions);
        assert WaiterOk(Run(capacity, actions), Run(capacity, actions).waiters[w]);
      }
    } else {
      var actions := OtherNamesMaySleep(capacity, name);
      assert 0 in Run(capacity, actions).waiters;
    }
  }

  lemma Then(capacity: nat, actions: seq<Action>, a: Action) returns (more: seq<Action>)
    ensures more == actions + [a] && Run(capacity, more) == Step(Run(capacity, actions), capacity, a)
  {
    more := actions + [a];
    assert more[..|actions|] == actions;
  }
}
