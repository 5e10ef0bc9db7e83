/** What each command does to a run: the lines it writes, and what the actor knows
    after it.  The laws speak of the state before and the state after a command. */
module OutputLaws {
  import opened Common
  import opened OutputTrace
  import opened OutputCorrelation
  import opened OutputLines

  function StateAt(p: Policy, limit: nat, commands: seq<Command>, n: nat): State
    requires n <= |commands|
  {
    Run(p, limit, commands[..n]).state
  }

  /** The actor is still running when it comes to command n. */
  predicate Handles(p: Policy, limit: nat, commands: seq<Command>, n: nat) {
    n < |commands| && Run(p, limit, commands[..n]).running
  }

  lemma RunNext(p: Policy, limit: nat, commands: seq<Command>, n: nat)
    requires Handles(p, limit, commands, n)
    ensures var (s, ok) := EmitCommand(p, limit, StateAt(p, limit, commands, n), n, commands[n]);
      Run(p, limit, commands[..n + 1]) == Progress(s, n + 1, ok)
    ensures Inv(p, limit, commands, n, StateAt(p, limit, commands, n), [])
  {
    assert commands[..n + 1][..n] == commands[..n];
    PrefixRunKeeps(p, limit, commands, n);
  }

  /** x is known no more; about every other id all is as it was. */
  ghost predicate Forgets(before: State, after: State, x: Id) {
    && x !in after.active && (forall i :: 0 <= i < |after.pending| ==> after.pending[i].id != x)
    && (forall y :: y != x ==> (y in after.active <==> y in before.active))
    && (forall y :: y in after.active ==> after.active[y] == before.active[y])
    && KeepsOthers(before.pending, after.pending, x)
  }

  /** The events held for ids other than x are the same, in the same order. */
  ghost predicate KeepsOthers(before: seq<Waiting>, after: seq<Waiting>, x: Id) {
    forall y :: y != x ==> With(after, y) == With(before, y)
  }

  lemma {:induction false} WithoutKeepsOthers(ws: seq<Waiting>, x: Id, y: Id)
    requires y != x
    ensures With(Without(ws, x), y) == With(ws, y)
  {
    if ws != [] {
      var front, last := ws[..|ws| - 1], ws[|ws| - 1];
      WithoutKeepsOthers(front, x, y);
      if last.id != x {
        assert Without(ws, x) == Without(front, x) + [last];
        assert (Without(front, x) + [last])[..|Without(front, x)|] == Without(front, x);
      } else {
        assert Without(ws, x) == Without(front, x) && With(ws, y) == With(front, y);
      }
    }
  }

  lemma RetireForgets(limit: nat, s: State, x: Id)
    requires Shape(s, limit)
    ensures var s' := Retire(s, limit, x);
      && Forgets(s, s', x) && s.trace + [Retired(x)] <= s'.trace && Lines(s'.trace) == Lines(s.trace)
      && (limit > 0 ==> x in s'.suppressed)
      && (forall k :: |s.trace| < k < |s'.trace| ==> s'.trace[k].Dropped? && s'.trace[k].id == x)
  {
    var s' := Retire(s, limit, x);
    RetireShape(limit, s, x);
    LinesRetire(s, limit, x);
    RetireParts(limit, s, x);
    SplitKeeps(s.pending, x);
    DropAllAbout(s.trace + [Retired(x)], With(s.pending, x), x);
    forall y | y != x ensures With(s'.pending, y) == With(s.pending, y) {
      WithoutKeepsOthers(s.pending, x, y);
    }
  }

  lemma RetireParts(limit: nat, s: State, x: Id)
    ensures var s' := Retire(s, limit, x);
      && s'.active == s.active - {x} && s'.pending == Without(s.pending, x)
      && s'.trace == DropAll(s.trace + [Retired(x)], With(s.pending, x), ByCancellation)
  {
  }

  lemma {:induction false} DropAllAbout(trace: Trace, ws: seq<Waiting>, x: Id)
    requires forall i :: 0 <= i < |ws| ==> ws[i].id == x
    ensures var t := DropAll(trace, ws, ByCancellation);
      trace <= t && forall k :: |trace| <= k < |t| ==> t[k].Dropped? && t[k].id == x
  {
    if ws != [] {
      DropAllAbout(trace, ws[..|ws| - 1], x);
    }
  }

  // ----- Cancelling -----

  /** A cancelled id is retired at once: it is neither active nor pending, it is
      suppressed if anything is, nothing is written, and other ids do not notice. */
  lemma CancellationEnds(p: Policy, limit: nat, commands: seq<Command>, n: nat, x: Id)
    requires Handles(p, limit, commands, n) && commands[n] == Cancelled(x)
    ensures var before, after := StateAt(p, limit, commands, n), StateAt(p, limit, commands, n + 1);
      && Run(p, limit, commands[..n + 1]).running
      && Forgets(before, after, x) && (limit > 0 ==> x in after.suppressed)
      && before.trace + [Retired(x)] <= after.trace && Lines(after.trace) == Lines(before.trace)
  {
    RunNext(p, limit, commands, n);
    RetireForgets(limit, StateAt(p, limit, commands, n), x);
  }

  // ----- Responses -----

  /** An entry about one id's events, as a replay leaves them. */
  predicate About(e: Entry, x: Id) {
    match e
    case Delivered(_, topic, _) => topic == Some(x)
    case Retired(id) => id == x
    case Dropped(_, id, _) => id == x
    case _ => false
  }

  /** A history went on with entries about x alone. */
  ghost predicate OnAbout(before: Trace, after: Trace, x: Id) {
    before <= after && forall k :: |before| <= k < |after| ==> About(after[k], x)
  }

  lemma OnAboutJoins(a: Trace, b: Trace, c: Trace, x: Id)
    requires OnAbout(a, b, x) && OnAbout(b, c, x)
    ensures OnAbout(a, c, x)
  {
    TracesJoin(a, b, c);
    forall k | |a| <= k < |c| ensures About(c[k], x) {
      assert k < |b| ==> c[k] == b[k];
    }
  }

  /** What a replay of the events of x leaves of everything else. */
  ghost predicate Replayed(before: State, after: State, x: Id) {
    && OnAbout(before.trace, after.trace, x) && Quiet(after.pending, x)
    && (forall y :: y != x ==> (y in after.active <==> y in before.active))
    && (forall y :: y in after.active ==> y in before.active && after.active[y] == before.active[y])
    && KeepsOthers(before.pending, after.pending, x)
    && (x in before.active ==> x in after.active || RetiredIn(before.trace, after.trace, x))
  }

  predicate Quiet(ws: seq<Waiting>, x: Id) {
    forall i :: 0 <= i < |ws| ==> ws[i].id != x
  }

  ghost predicate RetiredIn(before: Trace, after: Trace, x: Id) {
    exists k :: |before| <= k < |after| && after[k] == Retired(x)
  }

  lemma RetiredAbout(before: Trace, after: Trace, x: Id)
    requires before + [Retired(x)] <= after
    requires forall k :: |before| < k < |after| ==> after[k].Dropped? && after[k].id == x
    ensures OnAbout(before, after, x)
  {
    assert after[|before|] == Retired(x);
    TracesJoin(before, before + [Retired(x)], after);
  }

  lemma ReplayedJoins(a: State, b: State, c: State, x: Id)
    requires Replayed(a, b, x) && Replayed(b, c, x)
    ensures Replayed(a, c, x)
  {
    OnAboutJoins(a.trace, b.trace, c.trace, x);
    if x in a.active && x !in c.active {
      if x in b.active {
        var k :| |b.trace| <= k < |c.trace| && c.trace[k] == Retired(x);
      } else {
        var k :| |a.trace| <= k < |b.trace| && b.trace[k] == Retired(x);
        assert c.trace[k] == Retired(x);
      }
    }
  }

  lemma NotedReplayed(s: State, e: Entry, x: Id)
    requires About(e, x) && Quiet(s.pending, x)
    ensures Replayed(s, s.(trace := s.trace + [e]), x)
  {
  }

  lemma ForgettingReplayed(s: State, s': State, x: Id)
    requires Forgets(s, s', x) && s.trace + [Retired(x)] <= s'.trace && OnAbout(s.trace, s'.trace, x)
    ensures Replayed(s, s', x)
  {
    assert s'.trace[|s.trace|] == Retired(x);
  }

  lemma RetireReplayed(limit: nat, s: State, x: Id)
    requires Shape(s, limit)
    ensures Replayed(s, Retire(s, limit, x), x)
  {
    var s' := Retire(s, limit, x);
    RetireForgets(limit, s, x);
    RetiredAbout(s.trace, s'.trace, x);
    ForgettingReplayed(s, s', x);
  }

  lemma AcceptReplayed(p: Policy, limit: nat, s: State, w: Waiting)
    requires Shape(s, limit) && Quiet(s.pending, w.id) && (w.id in s.active || w.id in s.suppressed) && limit > 0
    ensures var (s', ok) := AcceptEvent(p, limit, s, w.at, Some(w.id), w.stream, w.event);
      ok && Shape(s', limit) && (w.id in s'.active || w.id in s'.suppressed) && Replayed(s, s', w.id)
  {
    var x := w.id;
    if x in s.suppressed {
      NotedReplayed(s, Dropped(w.at, x, BySuppression), x);
    } else {
      var e := Delivered(w.at, Some(x), EventLine(w.stream, w.event, RouteOf(p, s, w.event)));
      var written := s.(trace := s.trace + [e]);
      NotedReplayed(s, e, x);
      if p.isTerminal(w.stream, w.event) {
        RetireShape(limit, written, x);
        RetireReplayed(limit, written, x);
        ReplayedJoins(s, written, Retire(written, limit, x), x);
      }
    }
  }

  lemma {:induction false} ReplayIsAbout(p: Policy, limit: nat, s: State, ws: seq<Waiting>, x: Id)
    requires Shape(s, limit) && Quiet(s.pending, x) && (x in s.active || x in s.suppressed)
    requires ws != [] ==> limit > 0
    requires forall i :: 0 <= i < |ws| ==> ws[i].id == x
    ensures Replay(p, limit, s, ws).1 && Replayed(s, Replay(p, limit, s, ws).0, x)
    decreases |ws|
  {
    if ws != [] {
      var (s', ok) := AcceptEvent(p, limit, s, ws[0].at, Some(ws[0].id), ws[0].stream, ws[0].event);
      AcceptReplayed(p, limit, s, ws[0]);
      ReplayIsAbout(p, limit, s', ws[1..], x);
      ReplayedJoins(s, s', Replay(p, limit, s, ws).0, x);
    }
  }

  /** What a response is answered with: its line, and the id it acknowledges unless
      that is suppressed. */
  ghost predicate AnsweredAt(
    p: Policy, limit: nat, before: State, after: State, command: Command, at: nat)
    requires command.Response?
  {
    && |before.trace| <= at < |after.trace| && before.trace <= after.trace
    && after.trace[at].Answered?
    && after.trace[at].line == ResponseLine(command.id, command.result, command.route)
    && (forall t: TrackedId :: after.trace[at].acked == Some(t) <==>
          command.result.Ok? && p.responseId(command.result.value) == Some(t)
          && t.id !in Tombs(after.trace[..at], limit))
    && Lines(after.trace[..at]) == Lines(before.trace)
    && (forall k :: |before.trace| <= k < at ==>
          command.cancelled.Some? && About(after.trace[k], command.cancelled.value))
    && (command.cancelled.None? ==> at == |before.trace|)
    && (command.cancelled.Some? ==> after.trace[|before.trace|] == Retired(command.cancelled.value))
  }

  /** Behind the line come the events of the acknowledged id alone, and nothing of it
      is left pending; it is active unless one of them ended it. */
  ghost predicate FollowedUp(before: State, after: State, command: Command, at: nat)
    requires command.Response? && at < |after.trace| && after.trace[at].Answered?
  {
    match after.trace[at].acked
    case None => at + 1 == |after.trace|
    case Some(t) =>
      && Quiet(after.pending, t.id)
      && (forall k :: at < k < |after.trace| ==> About(after.trace[k], t.id))
      && (t.id in after.active || exists k :: at < k < |after.trace| && after.trace[k] == Retired(t.id))
  }

  /** Ids that a response neither cancels nor acknowledges do not notice. */
  ghost predicate LeavesOthers(before: State, after: State, command: Command, at: nat)
    requires command.Response? && at < |after.trace| && after.trace[at].Answered?
  {
    var acked := after.trace[at].acked;
    forall y :: command.cancelled != Some(y) && (acked.Some? ==> acked.value.id != y) ==>
      && (y in after.active <==> y in before.active)
      && (y in after.active ==> after.active[y] == before.active[y])
      && With(after.pending, y) == With(before.pending, y)
  }

  lemma ActivateKeepsOthers(s: State, tracked: Option<TrackedId>, route: Option<ClientRoute>)
    ensures var (s', ws) := Activate(s, tracked, route);
      && s'.trace == s.trace && s'.suppressed == s.suppressed
      && (Acknowledges(s, tracked).None? ==> s' == s && ws == [])
      && (Acknowledges(s, tracked).Some? ==>
            && tracked.value.id in s'.active && Quiet(s'.pending, tracked.value.id)
            && KeepsOthers(s.pending, s'.pending, tracked.value.id)
            && forall y :: y != tracked.value.id ==>
                 (y in s'.active <==> y in s.active) && (y in s'.active ==> s'.active[y] == s.active[y]))
  {
    if Acknowledges(s, tracked).Some? {
      var x := tracked.value.id;
      SplitKeeps(s.pending, x);
      forall y | y != x ensures With(Without(s.pending, x), y) == With(s.pending, y) {
        WithoutKeepsOthers(s.pending, x, y);
      }
    }
  }

  lemma AnswerParts(p: Policy, limit: nat, s: State, command: Command) returns (s2: State, ws: seq<Waiting>)
    requires Shape(s, limit) && command.Response? && command.cancelled.None?
    ensures var e := Answered(
        ResponseLine(command.id, command.result, command.route), Acknowledges(s, Tracked(p, command.result)));
      && EmitCommand(p, limit, s, 0, command) == Replay(p, limit, s2, ws)
      && s2.trace == s.trace + [e] && Shape(s2, limit)
      && (e.acked.None? ==> ws == [] && s2 == s.(trace := s2.trace))
      && (e.acked.Some? ==>
            && e.acked.value.id in s2.active && Quiet(s2.pending, e.acked.value.id)
            && (ws != [] ==> limit > 0) && (forall i :: 0 <= i < |ws| ==> ws[i].id == e.acked.value.id)
            && KeepsOthers(s.pending, s2.pending, e.acked.value.id)
            && forall y :: y != e.acked.value.id ==>
                 (y in s2.active <==> y in s.active) && (y in s2.active ==> s2.active[y] == s.active[y]))
  {
    var tracked := Tracked(p, command.result);
    var activated := Activate(s, tracked, command.route);
    var e := Answered(ResponseLine(command.id, command.result, command.route), Acknowledges(s, tracked));
    s2, ws := activated.0.(trace := s.trace + [e]), activated.1;
    ActivateShape(limit, s, tracked, command.route);
    ActivateKeepsOthers(s, tracked, command.route);
  }

  /** A response that cancels nothing. */
  lemma AnswerMeans(p: Policy, limit: nat, s: State, command: Command)
    requires Shape(s, limit) && s.order == Tombs(s.trace, limit) && command.Response? && command.cancelled.None?
    ensures var (s', ok) := EmitCommand(p, limit, s, 0, command);
      && ok && AnsweredAt(p, limit, s, s', command, |s.trace|)
      && FollowedUp(s, s', command, |s.trace|) && LeavesOthers(s, s', command, |s.trace|)
  {
    var s2, ws := AnswerParts(p, limit, s, command);
    var s' := EmitCommand(p, limit, s, 0, command).0;
    var acked := s2.trace[|s.trace|].acked;
    if acked.Some? {
      ReplayIsAbout(p, limit, s2, ws, acked.value.id);
    }
    assert s2.trace <= s'.trace;
    assert s'.trace[|s.trace|] == s2.trace[|s.trace|];
    assert s'.trace[..|s.trace|] == s.trace;
  }

  /** A response, with the id it cancels ended first. */
  lemma ResponseMeans(p: Policy, limit: nat, commands: seq<Command>, n: nat) returns (at: nat)
    requires Handles(p, limit, commands, n) && commands[n].Response?
    ensures var before, after := StateAt(p, limit, commands, n), StateAt(p, limit, commands, n + 1);
      && Run(p, limit, commands[..n + 1]).running
      && AnsweredAt(p, limit, before, after, commands[n], at)
      && FollowedUp(before, after, commands[n], at) && LeavesOthers(before, after, commands[n], at)
      && (commands[n].cancelled.Some? && limit > 0 ==>
            var x := commands[n].cancelled.value;
            x in Tombs(after.trace[..at], limit) && x !in after.active && Quiet(after.pending, x))
  {
    var before, command := StateAt(p, limit, commands, n), commands[n];
    RunNext(p, limit, commands, n);
    if command.cancelled.None? {
      at := |before.trace|;
      AnswerMeans(p, limit, before, command);
    } else {
      var x := command.cancelled.value;
      var ended := Retire(before, limit, x);
      at := |ended.trace|;
      assert before.pending + [] == before.pending;
      RetireKeeps(p, limit, commands, n, before, [], x);
      RetireForgets(limit, before, x);
      AnswerMeans(p, limit, ended, command.(cancelled := None));
      AnsweredAfterEnd(p, limit, before, ended, StateAt(p, limit, commands, n + 1), command, x);
      CancelledThenAnswered(p, limit, before, ended, StateAt(p, limit, commands, n + 1), command, x);
    }
  }

  /** A cancellation, as the state a response goes on from. */
  ghost predicate EndedFirst(limit: nat, before: State, ended: State, x: Id) {
    && Forgets(before, ended, x) && before.trace + [Retired(x)] <= ended.trace
    && (forall k :: |before.trace| < k < |ended.trace| ==> ended.trace[k].Dropped? && ended.trace[k].id == x)
    && Lines(ended.trace) == Lines(before.trace) && ended.order == Tombs(ended.trace, limit)
    && (limit > 0 ==> x in ended.suppressed) && Shape(ended, limit)
  }

  lemma AnsweredAfterEnd(
    p: Policy, limit: nat, before: State, ended: State, after: State, command: Command, x: Id)
    requires command.Response? && command.cancelled == Some(x) && EndedFirst(limit, before, ended, x)
    requires AnsweredAt(p, limit, ended, after, command.(cancelled := None), |ended.trace|)
    ensures AnsweredAt(p, limit, before, after, command, |ended.trace|)
  {
    assert after.trace[..|ended.trace|] == ended.trace;
    TracesJoin(before.trace, before.trace + [Retired(x)], ended.trace);
    TracesJoin(before.trace, ended.trace, after.trace);
    assert ended.trace[|before.trace|] == Retired(x);
  }

  lemma CancelledThenAnswered(
    p: Policy, limit: nat, before: State, ended: State, after: State, command: Command, x: Id)
    requires command.Response? && command.cancelled == Some(x) && EndedFirst(limit, before, ended, x)
    requires AnsweredAt(p, limit, ended, after, command.(cancelled := None), |ended.trace|)
    requires FollowedUp(ended, after, command.(cancelled := None), |ended.trace|)
    requires LeavesOthers(ended, after, command.(cancelled := None), |ended.trace|)
    ensures FollowedUp(before, after, command, |ended.trace|) && LeavesOthers(before, after, command, |ended.trace|)
    ensures limit > 0 ==>
      x in Tombs(after.trace[..|ended.trace|], limit) && x !in after.active && Quiet(after.pending, x)
  {
    if limit > 0 {
      assert after.trace[..|ended.trace|] == ended.trace;
      NotAcknowledged(p, limit, ended, after, command, x);
      WithNone(ended.pending, x);
      WithSome(after.pending, x);
    }
  }

  lemma NotAcknowledged(p: Policy, limit: nat, ended: State, after: State, command: Command, x: Id)
    requires command.Response? && Shape(ended, limit) && ended.order == Tombs(ended.trace, limit)
    requires x in ended.suppressed
    requires AnsweredAt(p, limit, ended, after, command.(cancelled := None), |ended.trace|)
    ensures after.trace[|ended.trace|].acked.Some? ==> after.trace[|ended.trace|].acked.value.id != x
  {
    var acked := after.trace[|ended.trace|].acked;
    assert after.trace[..|ended.trace|] == ended.trace;
    if acked.Some? {
      assert after.trace[|ended.trace|].acked == Some(acked.value);
    }
  }

  lemma {:induction false} WithNone(ws: seq<Waiting>, x: Id)
    requires Quiet(ws, x)
    ensures With(ws, x) == []
  {
    if ws != [] {
      WithNone(ws[..|ws| - 1], x);
    }
  }

  lemma {:induction false} WithSome(ws: seq<Waiting>, x: Id)
    requires With(ws, x) == []
    ensures Quiet(ws, x)
  {
    if ws != [] {
      WithSome(ws[..|ws| - 1], x);
    }
  }

  // ----- Events -----

  /** An event with no id, or of an active id, is written at once; one of a suppressed
      id leaves no line; any other is held behind those already held, and if there is
      no room the actor stops. */
  ghost predicate EventMeant(
    p: Policy, limit: nat, before: State, after: State, running: bool, n: nat, stream: string, event: Value)
  {
    match p.eventId(stream, event)
    case None =>
      running && WroteEvent(p, before, after, n, None, stream, event)
      && after == before.(trace := after.trace) && |after.trace| == |before.trace| + 1
    case Some(x) =>
      if x in before.active then
        && running && WroteEvent(p, before, after, n, Some(x), stream, event)
        && (if p.isTerminal(stream, event)
            then Forgets(before, after, x) && (limit > 0 ==> x in after.suppressed)
            else after == before.(trace := after.trace))
      else if x in before.suppressed then
        running && after == before.(trace := before.trace + [Dropped(n, x, BySuppression)])
      else if |before.pending| < limit then
        running && after == before.(pending := before.pending + [Waiting(n, x, stream, event)])
      else
        && !running && after.pending == before.pending
        && Lines(after.trace) == Lines(before.trace) + [TransportErrorLine(OVERFLOW)]
  }

  ghost predicate WroteEvent(
    p: Policy, before: State, after: State, n: nat, topic: Option<Id>, stream: string, event: Value)
  {
    var line := EventLine(stream, event, Addressed(p, before.trace, event));
    before.trace + [Delivered(n, topic, line)] <= after.trace && Lines(after.trace) == Lines(before.trace) + [line]
  }

  lemma RouteIsAddress(p: Policy, limit: nat, commands: seq<Command>, s: State, event: Value)
    requires History(p, limit, commands, s)
    ensures RouteOf(p, s, event) == Addressed(p, s.trace, event)
  {
  }

  /** The line of an event, and what a terminal one leaves. */
  lemma WrittenEvent(
    p: Policy, limit: nat, commands: seq<Command>, s: State, n: nat, id: Option<Id>, stream: string, event: Value)
    requires Shape(s, limit) && History(p, limit, commands, s)
    ensures var s' := EventMessage(p, limit, s, n, id, stream, event);
      && WroteEvent(p, s, s', n, id, stream, event)
      && (if id.Some? && p.isTerminal(stream, event)
          then Forgets(s, s', id.value) && (limit > 0 ==> id.value in s'.suppressed)
          else s' == s.(trace := s'.trace) && |s'.trace| == |s.trace| + 1)
  {
    RouteIsAddress(p, limit, commands, s, event);
    var e := Delivered(n, id, EventLine(stream, event, RouteOf(p, s, event)));
    var written := s.(trace := s.trace + [e]);
    LinesSnoc(s.trace, e);
    if id.Some? && p.isTerminal(stream, event) {
      RetireForgets(limit, written, id.value);
      TracesJoin(written.trace, written.trace + [Retired(id.value)], Retire(written, limit, id.value).trace);
    }
  }

  lemma RefusedEvent(p: Policy, limit: nat, s: State, n: nat, stream: string, event: Value, x: Id)
    requires p.eventId(stream, event) == Some(x) && x !in s.suppressed && x !in s.active && |s.pending| >= limit
    ensures var (s', ok) := EmitCommand(p, limit, s, n, Event(stream, event));
      !ok && s'.pending == s.pending && Lines(s'.trace) == Lines(s.trace) + [TransportErrorLine(OVERFLOW)]
  {
    LinesSnoc(s.trace, Overflowed(n, x));
    LinesSnoc(s.trace + [Overflowed(n, x)], Wrote(TransportErrorLine(OVERFLOW)));
  }

  lemma EventStepMeans(
    p: Policy, limit: nat, commands: seq<Command>, s: State, n: nat, stream: string, event: Value)
    requires Shape(s, limit) && History(p, limit, commands, s)
    ensures var (s', ok) := EmitCommand(p, limit, s, n, Event(stream, event));
      EventMeant(p, limit, s, s', ok, n, stream, event)
  {
    var id := p.eventId(stream, event);
    if id.None? || id.value in s.active {
      WrittenEvent(p, limit, commands, s, n, id, stream, event);
    } else if id.value !in s.suppressed && |s.pending| >= limit {
      RefusedEvent(p, limit, s, n, stream, event, id.value);
    }
  }

  lemma EventMeans(p: Policy, limit: nat, commands: seq<Command>, n: nat, stream: string, event: Value)
    requires Handles(p, limit, commands, n) && commands[n] == Event(stream, event)
    ensures EventMeant(p, limit, StateAt(p, limit, commands, n), StateAt(p, limit, commands, n + 1),
                       Run(p, limit, commands[..n + 1]).running, n, stream, event)
  {
    RunNext(p, limit, commands, n);
    EventStepMeans(p, limit, commands, StateAt(p, limit, commands, n), n, stream, event);
  }

  // ----- The other commands -----

  /** A reset forgets everything, and writes nothing. */
  lemma ResetMeans(p: Policy, limit: nat, commands: seq<Command>, n: nat)
    requires Handles(p, limit, commands, n) && commands[n] == ResetCorrelation
    ensures var before, after := StateAt(p, limit, commands, n), StateAt(p, limit, commands, n + 1);
      && Run(p, limit, commands[..n + 1]).running
      && after.active == map[] && after.pending == [] && after.suppressed == {} && after.order == []
      && before.trace + [Reset] <= after.trace && Lines(after.trace) == Lines(before.trace)
  {
    var before := StateAt(p, limit, commands, n);
    RunNext(p, limit, commands, n);
    ResetIsSilent(before.trace, before.pending);
    DropAllQuiet(limit, before.trace + [Reset], before.pending, ByReset);
  }

  /** The line of a command that is about no event and no response. */
  function OwnLine(command: Command): seq<Line> {
    match command
    case RequestError(id, outcome, message, route) => [ErrorLine(id, outcome, message, route)]
    case ProtocolError(message) => [ProtocolErrorLine(message)]
    case TransportError(message) => [TransportErrorLine(message)]
    case Shutdown(id) => [ShutdownLine(id)]
    case _ => []
  }

  /** Errors and the end of a connection write their line; a query of ids writes none;
      none of them touches correlation. */
  lemma PlainMeans(p: Policy, limit: nat, commands: seq<Command>, n: nat)
    requires Handles(p, limit, commands, n)
    requires !commands[n].Response? && !commands[n].Event? && !commands[n].Cancelled? && !commands[n].ResetCorrelation?
    ensures var before, after := StateAt(p, limit, commands, n), StateAt(p, limit, commands, n + 1);
      && Run(p, limit, commands[..n + 1]).running && after == before.(trace := after.trace)
      && Lines(after.trace) == Lines(before.trace) + OwnLine(commands[n])
      && before.trace <= after.trace && |after.trace| == |before.trace| + |OwnLine(commands[n])|
  {
    RunNext(p, limit, commands, n);
    PlainStep(p, limit, StateAt(p, limit, commands, n), n, commands[n]);
  }

  lemma PlainStep(p: Policy, limit: nat, s: State, n: nat, command: Command)
    requires !command.Response? && !command.Event? && !command.Cancelled? && !command.ResetCorrelation?
    ensures var (s', ok) := EmitCommand(p, limit, s, n, command);
      && ok && s' == s.(trace := s'.trace) && Lines(s'.trace) == Lines(s.trace) + OwnLine(command)
      && s.trace <= s'.trace && |s'.trace| == |s.trace| + |OwnLine(command)|
      && forall k :: |s.trace| <= k < |s'.trace| ==> s'.trace[k].Wrote?
  {
    if OwnLine(command) != [] {
      LinesSnoc(s.trace, Wrote(OwnLine(command)[0]));
    }
  }

  // ----- From commands to the history -----

  /** Where the entries of command n begin. */
  function Start(p: Policy, limit: nat, commands: seq<Command>, n: nat): nat
    requires n <= |commands|
  {
    |StateAt(p, limit, commands, n).trace|
  }

  lemma EntryOf(p: Policy, limit: nat, commands: seq<Command>, n: nat, k: nat)
    requires n < |commands| && k < Start(p, limit, commands, n + 1)
    ensures var trace := Run(p, limit, commands).state.trace;
      k < |trace| && trace[k] == StateAt(p, limit, commands, n + 1).trace[k]
  {
    RunGrows(p, limit, commands, n + 1);
  }

  /** Every entry was made by one command, which the actor handled. */
  lemma {:induction false} MadeBy(p: Policy, limit: nat, commands: seq<Command>, k: nat) returns (m: nat)
    requires k < |Run(p, limit, commands).state.trace|
    ensures Handles(p, limit, commands, m)
    ensures Start(p, limit, commands, m) <= k < Start(p, limit, commands, m + 1)
    decreases |commands|
  {
    var front, last := commands[..|commands| - 1], |commands| - 1;
    if k < |Run(p, limit, front).state.trace| {
      m := MadeBy(p, limit, front, k);
      assert front[..m] == commands[..m] && front[..m + 1] == commands[..m + 1];
    } else {
      m := last;
      assert commands[..last + 1] == commands;
    }
  }

  /** A response whose result names x as its operation or subscription. */
  ghost predicate Names(p: Policy, command: Command, x: Id) {
    && command.Response? && command.result.Ok?
    && p.responseId(command.result.value).Some? && p.responseId(command.result.value).value.id == x
  }

  /** Only a response acknowledges, and only the id its result names; only a reset
      command resets. */
  ghost predicate EntryFits(p: Policy, command: Command, e: Entry) {
    && (e == Reset ==> command == ResetCorrelation)
    && (e.Answered? && e.acked.Some? ==> Names(p, command, e.acked.value.id))
  }

  lemma ResponseEntries(p: Policy, limit: nat, commands: seq<Command>, m: nat, k: nat)
    requires Handles(p, limit, commands, m) && commands[m].Response?
    requires Start(p, limit, commands, m) <= k < Start(p, limit, commands, m + 1)
    ensures EntryFits(p, commands[m], StateAt(p, limit, commands, m + 1).trace[k])
  {
    var at := ResponseMeans(p, limit, commands, m);
    var after := StateAt(p, limit, commands, m + 1);
    if k == at && after.trace[at].acked.Some? {
      assert after.trace[at].acked == Some(after.trace[at].acked.value);
    }
  }

  lemma EventEntries(p: Policy, limit: nat, commands: seq<Command>, m: nat, k: nat)
    requires Handles(p, limit, commands, m) && commands[m].Event?
    requires Start(p, limit, commands, m) <= k < Start(p, limit, commands, m + 1)
    ensures EntryFits(p, commands[m], StateAt(p, limit, commands, m + 1).trace[k])
  {
    var before := StateAt(p, limit, commands, m);
    RunNext(p, limit, commands, m);
    EventStepPlain(p, limit, before, m, commands[m].stream, commands[m].event);
    assert IsPlain(StateAt(p, limit, commands, m + 1).trace[k]);
  }

  /** Neither an answer nor a reset. */
  predicate IsPlain(e: Entry) {
    !e.Answered? && e != Reset
  }

  ghost predicate PlainFrom(trace: Trace, n: nat) {
    forall k :: n <= k < |trace| ==> IsPlain(trace[k])
  }

  lemma EventStepPlain(p: Policy, limit: nat, s: State, n: nat, stream: string, event: Value)
    requires Shape(s, limit)
    ensures PlainFrom(EmitCommand(p, limit, s, n, Event(stream, event)).0.trace, |s.trace|)
  {
    var id := p.eventId(stream, event);
    if id.None? || (id.value in s.active && id.value !in s.suppressed) {
      MessagePlain(p, limit, s, n, id, stream, event);
    }
  }

  lemma MessagePlain(p: Policy, limit: nat, s: State, n: nat, id: Option<Id>, stream: string, event: Value)
    requires Shape(s, limit)
    ensures PlainFrom(EventMessage(p, limit, s, n, id, stream, event).trace, |s.trace|)
  {
    var e := Delivered(n, id, EventLine(stream, event, RouteOf(p, s, event)));
    var written := s.(trace := s.trace + [e]);
    if id.Some? && p.isTerminal(stream, event) {
      RetireForgets(limit, written, id.value);
      TracesJoin(written.trace, written.trace + [Retired(id.value)], Retire(written, limit, id.value).trace);
    }
  }

  lemma EntriesOfCommand(p: Policy, limit: nat, commands: seq<Command>, m: nat, k: nat)
    requires Handles(p, limit, commands, m) && Start(p, limit, commands, m) <= k < Start(p, limit, commands, m + 1)
    ensures EntryFits(p, commands[m], StateAt(p, limit, commands, m + 1).trace[k])
  {
    var before := StateAt(p, limit, commands, m);
    match commands[m]
    case Response(_, _, _, _) => ResponseEntries(p, limit, commands, m, k);
    case Event(_, _) => EventEntries(p, limit, commands, m, k);
    case Cancelled(y) =>
      RunNext(p, limit, commands, m);
      RetireForgets(limit, before, y);
    case ResetCorrelation =>
      RunNext(p, limit, commands, m);
      DropAllQuiet(limit, before.trace + [Reset], before.pending, ByReset);
    case _ => PlainEntries(p, limit, commands, m, k);
  }

  lemma PlainEntries(p: Policy, limit: nat, commands: seq<Command>, m: nat, k: nat)
    requires Handles(p, limit, commands, m)
    requires !commands[m].Response? && !commands[m].Event? && !commands[m].Cancelled? && !commands[m].ResetCorrelation?
    requires Start(p, limit, commands, m) <= k < Start(p, limit, commands, m + 1)
    ensures EntryFits(p, commands[m], StateAt(p, limit, commands, m + 1).trace[k])
  {
    RunNext(p, limit, commands, m);
    PlainStep(p, limit, StateAt(p, limit, commands, m), m, commands[m]);
  }

  // ----- The tombstone window, from the command that cancelled -----

  predicate Cancels(command: Command, x: Id) {
    command == Cancelled(x) || (command.Response? && command.cancelled == Some(x))
  }

  /** The first entry of a cancelling command retires the id. */
  lemma CancelRetires(p: Policy, limit: nat, commands: seq<Command>, n: nat, x: Id)
    requires Handles(p, limit, commands, n) && Cancels(commands[n], x)
    ensures var c := Start(p, limit, commands, n);
      c < Start(p, limit, commands, n + 1) && StateAt(p, limit, commands, n + 1).trace[c] == Retired(x)
  {
    if commands[n].Response? {
      var at := ResponseMeans(p, limit, commands, n);
    } else {
      CancellationEnds(p, limit, commands, n, x);
    }
  }

  /** After an active id is cancelled, by itself or with a response, no event of it is
      written again unless a later response names it after as many distinct other ids
      as the limit were freshly suppressed; a reset command aside. */
  lemma CancelledStaysSilent(p: Policy, limit: nat, commands: seq<Command>, n: nat, x: Id, j: nat)
    returns (a: nat, m: nat)
    requires Handles(p, limit, commands, n) && Cancels(commands[n], x) && x in StateAt(p, limit, commands, n).active
    requires forall i :: n < i < |commands| ==> commands[i] != ResetCorrelation
    requires var trace := Run(p, limit, commands).state.trace;
      Start(p, limit, commands, n) < j < |trace| && trace[j].Delivered? && trace[j].topic == Some(x)
    ensures var trace, c := Run(p, limit, commands).state.trace, Start(p, limit, commands, n);
      && c < a < j && n <= m && Handles(p, limit, commands, m) && Names(p, commands[m], x)
      && Start(p, limit, commands, m) <= a < Start(p, limit, commands, m + 1)
      && |Buried(trace, limit, x, c, a)| >= limit
  {
    var trace, c := Run(p, limit, commands).state.trace, Start(p, limit, commands, n);
    CancelPosition(p, limit, commands, n, x);
    forall i | c < i < j ensures trace[i] != Reset {
      NoReset(p, limit, commands, n, i);
    }
    a := SuppressedEventsStaySuppressed(p, limit, commands, x, c, j);
    m := NamedBy(p, limit, commands, n, a, x);
  }

  lemma CancelPosition(p: Policy, limit: nat, commands: seq<Command>, n: nat, x: Id)
    requires Handles(p, limit, commands, n) && Cancels(commands[n], x) && x in StateAt(p, limit, commands, n).active
    ensures var trace, c := Run(p, limit, commands).state.trace, Start(p, limit, commands, n);
      c < |trace| && trace[c] == Retired(x) && StatusOf(trace[..c], x) == Live
  {
    CancelRetires(p, limit, commands, n, x);
    EntryOf(p, limit, commands, n, Start(p, limit, commands, n));
    RunGrows(p, limit, commands, n);
    assert Run(p, limit, commands).state.trace[..Start(p, limit, commands, n)] == StateAt(p, limit, commands, n).trace;
    PrefixRunKeeps(p, limit, commands, n);
  }

  lemma NamedBy(p: Policy, limit: nat, commands: seq<Command>, n: nat, a: nat, x: Id) returns (m: nat)
    requires n <= |commands| && Start(p, limit, commands, n) < a < |Run(p, limit, commands).state.trace|
    requires Acks(Run(p, limit, commands).state.trace[a], x)
    ensures n <= m && Handles(p, limit, commands, m) && Names(p, commands[m], x)
    ensures Start(p, limit, commands, m) <= a < Start(p, limit, commands, m + 1)
  {
    m := MadeBy(p, limit, commands, a);
    EntryOf(p, limit, commands, m, a);
    EntriesOfCommand(p, limit, commands, m, a);
    LaterCommand(p, limit, commands, n, m, a);
  }

  lemma NoReset(p: Policy, limit: nat, commands: seq<Command>, n: nat, i: nat)
    requires n < |commands| && commands[n] != ResetCorrelation
    requires forall k :: n < k < |commands| ==> commands[k] != ResetCorrelation
    requires Start(p, limit, commands, n) < i < |Run(p, limit, commands).state.trace|
    ensures Run(p, limit, commands).state.trace[i] != Reset
  {
    var m := MadeBy(p, limit, commands, i);
    EntryOf(p, limit, commands, m, i);
    EntriesOfCommand(p, limit, commands, m, i);
    LaterCommand(p, limit, commands, n, m, i);
  }

  lemma LaterCommand(p: Policy, limit: nat, commands: seq<Command>, n: nat, m: nat, k: nat)
    requires n <= |commands| && m < |commands|
    requires Start(p, limit, commands, n) < k < Start(p, limit, commands, m + 1)
    ensures n <= m
  {
    if m < n {
      assert commands[..n][..m + 1] == commands[..m + 1];
      RunGrows(p, limit, commands[..n], m + 1);
    }
  }
}
