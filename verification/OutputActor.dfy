/** The output actor as it runs: an object whose methods update four linked
    collections in place.  Each method does what the function of the same name in
    OutputCorrelation says. */
module OutputActor {
  import opened Common
  import opened OutputTrace
  import opened Sorting
  import opened OutputLines
  import OC = OutputCorrelation

  type Buffered = (Id, string, Value)

  ghost function Numbered(events: seq<Buffered>, arrivals: seq<nat>): seq<OC.Waiting>
    requires |events| == |arrivals|
  {
    seq(|events|, i requires 0 <= i < |events| => OC.Waiting(arrivals[i], events[i].0, events[i].1, events[i].2))
  }

  lemma NumberedSnoc(events: seq<Buffered>, arrivals: seq<nat>, e: Buffered, at: nat)
    requires |events| == |arrivals|
    ensures Numbered(events + [e], arrivals + [at])
         == Numbered(events, arrivals) + [OC.Waiting(at, e.0, e.1, e.2)]
  {
  }

  function Emitted(message: Option<Line>): seq<Line> {
    if message.Some? then [message.value] else []
  }

  /** What was written before a line that could not be is the start of what was due. */
  lemma FallsShort(written: seq<Line>, line: Line, trace: Trace, goal: Trace)
    requires Lines(trace) == written + [line] && trace <= goal
    ensures written < Lines(goal)
  {
    LinesGrow(trace, goal);
  }

  /** Full: an event found the buffer full.  Broken: the writer failed. */
  datatype Outcome = Going | Full | Broken

  function OutcomeOf(going: bool): Outcome {
    if going then Going else Full
  }

  predicate RoutedTo(route: Option<ClientRoute>, owner: (string, nat)) {
    route.Some? && route.value.consumerId == owner.0 && route.value.generation == owner.1
  }

  class OutputState {
    const policy: Policy
    const pendingLimit: nat
    var activeIds: map<Id, Option<ClientRoute>>
    var pendingEvents: seq<Buffered>
    var suppressedIds: set<Id>
    var suppressedOrder: seq<Id>
    var writer: seq<Line>
    // How many more lines the writer takes before it fails.
    var accepts: nat
    // For each buffered event, the position of the command that delivered it.
    ghost var arrivals: seq<nat>
    ghost var trace: Trace

    ghost predicate Valid() reads this {
      |arrivals| == |pendingEvents|
    }

    ghost function View(): OC.State
      requires Valid()
      reads this
    {
      OC.State(activeIds, Numbered(pendingEvents, arrivals), suppressedIds, suppressedOrder, trace)
    }

    /** The writer failed with everything written that it took, short of this history. */
    ghost predicate Cut(goal: Trace) reads this {
      accepts == 0 && writer < Lines(goal)
    }

    constructor (policy: Policy, pendingLimit: nat, accepts: nat)
      ensures Valid() && View() == OC.INITIAL && writer == [] && this.accepts == accepts
      ensures this.policy == policy && this.pendingLimit == pendingLimit
    {
      this.policy, this.pendingLimit, this.accepts := policy, pendingLimit, accepts;
      activeIds, pendingEvents, suppressedIds, suppressedOrder := map[], [], {}, [];
      writer, arrivals, trace := [], [], [];
    }

    method TakePending(id: Id) returns (matching: seq<Buffered>, ghost numbers: seq<nat>)
      requires Valid()
      modifies `pendingEvents, `arrivals
      ensures Valid() && |matching| == |numbers|
      ensures Numbered(matching, numbers) == OC.With(old(View()).pending, id)
      ensures View() == old(View()).(pending := OC.Without(old(View()).pending, id))
    {
      var retained: seq<Buffered>;
      ghost var kept: seq<nat>;
      matching, numbers, retained, kept := [], [], [], [];
      var events := pendingEvents;
      ghost var received, all := arrivals, Numbered(pendingEvents, arrivals);
      for i := 0 to |events|
        invariant |matching| == |numbers| && |retained| == |kept|
        invariant Numbered(matching, numbers) == OC.With(all[..i], id)
        invariant Numbered(retained, kept) == OC.Without(all[..i], id)
      {
        assert all[..i + 1][..i] == all[..i];
        if events[i].0 == id {
          NumberedSnoc(matching, numbers, events[i], received[i]);
          matching, numbers := matching + [events[i]], numbers + [received[i]];
        } else {
          NumberedSnoc(retained, kept, events[i], received[i]);
          retained, kept := retained + [events[i]], kept + [received[i]];
        }
      }
      assert all[..|events|] == all;
      pendingEvents, arrivals := retained, kept;
    }

    method Suppress(id: Id)
      requires Valid()
      modifies `suppressedIds, `suppressedOrder
      ensures View() == OC.Suppress(old(View()), pendingLimit, id)
    {
      if pendingLimit == 0 || id in suppressedIds {
        return;
      }
      suppressedIds := suppressedIds + {id};
      if |suppressedOrder| >= pendingLimit && |suppressedOrder| > 0 {
        var oldest := suppressedOrder[0];
        suppressedOrder := suppressedOrder[1..];
        suppressedIds := suppressedIds - {oldest};
      }
      suppressedOrder := suppressedOrder + [id];
    }

    method Cancelled(id: Id)
      requires Valid()
      modifies this
      ensures Valid() && View() == OC.Retire(old(View()), pendingLimit, id)
      ensures Lines(trace) == old(Lines(trace)) && writer == old(writer) && accepts == old(accepts)
    {
      ghost var s := View();
      LinesRetire(s, pendingLimit, id);
      activeIds := activeIds - {id};
      var dropped, numbers := TakePending(id);
      trace := OC.DropAll(trace + [Retired(id)], Numbered(dropped, numbers), ByCancellation);
      assert View() == s.(active := s.active - {id}, pending := OC.Without(s.pending, id),
                          trace := OC.DropAll(s.trace + [Retired(id)], OC.With(s.pending, id), ByCancellation));
      Suppress(id);
    }

    method EventMessage(ghost at: nat, id: Option<Id>, stream: string, event: Value) returns (message: Line)
      requires Valid()
      modifies this
      ensures Valid() && View() == OC.EventMessage(policy, pendingLimit, old(View()), at, id, stream, event)
      ensures message == EventLine(stream, event, OC.RouteOf(policy, old(View()), event))
      ensures Lines(trace) == old(Lines(trace)) + [message] && writer == old(writer) && accepts == old(accepts)
    {
      var route := None;
      var subscription := policy.subscriptionId(event);
      if subscription.Some? && subscription.value in activeIds {
        route := activeIds[subscription.value];
      }
      message := EventLine(stream, event, route);
      LinesSnoc(trace, Delivered(at, id, message));
      trace := trace + [Delivered(at, id, message)];
      if id.Some? && policy.isTerminal(stream, event) {
        Cancelled(id.value);
      }
    }

    method AcceptEvent(ghost at: nat, id: Option<Id>, stream: string, event: Value)
      returns (message: Option<Line>, ok: bool)
      requires Valid()
      modifies this
      ensures Valid()
      ensures (View(), ok) == OC.AcceptEvent(policy, pendingLimit, old(View()), at, id, stream, event)
      ensures Lines(trace) == old(Lines(trace)) + Emitted(message) && writer == old(writer) && accepts == old(accepts)
      ensures !ok ==> message.None?
    {
      message, ok := None, true;
      if id.Some? && id.value in suppressedIds {
        LinesSnoc(trace, Dropped(at, id.value, BySuppression));
        trace := trace + [Dropped(at, id.value, BySuppression)];
      } else if id.Some? && id.value !in activeIds {
        ok := Buffer(at, id.value, stream, event);
      } else {
        var line := EventMessage(at, id, stream, event);
        message := Some(line);
      }
    }

    method Buffer(ghost at: nat, id: Id, stream: string, event: Value) returns (ok: bool)
      requires Valid()
      modifies `pendingEvents, `arrivals, `trace
      ensures Valid() && ok == (old(|pendingEvents|) < pendingLimit)
      ensures Lines(trace) == old(Lines(trace))
      ensures View() == if ok
        then old(View()).(pending := old(View()).pending + [OC.Waiting(at, id, stream, event)])
        else old(View()).(trace := old(trace) + [Overflowed(at, id)])
    {
      ok := |pendingEvents| < pendingLimit;
      if ok {
        NumberedSnoc(pendingEvents, arrivals, (id, stream, event), at);
        pendingEvents, arrivals := pendingEvents + [(id, stream, event)], arrivals + [at];
      } else {
        LinesSnoc(trace, Overflowed(at, id));
        trace := trace + [Overflowed(at, id)];
      }
    }

    method Activate(tracked: Option<TrackedId>, route: Option<ClientRoute>)
      returns (pending: seq<Buffered>, ghost numbers: seq<nat>)
      requires Valid()
      modifies `activeIds, `pendingEvents, `arrivals
      ensures Valid() && |pending| == |numbers|
      ensures (View(), Numbered(pending, numbers)) == OC.Activate(old(View()), tracked, route)
    {
      pending, numbers := [], [];
      assert Numbered(pending, numbers) == [];
      if tracked.None? || tracked.value.id in suppressedIds {
        return;
      }
      var id := tracked.value.id;
      pending, numbers := TakePending(id);
      if id !in activeIds {
        activeIds := activeIds[id := None];
      }
      if route.Some? && tracked.value.kind == Subscribed {
        activeIds := activeIds[id := route];
      }
      assert activeIds == OC.ActiveAfter(old(View()), tracked, route);
    }

    ghost function Asked(owner: Option<(string, nat)>): set<Id> reads this {
      set x | x in activeIds && (owner.Some? ==> RoutedTo(activeIds[x], owner.value))
    }

    /** The ids a consumer's generation subscribed to, or every active id, sorted. */
    method QueryIds(owner: Option<(string, nat)>) returns (ids: seq<Id>)
      ensures multiset(ids) == multiset(Asked(owner)) && (owner.None? ==> Ordered(ids, StringLe))
    {
      StringsAreOrdered();
      var asked := set x | x in activeIds && (owner.Some? ==> RoutedTo(activeIds[x], owner.value));
      ids := Listed(asked, StringLe);
    }

    method EmitLine(line: Line) returns (ok: bool)
      modifies `writer, `accepts
      ensures ok == (old(accepts) > 0)
      ensures writer == if ok then old(writer) + [line] else old(writer)
      ensures accepts == if ok then old(accepts) - 1 else 0
    {
      ok := accepts > 0;
      if ok {
        writer, accepts := writer + [line], accepts - 1;
      }
    }

    method ResetCorrelation()
      requires Valid()
      modifies this
      ensures Valid() && View() == OC.ResetCorrelations(old(View()))
      ensures Lines(trace) == old(Lines(trace)) && writer == old(writer) && accepts == old(accepts)
    {
      ghost var s := View();
      ResetIsSilent(s.trace, s.pending);
      trace := OC.DropAll(s.trace + [Reset], s.pending, ByReset);
      Clear();
    }

    method Clear()
      modifies `activeIds, `pendingEvents, `suppressedIds, `suppressedOrder, `arrivals
      ensures Valid() && View() == OC.State(map[], [], {}, [], trace)
    {
      activeIds, pendingEvents, suppressedIds, suppressedOrder := map[], [], {}, [];
      arrivals := [];
      assert Numbered(pendingEvents, arrivals) == [];
    }

    method EmitResponse(id: Id, result: Result<Value, string>, cancelled: Option<Id>, route: Option<ClientRoute>)
      returns (outcome: Outcome)
      requires Valid() && writer == Lines(trace)
      modifies this
      ensures Valid() && |writer| + accepts == old(|writer| + accepts)
      ensures var (s, ok) := OC.EmitResponse(policy, pendingLimit, old(View()), id, result, cancelled, route);
        if outcome == Broken then Cut(s.trace) else writer == Lines(trace) && View() == s && outcome == OutcomeOf(ok)
    {
      if cancelled.Some? {
        Cancelled(cancelled.value);
      }
      var tracked := OC.Tracked(policy, result);
      var line := ResponseLine(id, result, route);
      var pending, numbers, ok := Answer(line, tracked, route);
      if !ok {
        ReplayGrows(policy, pendingLimit, View(), Numbered(pending, numbers));
        FallsShort(writer, line, trace, OC.Replay(policy, pendingLimit, View(), Numbered(pending, numbers)).0.trace);
        return Broken;
      }
      outcome := ReplayPending(pending, numbers);
    }

    /** The response line, and the events to replay behind it. */
    method Answer(line: Line, tracked: Option<TrackedId>, route: Option<ClientRoute>)
      returns (pending: seq<Buffered>, ghost numbers: seq<nat>, ok: bool)
      requires Valid() && writer == Lines(trace)
      modifies this
      ensures Valid() && |pending| == |numbers| && |writer| + accepts == old(|writer| + accepts)
      ensures if ok then writer == Lines(trace) else accepts == 0 && writer + [line] == Lines(trace)
      ensures var answer := Answered(line, OC.Acknowledges(old(View()), tracked));
        var (s, ws) := OC.Activate(old(View()), tracked, route);
        View() == s.(trace := s.trace + [answer]) && Numbered(pending, numbers) == ws
    {
      ghost var answer := Answered(line, OC.Acknowledges(View(), tracked));
      pending, numbers := Activate(tracked, route);
      ghost var s := View();
      ok := EmitLine(line);
      LinesSnoc(s.trace, answer);
      trace := trace + [answer];
      assert View() == s.(trace := s.trace + [answer]);
    }

    method ReplayPending(pending: seq<Buffered>, ghost numbers: seq<nat>) returns (outcome: Outcome)
      requires Valid() && writer == Lines(trace) && |pending| == |numbers|
      modifies this
      ensures Valid() && |writer| + accepts == old(|writer| + accepts)
      ensures var (s, ok) := OC.Replay(policy, pendingLimit, old(View()), Numbered(pending, numbers));
        if outcome == Broken then Cut(s.trace) else writer == Lines(trace) && View() == s && outcome == OutcomeOf(ok)
    {
      ghost var all := Numbered(pending, numbers);
      for i := 0 to |pending|
        invariant Valid() && writer == Lines(trace) && |writer| + accepts == old(|writer| + accepts)
        invariant OC.Replay(policy, pendingLimit, View(), all[i..]) == OC.Replay(policy, pendingLimit, old(View()), all)
      {
        assert all[i..][1..] == all[i + 1..] && all[i..][0] == all[i];
        var message, ok := AcceptEvent(numbers[i], Some(pending[i].0), pending[i].1, pending[i].2);
        if !ok {
          return Full;
        }
        if message.Some? {
          var written := EmitLine(message.value);
          if !written {
            ReplayGrows(policy, pendingLimit, View(), all[i + 1..]);
            FallsShort(writer, message.value, trace, OC.Replay(policy, pendingLimit, View(), all[i + 1..]).0.trace);
            return Broken;
          }
        }
      }
      return Going;
    }

    /** A line outside correlation. */
    method EmitMessage(line: Line) returns (ok: bool)
      requires Valid() && writer == Lines(trace)
      modifies `writer, `trace, `accepts
      ensures Valid() && View() == OC.Write(old(View()), line) && |writer| + accepts == old(|writer| + accepts)
      ensures if ok then writer == Lines(trace) else Cut(trace)
    {
      ghost var s, due := View(), Lines(trace);
      LinesSnoc(trace, Wrote(line));
      ok := EmitLine(line);
      trace := trace + [Wrote(line)];
      assert Lines(trace) == due + [line] && View() == s.(trace := trace);
    }

    method EmitEvent(ghost at: nat, stream: string, event: Value) returns (outcome: Outcome)
      requires Valid() && writer == Lines(trace)
      modifies this
      ensures Valid() && |writer| + accepts == old(|writer| + accepts)
      ensures var (s, ok) := OC.EmitCommand(policy, pendingLimit, old(View()), at, Event(stream, event));
        if outcome == Broken then Cut(s.trace) else writer == Lines(trace) && View() == s && outcome == OutcomeOf(ok)
    {
      var message, ok := AcceptEvent(at, policy.eventId(stream, event), stream, event);
      assert (View(), ok)
          == OC.AcceptEvent(policy, pendingLimit, old(View()), at, policy.eventId(stream, event), stream, event);
      var written := true;
      if !ok {
        written := EmitMessage(TransportErrorLine(OC.OVERFLOW));
      } else if message.Some? {
        written := EmitLine(message.value);
      }
      outcome := if written then OutcomeOf(ok) else Broken;
    }

    /** The reply answers a query of ids. */
    method EmitCommand(ghost at: nat, command: Command) returns (outcome: Outcome, reply: Option<seq<Id>>)
      requires Valid() && writer == Lines(trace)
      modifies this
      ensures Valid() && |writer| + accepts == old(|writer| + accepts)
      ensures var (s, ok) := OC.EmitCommand(policy, pendingLimit, old(View()), at, command);
        if outcome == Broken then Cut(s.trace) else writer == Lines(trace) && View() == s && outcome == OutcomeOf(ok)
      ensures reply.Some? <==> command.ActiveIds?
      ensures command.ActiveIds? ==> multiset(reply.value) == multiset(old(Asked(command.owner)))
      ensures command.ActiveIds? && command.owner.None? ==> Ordered(reply.value, StringLe)
    {
      var message := None;
      outcome, reply := Going, None;
      match command {
        case RequestError(id, kind, text, route) => message := Some(ErrorLine(id, kind, text, route));
        case Response(id, result, cancelled, route) => outcome := EmitResponse(id, result, cancelled, route);
        case ActiveIds(owner) =>
          var ids := QueryIds(owner);
          reply := Some(ids);
        case Cancelled(id) => Cancelled(id);
        case Event(stream, event) => outcome := EmitEvent(at, stream, event);
        case ProtocolError(text) => message := Some(ProtocolErrorLine(text));
        case TransportError(text) => message := Some(TransportErrorLine(text));
        case ResetCorrelation => ResetCorrelation();
        case Shutdown(id) => message := Some(ShutdownLine(id));
      }
      if message.Some? {
        var written := EmitMessage(message.value);
        outcome := if written then Going else Broken;
      }
    }

    /** The actor's loop over the commands in the order it receives them.  If the writer
        fails, what it took is the start of the lines due, up to its last. */
    method RunOutputActor(commands: seq<Command>) returns (outcome: Outcome)
      requires Valid() && View() == OC.INITIAL && writer == []
      modifies this
      ensures Valid() && |writer| + accepts == old(accepts)
      ensures var r := OC.Run(policy, pendingLimit, commands);
        if outcome == Broken then Cut(r.state.trace)
        else writer == Lines(trace) && View() == r.state && outcome == OutcomeOf(r.running)
    {
      outcome := Going;
      assert commands[..0] == [];
      var n := 0;
      while outcome == Going && n < |commands|
        invariant n <= |commands| && Valid() && |writer| + accepts == old(accepts)
        invariant var r := OC.Run(policy, pendingLimit, commands[..n]);
          if outcome == Broken then Cut(r.state.trace)
          else writer == Lines(trace) && View() == r.state && outcome == OutcomeOf(r.running)
      {
        assert commands[..n + 1][..n] == commands[..n];
        var reply;
        outcome, reply := EmitCommand(n, commands[n]);
        n := n + 1;
      }
      if outcome == Broken {
        RunGrows(policy, pendingLimit, commands, n);
        LinesGrow(
          OC.Run(policy, pendingLimit, commands[..n]).state.trace, OC.Run(policy, pendingLimit, commands).state.trace);
      } else {
        StoppedStays(policy, pendingLimit, commands, n);
      }
    }
  }

  lemma {:induction false} StoppedStays(p: Policy, limit: nat, commands: seq<Command>, n: nat)
    requires n <= |commands| && (n == |commands| || !OC.Run(p, limit, commands[..n]).running)
    ensures OC.Run(p, limit, commands) == OC.Run(p, limit, commands[..n])
    decreases |commands|
  {
    if n == |commands| {
      assert commands[..n] == commands;
    } else {
      var front := commands[..|commands| - 1];
      assert front[..n] == commands[..n];
      StoppedStays(p, limit, front, n);
    }
  }
}
