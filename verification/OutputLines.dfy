/** How the history of an output actor, and the lines in it, grow. */
module OutputLines {
  import opened Common
  import opened OutputTrace
  import OC = OutputCorrelation

  lemma LinesSnoc(trace: Trace, e: Entry)
    ensures Lines(trace + [e]) == Lines(trace) + LineOf(e)
  {
    assert (trace + [e])[..|trace|] == trace;
  }

  lemma {:induction false} LinesDropAll(trace: Trace, ws: seq<OC.Waiting>, reason: Reason)
    ensures Lines(OC.DropAll(trace, ws, reason)) == Lines(trace)
  {
    if ws != [] {
      var last := ws[|ws| - 1];
      LinesDropAll(trace, ws[..|ws| - 1], reason);
      LinesSnoc(OC.DropAll(trace, ws[..|ws| - 1], reason), Dropped(last.at, last.id, reason));
    }
  }

  /** Retiring an id writes nothing. */
  lemma LinesRetire(s: OC.State, limit: nat, id: Id)
    ensures Lines(OC.Retire(s, limit, id).trace) == Lines(s.trace)
  {
    var gone := OC.DropAll(s.trace + [Retired(id)], OC.With(s.pending, id), ByCancellation);
    assert OC.Retire(s, limit, id).trace == gone;
    LinesSnoc(s.trace, Retired(id));
    LinesDropAll(s.trace + [Retired(id)], OC.With(s.pending, id), ByCancellation);
  }

  lemma ResetIsSilent(trace: Trace, pending: seq<OC.Waiting>)
    ensures Lines(OC.DropAll(trace + [Reset], pending, ByReset)) == Lines(trace)
  {
    LinesSnoc(trace, Reset);
    LinesDropAll(trace + [Reset], pending, ByReset);
  }

  lemma {:induction false} LinesGrow(trace: Trace, longer: Trace)
    requires trace <= longer
    ensures Lines(trace) <= Lines(longer)
    decreases |longer|
  {
    if trace != longer {
      LinesGrow(trace, longer[..|longer| - 1]);
    }
  }

  lemma AcceptGrows(p: Policy, limit: nat, s: OC.State, at: nat, id: Option<Id>, stream: string, event: Value)
    ensures s.trace <= OC.AcceptEvent(p, limit, s, at, id, stream, event).0.trace
  {
    var e := Delivered(at, id, EventLine(stream, event, OC.RouteOf(p, s, event)));
    if id.Some? {
      var written := s.(trace := s.trace + [e]);
      OC.DropAllQuiet(limit, written.trace + [Retired(id.value)], OC.With(s.pending, id.value), ByCancellation);
      assert s.trace <= written.trace + [Retired(id.value)];
      TracesJoin(s.trace, written.trace + [Retired(id.value)],
        OC.DropAll(written.trace + [Retired(id.value)], OC.With(s.pending, id.value), ByCancellation));
    }
  }

  lemma TracesJoin(a: Trace, b: Trace, c: Trace)
    requires a <= b && b <= c
    ensures a <= c
  {
    assert a == b[..|a|] == c[..|b|][..|a|] == c[..|a|];
  }

  lemma {:induction false} ReplayGrows(p: Policy, limit: nat, s: OC.State, ws: seq<OC.Waiting>)
    ensures s.trace <= OC.Replay(p, limit, s, ws).0.trace
    decreases |ws|
  {
    if ws != [] {
      var (s', ok) := OC.AcceptEvent(p, limit, s, ws[0].at, Some(ws[0].id), ws[0].stream, ws[0].event);
      AcceptGrows(p, limit, s, ws[0].at, Some(ws[0].id), ws[0].stream, ws[0].event);
      if ok {
        ReplayGrows(p, limit, s', ws[1..]);
        TracesJoin(s.trace, s'.trace, OC.Replay(p, limit, s, ws).0.trace);
      }
    }
  }

  lemma RetireGrows(s: OC.State, limit: nat, id: Id)
    ensures s.trace <= OC.Retire(s, limit, id).trace
  {
    OC.DropAllQuiet(limit, s.trace + [Retired(id)], OC.With(s.pending, id), ByCancellation);
    TracesJoin(s.trace, s.trace + [Retired(id)], OC.Retire(s, limit, id).trace);
  }

  lemma ResponseGrows(
    p: Policy, limit: nat, s: OC.State, id: Id, result: Result<Value, string>, cancelled: Option<Id>,
    route: Option<ClientRoute>)
    ensures s.trace <= OC.EmitResponse(p, limit, s, id, result, cancelled, route).0.trace
  {
    var s0 := if cancelled.Some? then OC.Retire(s, limit, cancelled.value) else s;
    if cancelled.Some? {
      RetireGrows(s, limit, cancelled.value);
    }
    var tracked := OC.Tracked(p, result);
    var (s1, ws) := OC.Activate(s0, tracked, route);
    var s2 := s1.(trace := s1.trace + [Answered(ResponseLine(id, result, route), OC.Acknowledges(s0, tracked))]);
    ReplayGrows(p, limit, s2, ws);
    TracesJoin(s.trace, s0.trace, s2.trace);
    TracesJoin(s.trace, s2.trace, OC.Replay(p, limit, s2, ws).0.trace);
  }

  lemma CommandGrows(p: Policy, limit: nat, s: OC.State, at: nat, command: Command)
    ensures s.trace <= OC.EmitCommand(p, limit, s, at, command).0.trace
  {
    match command
    case Response(id, result, cancelled, route) => ResponseGrows(p, limit, s, id, result, cancelled, route);
    case Cancelled(id) => RetireGrows(s, limit, id);
    case Event(stream, event) => AcceptGrows(p, limit, s, at, p.eventId(stream, event), stream, event);
    case ResetCorrelation =>
      OC.DropAllQuiet(limit, s.trace + [Reset], s.pending, ByReset);
      TracesJoin(s.trace, s.trace + [Reset], OC.ResetCorrelations(s).trace);
    case _ =>
  }

  lemma {:induction false} RunGrows(p: Policy, limit: nat, commands: seq<Command>, n: nat)
    requires n <= |commands|
    ensures OC.Run(p, limit, commands[..n]).state.trace <= OC.Run(p, limit, commands).state.trace
    decreases |commands|
  {
    if n == |commands| {
      assert commands[..n] == commands;
    } else {
      var front, last := commands[..|commands| - 1], |commands| - 1;
      assert commands[..n] == front[..n];
      RunGrows(p, limit, front, n);
      var r := OC.Run(p, limit, front);
      if r.running {
        CommandGrows(p, limit, r.state, last, commands[last]);
        TracesJoin(OC.Run(p, limit, commands[..n]).state.trace, r.state.trace, OC.Run(p, limit, commands).state.trace);
      }
    }
  }
}
