/** The output actor as functions on values: correlation state, one command, a
    whole run.  The invariant proved for every run says that the four linked
    collections agree with each other and with a legal history. */
module OutputCorrelation {
  import opened Common
  import opened OutputTrace

  /** An event held back until its id is acknowledged. */
  datatype Waiting = Waiting(at: nat, id: Id, stream: string, event: Value)

  datatype State = State(
    active: map<Id, Option<ClientRoute>>,
    pending: seq<Waiting>,
    suppressed: set<Id>,
    order: seq<Id>,
    trace: Trace)

  const INITIAL := State(map[], [], {}, [], [])

  function With(ws: seq<Waiting>, id: Id): seq<Waiting> {
    if ws == [] then []
    else With(ws[..|ws| - 1], id) + if ws[|ws| - 1].id == id then [ws[|ws| - 1]] else []
  }

  function Without(ws: seq<Waiting>, id: Id): seq<Waiting> {
    if ws == [] then []
    else Without(ws[..|ws| - 1], id) + if ws[|ws| - 1].id == id then [] else [ws[|ws| - 1]]
  }

  function DropAll(trace: Trace, ws: seq<Waiting>, reason: Reason): Trace {
    if ws == [] then trace
    else DropAll(trace, ws[..|ws| - 1], reason) + [Dropped(ws[|ws| - 1].at, ws[|ws| - 1].id, reason)]
  }

  function Suppress(s: State, limit: nat, id: Id): State {
    if limit == 0 || id in s.suppressed then s
    else
      var inserted := s.suppressed + {id};
      if |s.order| >= limit && |s.order| > 0
      then s.(suppressed := inserted - {s.order[0]}, order := s.order[1..] + [id])
      else s.(suppressed := inserted, order := s.order + [id])
  }

  function Retire(s: State, limit: nat, id: Id): State {
    Suppress(s.(active := s.active - {id},
                pending := Without(s.pending, id),
                trace := DropAll(s.trace + [Retired(id)], With(s.pending, id), ByCancellation)),
             limit, id)
  }

  function RouteOf(p: Policy, s: State, event: Value): Option<ClientRoute> {
    match p.subscriptionId(event)
    case Some(id) => if id in s.active then s.active[id] else None
    case None => None
  }

  function EventMessage(p: Policy, limit: nat, s: State, at: nat, id: Option<Id>, stream: string, event: Value): State {
    var written := s.(trace := s.trace + [Delivered(at, id, EventLine(stream, event, RouteOf(p, s, event)))]);
    if id.Some? && p.isTerminal(stream, event) then Retire(written, limit, id.value) else written
  }

  /** The flag is false when the pre-acknowledgement buffer is full. */
  function AcceptEvent(p: Policy, limit: nat, s: State, at: nat, id: Option<Id>, stream: string, event: Value)
    : (State, bool)
  {
    if id.Some? && id.value in s.suppressed then
      (s.(trace := s.trace + [Dropped(at, id.value, BySuppression)]), true)
    else if id.Some? && id.value !in s.active then
      if |s.pending| < limit
      then (s.(pending := s.pending + [Waiting(at, id.value, stream, event)]), true)
      else (s.(trace := s.trace + [Overflowed(at, id.value)]), false)
    else
      (EventMessage(p, limit, s, at, id, stream, event), true)
  }

  /** Acknowledged, when the response names an id that is not suppressed. */
  function Acknowledges(s: State, tracked: Option<TrackedId>): Option<TrackedId> {
    if tracked.Some? && tracked.value.id !in s.suppressed then tracked else None
  }

  /** A repeated response must not discard a route already acknowledged. */
  function ActiveAfter(s: State, acked: Option<TrackedId>, route: Option<ClientRoute>): map<Id, Option<ClientRoute>> {
    match acked
    case None => s.active
    case Some(TrackedId(id, kind)) =>
      var known := if id in s.active then s.active[id] else None;
      s.active[id := if route.Some? && kind == Subscribed then route else known]
  }

  function Activate(s: State, tracked: Option<TrackedId>, route: Option<ClientRoute>): (State, seq<Waiting>) {
    var acked := Acknowledges(s, tracked);
    if acked.None? then (s, [])
    else (s.(active := ActiveAfter(s, acked, route), pending := Without(s.pending, acked.value.id)),
          With(s.pending, acked.value.id))
  }

  function Replay(p: Policy, limit: nat, s: State, ws: seq<Waiting>): (State, bool)
    decreases |ws|
  {
    if ws == [] then (s, true)
    else
      var (s', ok) := AcceptEvent(p, limit, s, ws[0].at, Some(ws[0].id), ws[0].stream, ws[0].event);
      if ok then Replay(p, limit, s', ws[1..]) else (s', false)
  }

  function Tracked(p: Policy, result: Result<Value, string>): Option<TrackedId> {
    match result
    case Ok(response) => p.responseId(response)
    case Err(_) => None
  }

  function EmitResponse(p: Policy, limit: nat, s: State, id: Id, result: Result<Value, string>,
                        cancelled: Option<Id>, route: Option<ClientRoute>): (State, bool)
  {
    var s0 := if cancelled.Some? then Retire(s, limit, cancelled.value) else s;
    var tracked := Tracked(p, result);
    var (s1, ws) := Activate(s0, tracked, route);
    var answer := Answered(ResponseLine(id, result, route), Acknowledges(s0, tracked));
    Replay(p, limit, s1.(trace := s1.trace + [answer]), ws)
  }

  function Write(s: State, line: Line): State {
    s.(trace := s.trace + [Wrote(line)])
  }

  function ResetCorrelations(s: State): State {
    State(map[], [], {}, [], DropAll(s.trace + [Reset], s.pending, ByReset))
  }

  function EmitCommand(p: Policy, limit: nat, s: State, at: nat, command: Command): (State, bool) {
    match command
    case RequestError(id, outcome, message, route) => (Write(s, ErrorLine(id, outcome, message, route)), true)
    case Response(id, result, cancelled, route) => EmitResponse(p, limit, s, id, result, cancelled, route)
    case ActiveIds(_) => (s, true)
    case Cancelled(id) => (Retire(s, limit, id), true)
    case Event(stream, event) =>
      var (s', ok) := AcceptEvent(p, limit, s, at, p.eventId(stream, event), stream, event);
      if ok then (s', true)
      else (Write(s', TransportErrorLine(OVERFLOW)), false)
    case ProtocolError(message) => (Write(s, ProtocolErrorLine(message)), true)
    case TransportError(message) => (Write(s, TransportErrorLine(message)), true)
    case ResetCorrelation => (ResetCorrelations(s), true)
    case Shutdown(id) => (Write(s, ShutdownLine(id)), true)
  }

  const OVERFLOW := "pre-acknowledgement event capacity exhausted; reconnect and reconcile state"

  /** How far an actor got: it stops at the first command that fails. */
  datatype Progress = Progress(state: State, handled: nat, running: bool)

  function Run(p: Policy, limit: nat, commands: seq<Command>): (r: Progress)
    ensures r.handled <= |commands|
    ensures r.running ==> r.handled == |commands|
  {
    if commands == [] then Progress(INITIAL, 0, true)
    else
      var last := |commands| - 1;
      var r := Run(p, limit, commands[..last]);
      if !r.running then r
      else
        var (s, ok) := EmitCommand(p, limit, r.state, last, commands[last]);
        Progress(s, last + 1, ok)
  }

  // ----- The invariant -----

  function Count(ws: seq<Waiting>, at: nat): nat {
    if ws == [] then 0
    else Count(ws[..|ws| - 1], at) + if ws[|ws| - 1].at == at then 1 else 0
  }

  /** The collections agree with each other. */
  ghost predicate Shape(s: State, limit: nat) {
    && (forall x :: x in s.active ==> x !in s.suppressed)
    && (forall i :: 0 <= i < |s.pending| ==> s.pending[i].id !in s.active && s.pending[i].id !in s.suppressed)
    && Distinct(s.order) && |s.order| <= limit
    && (forall x :: x in s.suppressed <==> x in s.order)
    && |s.pending| <= limit
  }

  /** The collections are what the history says, and the history is legal. */
  ghost predicate History(p: Policy, limit: nat, commands: seq<Command>, s: State) {
    && Legal(p, limit, commands, s.trace)
    && s.order == Tombs(s.trace, limit)
    && (forall x :: x in s.active <==> StatusOf(s.trace, x) == Live)
    && (forall x :: x in s.active ==> s.active[x] == Address(s.trace, x))
    && (forall x :: x !in s.active ==> Address(s.trace, x) == None)
  }

  ghost predicate Genuine(p: Policy, commands: seq<Command>, n: nat, w: Waiting) {
    w.at < n && Arrived(p, commands, w.at, Some(w.id)) && commands[w.at] == Event(w.stream, w.event)
  }

  ghost predicate AllGenuine(p: Policy, commands: seq<Command>, n: nat, ws: seq<Waiting>) {
    forall i :: 0 <= i < |ws| ==> Genuine(p, commands, n, ws[i])
  }

  ghost predicate Sorted(ws: seq<Waiting>) {
    forall i, j :: 0 <= i < j < |ws| && ws[i].id == ws[j].id ==> ws[i].at < ws[j].at
  }

  /** Everything written for an id came before the events still held for it. */
  ghost predicate AllLater(trace: Trace, ws: seq<Waiting>) {
    forall i, k :: 0 <= i < |ws| && 0 <= k < |trace| && trace[k].Delivered? && trace[k].topic == Some(ws[i].id)
      ==> trace[k].at < ws[i].at
  }

  ghost predicate WrittenBefore(trace: Trace, n: nat) {
    forall k :: 0 <= k < |trace| && trace[k].Delivered? ==> trace[k].at < n
  }

  function Expected(commands: seq<Command>, n: nat, at: nat): nat {
    if at < n && at < |commands| && commands[at].Event? then 1 else 0
  }

  /** Each event delivered by the first n commands is decided once, or held once. */
  ghost predicate Balanced(commands: seq<Command>, n: nat, trace: Trace, held: seq<Waiting>) {
    forall at :: Fates(trace, at) + Count(held, at) == Expected(commands, n, at)
  }

  /** The events still held are genuine, in order, and accounted for. */
  ghost predicate Ledger(p: Policy, commands: seq<Command>, n: nat, trace: Trace, held: seq<Waiting>) {
    && AllGenuine(p, commands, n, held)
    && Sorted(held)
    && AllLater(trace, held)
    && WrittenBefore(trace, n)
    && Balanced(commands, n, trace, held)
  }

  /** The invariant while the events `flying` are being replayed or accepted. */
  ghost predicate Inv(p: Policy, limit: nat, commands: seq<Command>, n: nat, s: State, flying: seq<Waiting>) {
    && Shape(s, limit)
    && History(p, limit, commands, s)
    && Ledger(p, commands, n, s.trace, s.pending + flying)
  }

  // ----- Sequence facts -----

  lemma {:induction false} CountAppend(a: seq<Waiting>, b: seq<Waiting>, at: nat)
    ensures Count(a + b, at) == Count(a, at) + Count(b, at)
  {
    if b == [] {
      assert a + b == a;
    } else {
      assert (a + b)[..|a + b| - 1] == a + b[..|b| - 1];
      CountAppend(a, b[..|b| - 1], at);
    }
  }

  lemma {:induction false} CountSplit(ws: seq<Waiting>, id: Id, at: nat)
    ensures Count(With(ws, id), at) + Count(Without(ws, id), at) == Count(ws, at)
  {
    if ws != [] {
      var front, last := ws[..|ws| - 1], ws[|ws| - 1];
      CountSplit(front, id, at);
      if last.id == id {
        CountSnoc(With(front, id), last, at);
        assert Without(ws, id) == Without(front, id);
      } else {
        CountSnoc(Without(front, id), last, at);
        assert With(ws, id) == With(front, id);
      }
    }
  }

  lemma CountSnoc(ws: seq<Waiting>, w: Waiting, at: nat)
    ensures Count(ws + [w], at) == Count(ws, at) + if w.at == at then 1 else 0
  {
    assert (ws + [w])[..|ws|] == ws;
  }

  /** Both halves of a split are subsequences: order and members are kept. */
  lemma {:induction false} SplitKeeps(ws: seq<Waiting>, id: Id)
    ensures forall i :: 0 <= i < |With(ws, id)| ==> With(ws, id)[i] in ws && With(ws, id)[i].id == id
    ensures forall i :: 0 <= i < |Without(ws, id)| ==> Without(ws, id)[i] in ws && Without(ws, id)[i].id != id
    ensures Sorted(ws) ==> Sorted(With(ws, id)) && Sorted(Without(ws, id))
    ensures |With(ws, id)| + |Without(ws, id)| == |ws|
  {
    if ws != [] {
      SplitKeeps(ws[..|ws| - 1], id);
    }
  }

  ghost predicate MayDrop(limit: nat, trace: Trace, id: Id, reason: Reason) {
    match reason
    case ByCancellation => StatusOf(trace, id) == Dead
    case ByReset => StatusOf(trace, id) == Unknown
    case BySuppression => id in Tombs(trace, limit)
  }

  ghost predicate Justified(limit: nat, trace: Trace, ws: seq<Waiting>, reason: Reason) {
    forall i :: 0 <= i < |ws| ==> MayDrop(limit, trace, ws[i].id, reason)
  }

  /** Dropping events leaves correlation alone ... */
  lemma {:induction false} DropAllQuiet(limit: nat, trace: Trace, ws: seq<Waiting>, reason: Reason)
    ensures var t := DropAll(trace, ws, reason);
      && Tombs(t, limit) == Tombs(trace, limit)
      && (forall x :: StatusOf(t, x) == StatusOf(trace, x) && Address(t, x) == Address(trace, x))
      && trace <= t && forall k :: |trace| <= k < |t| ==> t[k].Dropped?
  {
    if ws != [] {
      var before := DropAll(trace, ws[..|ws| - 1], reason);
      DropAllQuiet(limit, trace, ws[..|ws| - 1], reason);
      assert DropAll(trace, ws, reason)[..|before|] == before;
    }
  }

  /** ... decides each fate once ... */
  lemma {:induction false} DropAllFates(trace: Trace, ws: seq<Waiting>, reason: Reason, at: nat)
    ensures Fates(DropAll(trace, ws, reason), at) == Fates(trace, at) + Count(ws, at)
  {
    if ws != [] {
      var before := DropAll(trace, ws[..|ws| - 1], reason);
      DropAllFates(trace, ws[..|ws| - 1], reason, at);
      assert DropAll(trace, ws, reason)[..|before|] == before;
    }
  }

  /** ... and is legal when the reason holds. */
  lemma {:induction false} DropAllLegal(p: Policy, limit: nat, commands: seq<Command>, n: nat,
                                        trace: Trace, ws: seq<Waiting>, reason: Reason)
    requires Legal(p, limit, commands, trace)
    requires AllGenuine(p, commands, n, ws) && Justified(limit, trace, ws, reason)
    ensures Legal(p, limit, commands, DropAll(trace, ws, reason))
  {
    if ws != [] {
      var before, last := DropAll(trace, ws[..|ws| - 1], reason), |ws| - 1;
      DropAllLegal(p, limit, commands, n, trace, ws[..last], reason);
      DropAllQuiet(limit, trace, ws[..last], reason);
      assert Genuine(p, commands, n, ws[last]) && MayDrop(limit, before, ws[last].id, reason);
      LegalSnoc(p, limit, commands, before, Dropped(ws[last].at, ws[last].id, reason));
    }
  }

  // ----- Each step keeps the invariant -----

  /** A response line that acknowledges a subscription with a route. */
  predicate Subscribes(e: Entry) {
    && e.Answered? && e.acked.Some? && e.acked.value.kind == Subscribed
    && e.line.ResponseLine? && e.line.route.Some?
  }

  /** What one more entry means to the history functions. */
  lemma Appended(limit: nat, trace: Trace, e: Entry)
    ensures (trace + [e])[..|trace|] == trace
    ensures forall x :: StatusOf(trace + [e], x) ==
                        if e == Reset then Unknown else if e == Retired(x) then Dead
                        else if Acks(e, x) then Live else StatusOf(trace, x)
    ensures forall x :: Address(trace + [e], x) ==
                        if e == Reset || e == Retired(x) then None
                        else if Acks(e, x) && Subscribes(e) then e.line.route
                        else Address(trace, x)
    ensures Tombs(trace + [e], limit) == TombStep(Tombs(trace, limit), limit, e)
    ensures forall at :: Fates(trace + [e], at) == Fates(trace, at) + if Decides(e, at) then 1 else 0
  {
    assert (trace + [e])[..|trace|] == trace;
  }

  lemma SuppressShape(limit: nat, s: State, id: Id)
    requires Distinct(s.order) && |s.order| <= limit && forall x :: x in s.suppressed <==> x in s.order
    ensures var s' := Suppress(s, limit, id);
      && s'.order == Bury(s.order, limit, id)
      && s'.active == s.active && s'.pending == s.pending && s'.trace == s.trace
      && Distinct(s'.order) && |s'.order| <= limit
      && (forall x :: x in s'.suppressed <==> x in s'.order)
      && (forall x :: x in s'.suppressed ==> x in s.suppressed || x == id)
      && (limit > 0 ==> id in s'.suppressed)
  {
    var s' := Suppress(s, limit, id);
    if limit > 0 && id !in s.suppressed {
      var rest := if |s.order| >= limit then s.order[1..] else s.order;
      assert s'.order == rest + [id];
      forall x ensures x in s'.suppressed <==> x in s'.order {
        assert x in rest <==> exists i :: 0 <= i < |rest| && rest[i] == x;
      }
    }
  }

  /** Splitting the pending events loses none of them. */
  lemma SplitBalanced(commands: seq<Command>, n: nat, trace: Trace, trace': Trace,
                      ws: seq<Waiting>, flying: seq<Waiting>, id: Id)
    requires Balanced(commands, n, trace, ws + flying)
    requires forall at :: Fates(trace', at) == Fates(trace, at) + Count(With(ws, id), at)
    ensures Balanced(commands, n, trace', Without(ws, id) + flying)
  {
    forall at ensures Fates(trace', at) + Count(Without(ws, id) + flying, at) == Expected(commands, n, at) {
      CountSplit(ws, id, at);
      CountAppend(ws, flying, at);
      CountAppend(Without(ws, id), flying, at);
    }
  }

  /** Removing an id's events from the front keeps what holds of each of them. */
  lemma WithoutHeld(p: Policy, commands: seq<Command>, n: nat, trace: Trace,
                    ws: seq<Waiting>, flying: seq<Waiting>, id: Id)
    requires AllGenuine(p, commands, n, ws + flying) && Sorted(ws + flying) && AllLater(trace, ws + flying)
    ensures var held := Without(ws, id) + flying;
      AllGenuine(p, commands, n, held) && Sorted(held) && AllLater(trace, held)
    ensures AllGenuine(p, commands, n, With(ws, id))
  {
    SplitKeeps(ws, id);
    FrontHeld(p, commands, n, ws, flying);
    MembersHeld(p, commands, n, trace, ws, flying, id);
    SortedHeld(ws, flying, id);
  }

  lemma FrontHeld(p: Policy, commands: seq<Command>, n: nat, ws: seq<Waiting>, flying: seq<Waiting>)
    requires AllGenuine(p, commands, n, ws + flying) && Sorted(ws + flying)
    ensures AllGenuine(p, commands, n, ws) && Sorted(ws)
  {
    assert forall i :: 0 <= i < |ws| ==> (ws + flying)[i] == ws[i];
    forall i, j | 0 <= i < j < |ws| && ws[i].id == ws[j].id ensures ws[i].at < ws[j].at {
      assert (ws + flying)[i] == ws[i] && (ws + flying)[j] == ws[j];
    }
  }

  lemma MembersHeld(p: Policy, commands: seq<Command>, n: nat, trace: Trace,
                    ws: seq<Waiting>, flying: seq<Waiting>, id: Id)
    requires AllGenuine(p, commands, n, ws + flying) && AllLater(trace, ws + flying)
    ensures var held := Without(ws, id) + flying; AllGenuine(p, commands, n, held) && AllLater(trace, held)
  {
    var held := Without(ws, id) + flying;
    forall i | 0 <= i < |held| ensures Genuine(p, commands, n, held[i]) {
      var k := HeldBefore(ws, flying, id, i);
    }
    forall i, j | 0 <= i < |held| && 0 <= j < |trace| && trace[j].Delivered? && trace[j].topic == Some(held[i].id)
      ensures trace[j].at < held[i].at
    {
      var k := HeldBefore(ws, flying, id, i);
    }
  }

  lemma HeldBefore(ws: seq<Waiting>, flying: seq<Waiting>, id: Id, i: nat) returns (k: nat)
    requires i < |Without(ws, id) + flying|
    ensures k < |ws + flying| && (ws + flying)[k] == (Without(ws, id) + flying)[i]
  {
    SplitKeeps(ws, id);
    if i < |Without(ws, id)| {
      k :| 0 <= k < |ws| && ws[k] == Without(ws, id)[i];
    } else {
      k := |ws| + (i - |Without(ws, id)|);
    }
  }

  lemma SortedHeld(ws: seq<Waiting>, flying: seq<Waiting>, id: Id)
    requires Sorted(ws + flying) && Sorted(ws)
    ensures Sorted(Without(ws, id) + flying)
  {
    var held := Without(ws, id) + flying;
    SplitKeeps(ws, id);
    forall i, j | 0 <= i < j < |held| && held[i].id == held[j].id ensures held[i].at < held[j].at {
      if i < |Without(ws, id)| <= j {
        var k :| 0 <= k < |ws| && ws[k] == held[i];
        assert (ws + flying)[k] == held[i];
        assert (ws + flying)[|ws| + (j - |Without(ws, id)|)] == held[j];
      } else if |Without(ws, id)| <= i {
        assert (ws + flying)[|ws| + (i - |Without(ws, id)|)] == held[i];
        assert (ws + flying)[|ws| + (j - |Without(ws, id)|)] == held[j];
      }
    }
  }

  lemma RetireShape(limit: nat, s: State, id: Id)
    requires Shape(s, limit)
    ensures Shape(Retire(s, limit, id), limit)
    ensures limit > 0 ==> id in Retire(s, limit, id).suppressed
  {
    var retired := s.(active := s.active - {id}, pending := Without(s.pending, id));
    SplitKeeps(s.pending, id);
    SuppressShape(limit, retired, id);
    var s' := Suppress(retired, limit, id);
    forall i | 0 <= i < |s'.pending| ensures s'.pending[i].id !in s'.active && s'.pending[i].id !in s'.suppressed {
      var k :| 0 <= k < |s.pending| && s.pending[k] == s'.pending[i];
    }
    assert Shape(s', limit);
  }

  lemma RetireHistory(p: Policy, limit: nat, commands: seq<Command>, n: nat, s: State, id: Id)
    requires Shape(s, limit) && History(p, limit, commands, s) && AllGenuine(p, commands, n, With(s.pending, id))
    ensures History(p, limit, commands, Retire(s, limit, id))
  {
    var noted := s.trace + [Retired(id)];
    var gone := With(s.pending, id);
    assert Legal(p, limit, commands, noted) && Tombs(noted, limit) == Bury(s.order, limit, id) by {
      Appended(limit, s.trace, Retired(id));
      LegalSnoc(p, limit, commands, s.trace, Retired(id));
    }
    assert forall x :: (StatusOf(noted, x) == if x == id then Dead else StatusOf(s.trace, x))
                    && (Address(noted, x) == if x == id then None else Address(s.trace, x)) by {
      Appended(limit, s.trace, Retired(id));
    }
    assert Justified(limit, noted, gone, ByCancellation) by {
      SplitKeeps(s.pending, id);
    }
    DropAllLegal(p, limit, commands, n, noted, gone, ByCancellation);
    DropAllQuiet(limit, noted, gone, ByCancellation);
    var retired := s.(active := s.active - {id}, pending := Without(s.pending, id),
                      trace := DropAll(noted, gone, ByCancellation));
    SuppressShape(limit, retired, id);
    var s' := Suppress(retired, limit, id);
    forall x ensures x in s'.active <==> StatusOf(s'.trace, x) == Live
      ensures (if x in s'.active then s'.active[x] else None) == Address(s'.trace, x)
    {
      assert StatusOf(s'.trace, x) == StatusOf(noted, x) && Address(s'.trace, x) == Address(noted, x);
    }
    assert History(p, limit, commands, s');
  }

  lemma RetireLedger(p: Policy, commands: seq<Command>, n: nat, trace: Trace,
                     pending: seq<Waiting>, flying: seq<Waiting>, e: Entry, reason: Reason, id: Id)
    requires Ledger(p, commands, n, trace, pending + flying)
    requires !e.Delivered? && forall at :: !Decides(e, at)
    ensures Ledger(p, commands, n, DropAll(trace + [e], With(pending, id), reason), Without(pending, id) + flying)
  {
    var noted := trace + [e];
    var trace' := DropAll(noted, With(pending, id), reason);
    DropAllQuiet(0, noted, With(pending, id), reason);
    forall at ensures Fates(trace', at) == Fates(trace, at) + Count(With(pending, id), at) {
      DropAllFates(noted, With(pending, id), reason, at);
      assert Fates(noted, at) == Fates(trace, at) by { Appended(0, trace, e); }
    }
    SplitBalanced(commands, n, trace, trace', pending, flying, id);
    WithoutHeld(p, commands, n, trace, pending, flying, id);
    assert forall k :: 0 <= k < |trace'| && trace'[k].Delivered? ==> k < |trace| && trace'[k] == trace[k];
  }

  /** Cancelling an id keeps the invariant, whatever is in flight. */
  lemma RetireKeeps(p: Policy, limit: nat, commands: seq<Command>, n: nat, s: State, flying: seq<Waiting>, id: Id)
    requires Inv(p, limit, commands, n, s, flying)
    ensures Inv(p, limit, commands, n, Retire(s, limit, id), flying)
    ensures limit > 0 ==> id in Retire(s, limit, id).suppressed
  {
    RetireShape(limit, s, id);
    WithoutHeld(p, commands, n, s.trace, s.pending, flying, id);
    RetireHistory(p, limit, commands, n, s, id);
    RetireLedger(p, commands, n, s.trace, s.pending, flying, Retired(id), ByCancellation, id);
  }

  /** Deciding the first event in flight. */
  lemma DecideFirst(p: Policy, commands: seq<Command>, n: nat, trace: Trace, pending: seq<Waiting>,
                    w: Waiting, rest: seq<Waiting>, e: Entry)
    requires Ledger(p, commands, n, trace, pending + ([w] + rest))
    requires forall at :: Decides(e, at) <==> at == w.at
    requires e.Delivered? ==> e.topic == Some(w.id) && forall i :: 0 <= i < |pending| ==> pending[i].id != w.id
    ensures Ledger(p, commands, n, trace + [e], pending + rest)
    ensures Genuine(p, commands, n, w)
  {
    var was, held := pending + ([w] + rest), pending + rest;
    assert was[|pending|] == w;
    forall i | 0 <= i < |held| ensures held[i] == was[if i < |pending| then i else i + 1] {
    }
    Appended(0, trace, e);
    forall at ensures Fates(trace + [e], at) + Count(held, at) == Expected(commands, n, at) {
      CountAppend(pending, [w] + rest, at);
      CountAppend([w], rest, at);
      CountAppend(pending, rest, at);
      assert Count([w], at) == if w.at == at then 1 else 0;
      assert Decides(e, at) <==> at == w.at;
    }
    assert e.Delivered? ==> Decides(e, e.at);
    forall i | |pending| <= i < |held| && held[i].id == w.id ensures w.at < held[i].at {
      assert was[i + 1] == held[i];
    }
  }

  lemma DeliverKeeps(p: Policy, limit: nat, commands: seq<Command>, n: nat, s: State, w: Waiting, rest: seq<Waiting>)
    requires Inv(p, limit, commands, n, s, [w] + rest) && w.id in s.active
    ensures var s' := EventMessage(p, limit, s, w.at, Some(w.id), w.stream, w.event);
      && Inv(p, limit, commands, n, s', rest)
      && (w.id in s'.active || (limit > 0 ==> w.id in s'.suppressed))
  {
    var e := Delivered(w.at, Some(w.id), EventLine(w.stream, w.event, RouteOf(p, s, w.event)));
    var held := s.pending + ([w] + rest);
    assert held[|s.pending|] == w;
    assert forall i :: 0 <= i < |s.pending| ==> s.pending[i].id != w.id;
    DecideFirst(p, commands, n, s.trace, s.pending, w, rest, e);
    assert LegalEntry(p, limit, commands, s.trace, e) by {
      forall i | 0 <= i < |s.trace| && s.trace[i].Delivered? && s.trace[i].topic == Some(w.id)
        ensures s.trace[i].at < w.at
      {
        assert held[|s.pending|].id == w.id;
      }
    }
    LegalSnoc(p, limit, commands, s.trace, e);
    Appended(limit, s.trace, e);
    var written := s.(trace := s.trace + [e]);
    assert Inv(p, limit, commands, n, written, rest);
    if p.isTerminal(w.stream, w.event) {
      RetireKeeps(p, limit, commands, n, written, rest, w.id);
    }
  }

  /** A terminal event is written, to the route it had, before its id retires;
      events of the id still buffered are dropped. */
  lemma TerminalEventEndsItsId(p: Policy, limit: nat, s: State, at: nat, id: Id, stream: string, event: Value)
    requires Shape(s, limit) && p.isTerminal(stream, event)
    ensures var s' := EventMessage(p, limit, s, at, Some(id), stream, event);
      && id !in s'.active && (limit > 0 ==> id in s'.suppressed)
      && (forall i :: 0 <= i < |s'.pending| ==> s'.pending[i].id != id)
      && |s'.trace| > |s.trace| + 1
      && s'.trace[|s.trace|] == Delivered(at, Some(id), EventLine(stream, event, RouteOf(p, s, event)))
      && s'.trace[|s.trace| + 1] == Retired(id)
  {
    var written := s.(trace := s.trace + [Delivered(at, Some(id), EventLine(stream, event, RouteOf(p, s, event)))]);
    RetireShape(limit, written, id);
    SplitKeeps(s.pending, id);
    DropAllQuiet(limit, written.trace + [Retired(id)], With(s.pending, id), ByCancellation);
    SuppressShape(limit, written.(active := s.active - {id}, pending := Without(s.pending, id),
      trace := DropAll(written.trace + [Retired(id)], With(s.pending, id), ByCancellation)), id);
  }

  lemma SkipKeeps(p: Policy, limit: nat, commands: seq<Command>, n: nat, s: State, w: Waiting, rest: seq<Waiting>)
    requires Inv(p, limit, commands, n, s, [w] + rest) && w.id in s.suppressed
    ensures Inv(p, limit, commands, n, s.(trace := s.trace + [Dropped(w.at, w.id, BySuppression)]), rest)
  {
    var e := Dropped(w.at, w.id, BySuppression);
    DecideFirst(p, commands, n, s.trace, s.pending, w, rest, e);
    LegalSnoc(p, limit, commands, s.trace, e);
    Appended(limit, s.trace, e);
  }

  /** Replay after an acknowledgement never meets a full buffer, even when an
      early replayed event is terminal. */
  lemma {:induction false} ReplayKeeps(p: Policy, limit: nat, commands: seq<Command>, n: nat,
                                       s: State, ws: seq<Waiting>, x: Id)
    requires Inv(p, limit, commands, n, s, ws)
    requires ws != [] ==> limit > 0 && (x in s.active || x in s.suppressed)
    requires forall i :: 0 <= i < |ws| ==> ws[i].id == x
    ensures Replay(p, limit, s, ws).1
    ensures Inv(p, limit, commands, n, Replay(p, limit, s, ws).0, [])
    decreases |ws|
  {
    if ws != [] {
      var w, rest := ws[0], ws[1..];
      assert ws == [w] + rest;
      var (s', ok) := AcceptEvent(p, limit, s, w.at, Some(w.id), w.stream, w.event);
      if x in s.suppressed {
        SkipKeeps(p, limit, commands, n, s, w, rest);
      } else {
        DeliverKeeps(p, limit, commands, n, s, w, rest);
      }
      ReplayKeeps(p, limit, commands, n, s', rest, x);
    }
  }

  /** Moving an id's events from the buffer into replay. */
  lemma MoveKeeps(p: Policy, commands: seq<Command>, n: nat, trace: Trace, ws: seq<Waiting>, id: Id)
    requires Ledger(p, commands, n, trace, ws)
    ensures Ledger(p, commands, n, trace, Without(ws, id) + With(ws, id))
  {
    var held := Without(ws, id) + With(ws, id);
    SplitKeeps(ws, id);
    forall at ensures Count(held, at) == Count(ws, at) {
      CountSplit(ws, id, at);
      CountAppend(Without(ws, id), With(ws, id), at);
    }
    forall i | 0 <= i < |held| ensures held[i] in ws {
    }
  }

  lemma QuietEntry(p: Policy, commands: seq<Command>, n: nat, trace: Trace, held: seq<Waiting>, e: Entry)
    requires Ledger(p, commands, n, trace, held)
    requires !e.Delivered? && forall at :: !Decides(e, at)
    ensures Ledger(p, commands, n, trace + [e], held)
  {
    Appended(0, trace, e);
  }

  lemma WriteKeeps(p: Policy, limit: nat, commands: seq<Command>, n: nat, s: State, line: Line)
    requires Inv(p, limit, commands, n, s, []) && !line.EventLine?
    ensures Inv(p, limit, commands, n, Write(s, line), [])
  {
    QuietEntry(p, commands, n, s.trace, s.pending + [], Wrote(line));
    LegalSnoc(p, limit, commands, s.trace, Wrote(line));
    Appended(limit, s.trace, Wrote(line));
  }

  lemma ActivateShape(limit: nat, s: State, tracked: Option<TrackedId>, route: Option<ClientRoute>)
    requires Shape(s, limit)
    ensures var (s', ws) := Activate(s, tracked, route);
      && Shape(s', limit)
      && s'.order == s.order && s'.suppressed == s.suppressed && s'.trace == s.trace
      && s'.active == ActiveAfter(s, Acknowledges(s, tracked), route)
      && (forall i :: 0 <= i < |ws| ==> tracked.Some? && ws[i].id == tracked.value.id)
      && (ws != [] ==> limit > 0 && tracked.Some? && tracked.value.id in s'.active)
  {
    if Acknowledges(s, tracked).Some? {
      var s' := Activate(s, tracked, route).0;
      SplitKeeps(s.pending, tracked.value.id);
      forall i | 0 <= i < |s'.pending|
        ensures s'.pending[i].id !in s'.active && s'.pending[i].id !in s'.suppressed
      {
        var k :| 0 <= k < |s.pending| && s.pending[k] == s'.pending[i];
      }
    }
  }

  lemma AnswerHistory(p: Policy, limit: nat, commands: seq<Command>, s: State, s': State, e: Entry)
    requires Shape(s, limit) && History(p, limit, commands, s)
    requires e.Answered? && e.line.ResponseLine? && (e.acked.Some? ==> e.acked.value.id !in s.suppressed)
    requires s'.order == s.order && s'.trace == s.trace + [e]
    requires s'.active == ActiveAfter(s, e.acked, e.line.route)
    ensures History(p, limit, commands, s')
  {
    LegalSnoc(p, limit, commands, s.trace, e);
    Appended(limit, s.trace, e);
  }

  lemma AnswerKeeps(p: Policy, limit: nat, commands: seq<Command>, n: nat, s: State,
                    tracked: Option<TrackedId>, route: Option<ClientRoute>, line: Line)
    requires Inv(p, limit, commands, n, s, []) && line.ResponseLine? && line.route == route
    ensures var (s', ws) := Activate(s, tracked, route);
      Inv(p, limit, commands, n, s'.(trace := s'.trace + [Answered(line, Acknowledges(s, tracked))]), ws)
  {
    var e := Answered(line, Acknowledges(s, tracked));
    var (s', ws) := Activate(s, tracked, route);
    ActivateShape(limit, s, tracked, route);
    AnswerHistory(p, limit, commands, s, s'.(trace := s'.trace + [e]), e);
    assert s.pending + [] == s.pending;
    QuietEntry(p, commands, n, s.trace, s.pending, e);
    if Acknowledges(s, tracked).Some? {
      MoveKeeps(p, commands, n, s.trace + [e], s.pending, tracked.value.id);
    } else {
      assert s'.pending + ws == s.pending;
    }
  }

  lemma RespondKeeps(p: Policy, limit: nat, commands: seq<Command>, n: nat, s: State, id: Id,
                     result: Result<Value, string>, cancelled: Option<Id>, route: Option<ClientRoute>)
    requires Inv(p, limit, commands, n, s, [])
    ensures EmitResponse(p, limit, s, id, result, cancelled, route).1
    ensures Inv(p, limit, commands, n, EmitResponse(p, limit, s, id, result, cancelled, route).0, [])
  {
    var s0 := if cancelled.Some? then Retire(s, limit, cancelled.value) else s;
    if cancelled.Some? {
      RetireKeeps(p, limit, commands, n, s, [], cancelled.value);
    }
    AnswerThenReplay(p, limit, commands, n, s0, Tracked(p, result), route, ResponseLine(id, result, route));
  }

  lemma AnswerThenReplay(p: Policy, limit: nat, commands: seq<Command>, n: nat, s: State,
                         tracked: Option<TrackedId>, route: Option<ClientRoute>, line: Line)
    requires Inv(p, limit, commands, n, s, []) && line.ResponseLine? && line.route == route
    ensures var (s', ws) := Activate(s, tracked, route);
      var s'' := s'.(trace := s'.trace + [Answered(line, Acknowledges(s, tracked))]);
      Replay(p, limit, s'', ws).1 && Inv(p, limit, commands, n, Replay(p, limit, s'', ws).0, [])
  {
    var (s', ws) := Activate(s, tracked, route);
    var s'' := s'.(trace := s'.trace + [Answered(line, Acknowledges(s, tracked))]);
    AnswerKeeps(p, limit, commands, n, s, tracked, route, line);
    ActivateShape(limit, s, tracked, route);
    if ws != [] {
      ReplayKeeps(p, limit, commands, n, s'', ws, tracked.value.id);
    }
  }

  lemma ResetHistory(p: Policy, limit: nat, commands: seq<Command>, n: nat, s: State)
    requires Legal(p, limit, commands, s.trace) && AllGenuine(p, commands, n, s.pending)
    ensures History(p, limit, commands, ResetCorrelations(s))
  {
    var noted := s.trace + [Reset];
    Appended(limit, s.trace, Reset);
    LegalSnoc(p, limit, commands, s.trace, Reset);
    assert Justified(limit, noted, s.pending, ByReset);
    DropAllLegal(p, limit, commands, n, noted, s.pending, ByReset);
    DropAllQuiet(limit, noted, s.pending, ByReset);
    forall x
      ensures StatusOf(ResetCorrelations(s).trace, x) == Unknown && Address(ResetCorrelations(s).trace, x) == None
    {
      assert StatusOf(noted, x) == Unknown && Address(noted, x) == None;
    }
  }

  lemma ResetKeeps(p: Policy, limit: nat, commands: seq<Command>, n: nat, s: State)
    requires Inv(p, limit, commands, n, s, [])
    ensures Inv(p, limit, commands, n, ResetCorrelations(s), [])
  {
    assert s.pending + [] == s.pending;
    ResetHistory(p, limit, commands, n, s);
    ResetLedger(p, commands, n, s.trace, s.pending);
  }

  lemma ResetLedger(p: Policy, commands: seq<Command>, n: nat, trace: Trace, pending: seq<Waiting>)
    requires Ledger(p, commands, n, trace, pending)
    ensures Ledger(p, commands, n, DropAll(trace + [Reset], pending, ByReset), [])
  {
    var noted := trace + [Reset];
    var trace' := DropAll(noted, pending, ByReset);
    DropAllQuiet(0, noted, pending, ByReset);
    forall at ensures Fates(trace', at) + Count([], at) == Expected(commands, n, at) {
      DropAllFates(noted, pending, ByReset, at);
      assert Fates(noted, at) == Fates(trace, at) by { Appended(0, trace, Reset); }
    }
    assert forall k :: 0 <= k < |trace'| && trace'[k].Delivered? ==> k < |trace| && trace'[k] == trace[k];
  }

  /** The next command has been received; nothing is decided about it yet. */
  lemma ReceiveOther(p: Policy, limit: nat, commands: seq<Command>, n: nat, s: State)
    requires Inv(p, limit, commands, n, s, []) && n < |commands| && !commands[n].Event?
    ensures Inv(p, limit, commands, n + 1, s, [])
  {
    assert forall at :: Expected(commands, n + 1, at) == Expected(commands, n, at);
  }

  lemma ReceiveEvent(p: Policy, limit: nat, commands: seq<Command>, n: nat, s: State, w: Waiting)
    requires Inv(p, limit, commands, n, s, []) && n < |commands| && commands[n] == Event(w.stream, w.event)
    requires w.at == n && p.eventId(w.stream, w.event) == Some(w.id)
    ensures Inv(p, limit, commands, n + 1, s, [w])
  {
    assert s.pending + [] == s.pending;
    var held := s.pending + [w];
    forall at ensures Fates(s.trace, at) + Count(held, at) == Expected(commands, n + 1, at) {
      CountAppend(s.pending, [w], at);
      assert Count([w], at) == if w.at == at then 1 else 0;
    }
    forall i | 0 <= i < |held| ensures Genuine(p, commands, n + 1, held[i]) {
      if i < |s.pending| {
        assert Genuine(p, commands, n, s.pending[i]);
      }
    }
  }

  lemma UntopicalKeeps(p: Policy, limit: nat, commands: seq<Command>, n: nat, s: State, stream: string, event: Value)
    requires Inv(p, limit, commands, n, s, []) && n < |commands| && commands[n] == Event(stream, event)
    requires p.eventId(stream, event) == None
    ensures Inv(p, limit, commands, n + 1, EventMessage(p, limit, s, n, None, stream, event), [])
  {
    var e := Delivered(n, None, EventLine(stream, event, RouteOf(p, s, event)));
    assert s.pending + [] == s.pending;
    Appended(limit, s.trace, e);
    LegalSnoc(p, limit, commands, s.trace, e);
    forall i | 0 <= i < |s.pending| ensures Genuine(p, commands, n + 1, s.pending[i]) {
      assert Genuine(p, commands, n, s.pending[i]);
    }
  }

  lemma OverflowKeeps(p: Policy, limit: nat, commands: seq<Command>, n: nat, s: State, w: Waiting)
    requires Inv(p, limit, commands, n, s, [w]) && w.id !in s.active && w.id !in s.suppressed
    ensures Inv(p, limit, commands, n, Write(s.(trace := s.trace + [Overflowed(w.at, w.id)]),
                                             TransportErrorLine(OVERFLOW)), [])
  {
    var e := Overflowed(w.at, w.id);
    assert [w] + [] == [w];
    DecideFirst(p, commands, n, s.trace, s.pending, w, [], e);
    LegalSnoc(p, limit, commands, s.trace, e);
    Appended(limit, s.trace, e);
    WriteKeeps(p, limit, commands, n, s.(trace := s.trace + [e]), TransportErrorLine(OVERFLOW));
  }

  lemma HoldKeeps(p: Policy, limit: nat, commands: seq<Command>, n: nat, s: State, w: Waiting)
    requires Inv(p, limit, commands, n, s, [w]) && w.id !in s.active && w.id !in s.suppressed && |s.pending| < limit
    ensures Inv(p, limit, commands, n, s.(pending := s.pending + [w]), [])
  {
    assert s.pending + [w] + [] == s.pending + [w];
  }

  lemma EventKeeps(p: Policy, limit: nat, commands: seq<Command>, n: nat, s: State, w: Waiting)
    requires Inv(p, limit, commands, n, s, []) && n < |commands| && commands[n] == Event(w.stream, w.event)
    requires w.at == n && p.eventId(w.stream, w.event) == Some(w.id)
    ensures Inv(p, limit, commands, n + 1, EmitCommand(p, limit, s, n, commands[n]).0, [])
  {
    ReceiveEvent(p, limit, commands, n, s, w);
    assert [w] + [] == [w];
    if w.id in s.suppressed {
      SkipKeeps(p, limit, commands, n + 1, s, w, []);
    } else if w.id in s.active {
      DeliverKeeps(p, limit, commands, n + 1, s, w, []);
    } else if |s.pending| < limit {
      HoldKeeps(p, limit, commands, n + 1, s, w);
    } else {
      OverflowKeeps(p, limit, commands, n + 1, s, w);
    }
  }

  lemma WrittenLineKeeps(p: Policy, limit: nat, commands: seq<Command>, n: nat, s: State, line: Line)
    requires Inv(p, limit, commands, n, s, []) && n < |commands| && !commands[n].Event? && !line.EventLine?
    ensures Inv(p, limit, commands, n + 1, Write(s, line), [])
  {
    ReceiveOther(p, limit, commands, n, s);
    WriteKeeps(p, limit, commands, n + 1, s, line);
  }

  /** The commands that only write a line. */
  function LineFor(command: Command): Option<Line> {
    match command
    case RequestError(id, outcome, message, route) => Some(ErrorLine(id, outcome, message, route))
    case ProtocolError(message) => Some(ProtocolErrorLine(message))
    case TransportError(message) => Some(TransportErrorLine(message))
    case Shutdown(id) => Some(ShutdownLine(id))
    case _ => None
  }

  lemma PlainCommand(p: Policy, limit: nat, s: State, at: nat, command: Command)
    requires LineFor(command).Some?
    ensures EmitCommand(p, limit, s, at, command) == (Write(s, LineFor(command).value), true)
    ensures !command.Event? && !LineFor(command).value.EventLine?
  {
  }

  lemma ResponseKeeps(p: Policy, limit: nat, commands: seq<Command>, n: nat, s: State)
    requires Inv(p, limit, commands, n, s, []) && n < |commands| && commands[n].Response?
    ensures Inv(p, limit, commands, n + 1, EmitCommand(p, limit, s, n, commands[n]).0, [])
  {
    var Response(id, result, cancelled, route) := commands[n];
    ReceiveOther(p, limit, commands, n, s);
    RespondKeeps(p, limit, commands, n + 1, s, id, result, cancelled, route);
  }

  lemma CancelledKeeps(p: Policy, limit: nat, commands: seq<Command>, n: nat, s: State)
    requires Inv(p, limit, commands, n, s, []) && n < |commands| && commands[n].Cancelled?
    ensures Inv(p, limit, commands, n + 1, EmitCommand(p, limit, s, n, commands[n]).0, [])
  {
    ReceiveOther(p, limit, commands, n, s);
    RetireKeeps(p, limit, commands, n + 1, s, [], commands[n].id);
  }

  lemma ResetCommandKeeps(p: Policy, limit: nat, commands: seq<Command>, n: nat, s: State)
    requires Inv(p, limit, commands, n, s, []) && n < |commands| && commands[n].ResetCorrelation?
    ensures Inv(p, limit, commands, n + 1, EmitCommand(p, limit, s, n, commands[n]).0, [])
  {
    ReceiveOther(p, limit, commands, n, s);
    ResetKeeps(p, limit, commands, n + 1, s);
  }

  lemma CorrelatedCommandKeeps(p: Policy, limit: nat, commands: seq<Command>, n: nat, s: State)
    requires Inv(p, limit, commands, n, s, []) && n < |commands| && !commands[n].Event? && LineFor(commands[n]).None?
    ensures Inv(p, limit, commands, n + 1, EmitCommand(p, limit, s, n, commands[n]).0, [])
  {
    match commands[n]
    case Response(_, _, _, _) => ResponseKeeps(p, limit, commands, n, s);
    case Cancelled(_) => CancelledKeeps(p, limit, commands, n, s);
    case ResetCorrelation => ResetCommandKeeps(p, limit, commands, n, s);
    case ActiveIds(_) => ReceiveOther(p, limit, commands, n, s);
  }

  lemma EmitKeeps(p: Policy, limit: nat, commands: seq<Command>, n: nat, s: State)
    requires Inv(p, limit, commands, n, s, []) && n < |commands|
    ensures Inv(p, limit, commands, n + 1, EmitCommand(p, limit, s, n, commands[n]).0, [])
  {
    var command := commands[n];
    if LineFor(command).Some? {
      PlainCommand(p, limit, s, n, command);
      WrittenLineKeeps(p, limit, commands, n, s, LineFor(command).value);
    } else if command.Event? {
      match p.eventId(command.stream, command.event)
      case None => UntopicalKeeps(p, limit, commands, n, s, command.stream, command.event);
      case Some(id) => EventKeeps(p, limit, commands, n, s, Waiting(n, id, command.stream, command.event));
    } else {
      CorrelatedCommandKeeps(p, limit, commands, n, s);
    }
  }

  // ----- Whole runs -----

  lemma {:induction false} PrefixRunKeeps(p: Policy, limit: nat, commands: seq<Command>, n: nat)
    requires n <= |commands|
    ensures var r := Run(p, limit, commands[..n]); Inv(p, limit, commands, r.handled, r.state, [])
  {
    if n > 0 {
      PrefixRunKeeps(p, limit, commands, n - 1);
      assert commands[..n][..n - 1] == commands[..n - 1];
      var r := Run(p, limit, commands[..n - 1]);
      if r.running {
        EmitKeeps(p, limit, commands, n - 1, r.state);
      }
    }
  }

  /** Every run leaves disjoint collections, a duplicate-free listing of the
      suppressed ids, queues within the limit, and a legal history that the
      collections agree with. */
  lemma RunKeeps(p: Policy, limit: nat, commands: seq<Command>)
    ensures var r := Run(p, limit, commands);
      && Inv(p, limit, commands, r.handled, r.state, [])
      && Shape(r.state, limit) && Legal(p, limit, commands, r.state.trace)
  {
    PrefixRunKeeps(p, limit, commands, |commands|);
    assert commands[..|commands|] == commands;
  }

  /** Each event received is exactly one of: decided once in the history, or
      still pending; nothing else is ever decided. */
  lemma EveryEventAccountedFor(p: Policy, limit: nat, commands: seq<Command>, at: nat)
    ensures var r := Run(p, limit, commands);
      Fates(r.state.trace, at) + Count(r.state.pending, at)
      == if at < r.handled && commands[at].Event? then 1 else 0
  {
    RunKeeps(p, limit, commands);
    var r := Run(p, limit, commands);
    assert r.state.pending + [] == r.state.pending;
    assert Expected(commands, r.handled, at) == if at < r.handled && commands[at].Event? then 1 else 0;
  }

  /** The event lines of one id are a subsequence of the events received for it. */
  lemma EventsWrittenInOrder(p: Policy, limit: nat, commands: seq<Command>, i: nat, j: nat)
    requires var trace := Run(p, limit, commands).state.trace;
      i < j < |trace| && trace[i].Delivered? && trace[j].Delivered? && trace[i].topic == trace[j].topic
      && trace[i].topic.Some?
    ensures var trace := Run(p, limit, commands).state.trace;
      && trace[i].line.EventLine?
      && trace[i].at < trace[j].at < |commands|
      && commands[trace[i].at] == Event(trace[i].line.stream, trace[i].line.event)
      && p.eventId(trace[i].line.stream, trace[i].line.event) == trace[i].topic
  {
    var trace := Run(p, limit, commands).state.trace;
    RunKeeps(p, limit, commands);
    InOrderWithoutDuplicates(p, limit, commands, trace, i, j);
    LegalAt(p, limit, commands, trace, i);
    LegalAt(p, limit, commands, trace, j);
  }

  /** Every event line of an id follows a response line that acknowledged the id,
      with no cancellation, terminal event or reset in between, and carries the
      route last acknowledged for its subscription. */
  lemma EventsFollowAcknowledgement(p: Policy, limit: nat, commands: seq<Command>, j: nat) returns (a: nat)
    requires var trace := Run(p, limit, commands).state.trace;
      j < |trace| && trace[j].Delivered? && trace[j].topic.Some?
    ensures var trace := Run(p, limit, commands).state.trace;
      a < j && Acks(trace[a], trace[j].topic.value) && trace[a].line.ResponseLine?
      && Undisturbed(trace, trace[j].topic.value, a, j)
      && trace[j].line.EventLine? && trace[j].line.route == Addressed(p, trace[..j], trace[j].line.event)
  {
    RunKeeps(p, limit, commands);
    LegalAt(p, limit, commands, Run(p, limit, commands).state.trace, j);
    a := WrittenAfterAcknowledgement(p, limit, commands, Run(p, limit, commands).state.trace, j);
  }

  /** The tombstone window over whole runs. */
  lemma SuppressedEventsStaySuppressed(p: Policy, limit: nat, commands: seq<Command>, x: Id, c: nat, j: nat)
    returns (a: nat)
    requires var trace := Run(p, limit, commands).state.trace;
      && c < j < |trace| && trace[c] == Retired(x) && StatusOf(trace[..c], x) == Live
      && trace[j].Delivered? && trace[j].topic == Some(x)
      && forall i :: c < i < j ==> trace[i] != Reset
    ensures var trace := Run(p, limit, commands).state.trace;
      c < a < j && Acks(trace[a], x) && |Buried(trace, limit, x, c, a)| >= limit
  {
    RunKeeps(p, limit, commands);
    var trace := Run(p, limit, commands).state.trace;
    if limit > 0 {
      a := SuppressionWindow(p, limit, commands, trace, x, c, j);
    } else {
      a := WrittenAfterAcknowledgement(p, limit, commands, trace, j);
      assert !Acks(trace[c], x);
    }
  }

  /** The last command handled was an event; it found the buffer full, and the error
      line was written. */
  ghost predicate EndedFull(limit: nat, commands: seq<Command>, handled: nat, s: State) {
    && 0 < handled <= |commands| && commands[handled - 1].Event? && |s.pending| == limit
    && |s.trace| >= 2 && s.trace[|s.trace| - 1] == Wrote(TransportErrorLine(OVERFLOW))
    && s.trace[|s.trace| - 2].Overflowed? && s.trace[|s.trace| - 2].at == handled - 1
  }

  /** A run stops early only at an event that found the pre-acknowledgement
      buffer full; no response ever fails. */
  lemma {:induction false} StopsOnlyWhenFull(p: Policy, limit: nat, commands: seq<Command>)
    requires !Run(p, limit, commands).running
    ensures var r := Run(p, limit, commands); EndedFull(limit, commands, r.handled, r.state)
  {
    var last := |commands| - 1;
    var r := Run(p, limit, commands[..last]);
    if !r.running {
      StopsOnlyWhenFull(p, limit, commands[..last]);
    } else {
      PrefixRunKeeps(p, limit, commands, last);
      StopStep(p, limit, commands, last, r.state);
    }
  }

  lemma StopStep(p: Policy, limit: nat, commands: seq<Command>, n: nat, s: State)
    requires Inv(p, limit, commands, n, s, []) && n < |commands| && !EmitCommand(p, limit, s, n, commands[n]).1
    ensures EndedFull(limit, commands, n + 1, EmitCommand(p, limit, s, n, commands[n]).0)
  {
    match commands[n]
    case Response(id, result, cancelled, route) =>
      RespondKeeps(p, limit, commands, n, s, id, result, cancelled, route);
    case Event(stream, event) => FullStep(p, limit, s, n, stream, event);
    case _ =>
  }

  lemma FullStep(p: Policy, limit: nat, s: State, n: nat, stream: string, event: Value)
    requires |s.pending| <= limit && !EmitCommand(p, limit, s, n, Event(stream, event)).1
    ensures var s' := EmitCommand(p, limit, s, n, Event(stream, event)).0;
      && |s'.pending| == limit && |s'.trace| >= 2
      && s'.trace[|s'.trace| - 1] == Wrote(TransportErrorLine(OVERFLOW))
      && s'.trace[|s'.trace| - 2].Overflowed? && s'.trace[|s'.trace| - 2].at == n
  {
  }
}
