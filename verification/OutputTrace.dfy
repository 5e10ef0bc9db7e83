/** What one output actor is told, what it writes, and the history both leave
    behind.  The lemmas at the end are about every legal history; the module
    OutputCorrelation proves that the actor only ever leaves legal ones. */
module OutputTrace {
  import opened Common

  type Id = string

  // A JSON document; only the correlation policy looks inside.
  type Value = string

  datatype RouteKind = Call | Subscription | BaseSubscription | Control

  datatype ClientRoute = ClientRoute(consumerId: string, localId: string, generation: nat, kind: RouteKind)

  datatype TrackedKind = Operation | Subscribed

  datatype TrackedId = TrackedId(id: Id, kind: TrackedKind)

  /** The domain's correlation rules: any four functions. */
  datatype Policy = Policy(
    responseId: Value -> Option<TrackedId>,
    eventId: (string, Value) -> Option<Id>,
    isTerminal: (string, Value) -> bool,
    subscriptionId: Value -> Option<Id>)

  datatype Command =
    | RequestError(id: Id, outcome: string, message: string, route: Option<ClientRoute>)
    | Response(id: Id, result: Result<Value, string>, cancelled: Option<Id>, route: Option<ClientRoute>)
    | ActiveIds(owner: Option<(string, nat)>)
    | Cancelled(id: Id)
    | Event(stream: string, event: Value)
    | ProtocolError(message: string)
    | TransportError(message: string)
    | ResetCorrelation
    | Shutdown(id: Id)

  datatype Line =
    | ErrorLine(id: Id, outcome: string, message: string, route: Option<ClientRoute>)
    | ResponseLine(id: Id, result: Result<Value, string>, route: Option<ClientRoute>)
    | EventLine(stream: string, event: Value, route: Option<ClientRoute>)
    | ProtocolErrorLine(message: string)
    | TransportErrorLine(message: string)
    | ShutdownLine(id: Id)

  datatype Reason = BySuppression | ByCancellation | ByReset

  /** One step of the history.  `at` is the position, in the command sequence,
      of the command that delivered the event. */
  datatype Entry =
    | Wrote(line: Line)
    | Answered(line: Line, acked: Option<TrackedId>)
    | Delivered(at: nat, topic: Option<Id>, line: Line)
    | Dropped(at: nat, id: Id, reason: Reason)
    | Retired(id: Id)
    | Reset
    | Overflowed(at: nat, id: Id)

  type Trace = seq<Entry>

  function LineOf(e: Entry): seq<Line> {
    match e
    case Wrote(line) => [line]
    case Answered(line, _) => [line]
    case Delivered(_, _, line) => [line]
    case _ => []
  }

  /** The lines that reached the writer. */
  function Lines(trace: Trace): seq<Line> {
    if trace == [] then [] else Lines(trace[..|trace| - 1]) + LineOf(trace[|trace| - 1])
  }

  datatype Status = Unknown | Live | Dead

  /** A response line that acknowledged x. */
  predicate Acks(e: Entry, x: Id) {
    e.Answered? && e.acked.Some? && e.acked.value.id == x
  }

  /** The last thing the history says about an id's correlation. */
  function StatusOf(trace: Trace, x: Id): Status {
    if trace == [] then Unknown
    else
      var last := trace[|trace| - 1];
      if last == Reset then Unknown
      else if last == Retired(x) then Dead
      else if Acks(last, x) then Live
      else StatusOf(trace[..|trace| - 1], x)
  }

  /** Where a live id's events are addressed: the route of the last subscription
      response that carried one. */
  function Address(trace: Trace, x: Id): Option<ClientRoute> {
    if trace == [] then None
    else
      var last := trace[|trace| - 1];
      if last == Reset || last == Retired(x) then None
      else if Acks(last, x) && last.acked.value.kind == Subscribed && last.line.ResponseLine? && last.line.route.Some?
        then last.line.route
      else Address(trace[..|trace| - 1], x)
  }

  /** The route an event line gets after a history. */
  function Addressed(p: Policy, before: Trace, event: Value): Option<ClientRoute> {
    match p.subscriptionId(event)
    case Some(id) => if StatusOf(before, id) == Live then Address(before, id) else None
    case None => None
  }

  /** One retirement on a bounded first-in first-out list of tombstones. */
  function Bury(tombs: seq<Id>, limit: nat, id: Id): seq<Id> {
    if limit == 0 || id in tombs then tombs
    else (if |tombs| >= limit then tombs[1..] else tombs) + [id]
  }

  function TombStep(tombs: seq<Id>, limit: nat, e: Entry): seq<Id> {
    match e
    case Reset => []
    case Retired(id) => Bury(tombs, limit, id)
    case _ => tombs
  }

  /** The tombstones a history leaves, oldest first. */
  function Tombs(trace: Trace, limit: nat): seq<Id> {
    if trace == [] then []
    else TombStep(Tombs(trace[..|trace| - 1], limit), limit, trace[|trace| - 1])
  }

  /** Does this entry decide the fate of the event of command `at`? */
  predicate Decides(e: Entry, at: nat) {
    match e
    case Delivered(a, _, _) => a == at
    case Dropped(a, _, _) => a == at
    case Overflowed(a, _) => a == at
    case _ => false
  }

  /** How often the history decides the fate of the event of command `at`. */
  function Fates(trace: Trace, at: nat): nat {
    if trace == [] then 0
    else Fates(trace[..|trace| - 1], at) + if Decides(trace[|trace| - 1], at) then 1 else 0
  }

  /** Command `at` delivered an event correlated with `id`. */
  ghost predicate Arrived(p: Policy, commands: seq<Command>, at: nat, id: Option<Id>) {
    at < |commands| && commands[at].Event? && p.eventId(commands[at].stream, commands[at].event) == id
  }

  /** What may follow a history. */
  ghost predicate LegalEntry(p: Policy, limit: nat, commands: seq<Command>, before: Trace, e: Entry) {
    match e
    case Wrote(line) => !line.EventLine?
    case Answered(line, acked) =>
      line.ResponseLine? && (acked.Some? ==> acked.value.id !in Tombs(before, limit))
    case Delivered(at, id, line) =>
      && Arrived(p, commands, at, id)
      && line.EventLine? && commands[at] == Event(line.stream, line.event)
      && line.route == Addressed(p, before, line.event)
      && (id.Some? ==>
            && StatusOf(before, id.value) == Live
            && forall i :: 0 <= i < |before| && before[i].Delivered? && before[i].topic == id ==> before[i].at < at)
    case Dropped(at, id, reason) =>
      && Arrived(p, commands, at, Some(id))
      && (reason == BySuppression ==> id in Tombs(before, limit))
      && (reason == ByCancellation ==> StatusOf(before, id) == Dead)
      && (reason == ByReset ==> StatusOf(before, id) == Unknown)
    case Overflowed(at, id) =>
      Arrived(p, commands, at, Some(id)) && StatusOf(before, id) != Live && id !in Tombs(before, limit)
    case _ => true
  }

  ghost predicate Legal(p: Policy, limit: nat, commands: seq<Command>, trace: Trace) {
    trace == [] ||
    (var before := trace[..|trace| - 1];
     Legal(p, limit, commands, before) && LegalEntry(p, limit, commands, before, trace[|trace| - 1]))
  }

  lemma LegalSnoc(p: Policy, limit: nat, commands: seq<Command>, trace: Trace, e: Entry)
    requires Legal(p, limit, commands, trace) && LegalEntry(p, limit, commands, trace, e)
    ensures Legal(p, limit, commands, trace + [e])
  {
    assert (trace + [e])[..|trace|] == trace;
  }

  lemma {:induction false} LegalAt(p: Policy, limit: nat, commands: seq<Command>, trace: Trace, j: nat)
    requires Legal(p, limit, commands, trace)
    requires j < |trace|
    ensures Legal(p, limit, commands, trace[..j])
    ensures LegalEntry(p, limit, commands, trace[..j], trace[j])
  {
    var before := trace[..|trace| - 1];
    if j < |before| {
      LegalAt(p, limit, commands, before, j);
      assert before[..j] == trace[..j];
    }
  }

  /** Two events of one id are written in the order they arrived, never twice. */
  lemma {:induction false} InOrderWithoutDuplicates(p: Policy, limit: nat, commands: seq<Command>, trace: Trace,
                                                    i: nat, j: nat)
    requires Legal(p, limit, commands, trace)
    requires i < j < |trace| && trace[i].Delivered? && trace[j].Delivered?
    requires trace[i].topic == trace[j].topic && trace[i].topic.Some?
    ensures trace[i].at < trace[j].at
  {
    LegalAt(p, limit, commands, trace, j);
    assert trace[..j][i] == trace[i];
  }

  ghost predicate Undisturbed(trace: Trace, x: Id, from: nat, end: nat)
    requires end <= |trace|
  {
    forall i :: from <= i < end ==> trace[i] != Retired(x) && trace[i] != Reset
  }

  /** A live id was acknowledged by a response line, and neither cancelled nor
      reset since. */
  lemma {:induction false} LiveWasAcknowledged(trace: Trace, x: Id) returns (a: nat)
    requires StatusOf(trace, x) == Live
    ensures a < |trace| && Acks(trace[a], x)
    ensures Undisturbed(trace, x, a, |trace|)
  {
    var last := |trace| - 1;
    if Acks(trace[last], x) {
      a := last;
    } else {
      a := LiveWasAcknowledged(trace[..last], x);
      assert forall i :: a <= i < last ==> trace[i] == trace[..last][i];
    }
  }

  /** Every event line lies after an acknowledging response line of its id. */
  lemma {:induction false} WrittenAfterAcknowledgement(p: Policy, limit: nat, commands: seq<Command>, trace: Trace,
                                                       j: nat)
    returns (a: nat)
    requires Legal(p, limit, commands, trace)
    requires j < |trace| && trace[j].Delivered? && trace[j].topic.Some?
    ensures a < j && Acks(trace[a], trace[j].topic.value) && trace[a].line.ResponseLine?
    ensures Undisturbed(trace, trace[j].topic.value, a, j)
  {
    LegalAt(p, limit, commands, trace, j);
    a := LiveWasAcknowledged(trace[..j], trace[j].topic.value);
    LegalAt(p, limit, commands, trace, a);
    assert forall i :: a <= i < j ==> trace[i] == trace[..j][i];
  }

  // ----- The tombstone window -----

  ghost predicate Distinct(s: seq<Id>) {
    forall i, j :: 0 <= i < j < |s| ==> s[i] != s[j]
  }

  lemma {:induction false} TombsDistinct(trace: Trace, limit: nat)
    ensures Distinct(Tombs(trace, limit)) && |Tombs(trace, limit)| <= limit
  {
    if trace != [] {
      TombsDistinct(trace[..|trace| - 1], limit);
    }
  }

  /** Ids other than x whose tombstone was laid in trace[from..end]. */
  ghost function Buried(trace: Trace, limit: nat, x: Id, from: nat, end: nat): set<Id>
    requires from <= end <= |trace|
  {
    set i | from <= i < end && trace[i].Retired? && trace[i].id != x && trace[i].id !in Tombs(trace[..i], limit)
      :: trace[i].id
  }

  ghost function Members(s: seq<Id>): set<Id> {
    set i | 0 <= i < |s| :: s[i]
  }

  lemma {:induction false} MembersSize(s: seq<Id>)
    requires Distinct(s)
    ensures |Members(s)| == |s|
  {
    if s != [] {
      var front := s[..|s| - 1];
      MembersSize(front);
      assert s == front + [s[|s| - 1]];
      assert Members(s) == Members(front) + {s[|s| - 1]};
    }
  }

  /** Either `limit` other ids were buried in trace[c..end], or x still has its
      tombstone and only ids buried in that stretch follow it in the list. */
  ghost predicate Sheltered(trace: Trace, limit: nat, x: Id, c: nat, end: nat)
    requires c <= end <= |trace|
  {
    var tombs := Tombs(trace[..end], limit);
    || |Buried(trace, limit, x, c, end)| >= limit
    || exists k :: 0 <= k < |tombs| && tombs[k] == x && Members(tombs[k + 1..]) <= Buried(trace, limit, x, c, end)
  }

  /** Until a reset, a fresh tombstone shelters its id. */
  lemma {:induction false} TombstoneStays(trace: Trace, limit: nat, x: Id, c: nat, end: nat)
    requires c < end <= |trace| && trace[c] == Retired(x) && limit > 0
    requires x !in Tombs(trace[..c], limit)
    requires forall i :: c < i < end ==> trace[i] != Reset
    ensures Sheltered(trace, limit, x, c, end)
    decreases end
  {
    if end == c + 1 {
      FreshTombstone(trace, limit, x, c);
    } else {
      TombstoneStays(trace, limit, x, c, end - 1);
      ShelterStays(trace, limit, x, c, end);
    }
  }

  lemma FreshTombstone(trace: Trace, limit: nat, x: Id, c: nat)
    requires c < |trace| && trace[c] == Retired(x) && limit > 0 && x !in Tombs(trace[..c], limit)
    ensures Sheltered(trace, limit, x, c, c + 1)
  {
    var tombs := Tombs(trace[..c + 1], limit);
    assert trace[..c + 1][..c] == trace[..c];
    assert tombs[|tombs| - 1] == x;
    assert Members(tombs[|tombs|..]) == {};
  }

  lemma ShelterStays(trace: Trace, limit: nat, x: Id, c: nat, end: nat)
    requires c + 1 < end <= |trace| && limit > 0 && trace[end - 1] != Reset
    requires Sheltered(trace, limit, x, c, end - 1)
    ensures Sheltered(trace, limit, x, c, end)
  {
    assert trace[..end][..end - 1] == trace[..end - 1];
    var was := Tombs(trace[..end - 1], limit);
    SubsetSize(Buried(trace, limit, x, c, end - 1), Buried(trace, limit, x, c, end));
    if |Buried(trace, limit, x, c, end - 1)| < limit {
      var k :| 0 <= k < |was| && was[k] == x && Members(was[k + 1..]) <= Buried(trace, limit, x, c, end - 1);
      if trace[end - 1].Retired? && trace[end - 1].id !in was {
        TombstoneStep(trace, limit, x, c, end, k);
      } else {
        ShelterKept(trace, limit, x, c, end, k);
      }
    }
  }

  /** The step of TombstoneStays that leaves the tombstones as they are. */
  lemma ShelterKept(trace: Trace, limit: nat, x: Id, c: nat, end: nat, k: nat)
    requires c + 1 < end <= |trace| && Tombs(trace[..end], limit) == Tombs(trace[..end - 1], limit)
    requires k < |Tombs(trace[..end], limit)| && Tombs(trace[..end], limit)[k] == x
    requires Members(Tombs(trace[..end], limit)[k + 1..]) <= Buried(trace, limit, x, c, end - 1)
    ensures Sheltered(trace, limit, x, c, end)
  {
    assert Buried(trace, limit, x, c, end - 1) <= Buried(trace, limit, x, c, end);
  }

  /** The step of TombstoneStays that lays one more tombstone. */
  lemma TombstoneStep(trace: Trace, limit: nat, x: Id, c: nat, end: nat, k: nat)
    requires c + 1 < end <= |trace| && limit > 0 && trace[end - 1].Retired?
    requires k < |Tombs(trace[..end - 1], limit)| && Tombs(trace[..end - 1], limit)[k] == x
    requires trace[end - 1].id !in Tombs(trace[..end - 1], limit)
    requires Members(Tombs(trace[..end - 1], limit)[k + 1..]) <= Buried(trace, limit, x, c, end - 1)
    ensures Sheltered(trace, limit, x, c, end)
  {
    var was := Tombs(trace[..end - 1], limit);
    var y := trace[end - 1].id;
    var buried := Buried(trace, limit, x, c, end);
    assert trace[..end][..end - 1] == trace[..end - 1];
    TombsDistinct(trace[..end - 1], limit);
    var now := Tombs(trace[..end], limit);
    assert now == Bury(was, limit, y);
    var later := was[k + 1..] + [y];
    assert y in buried;
    MembersSnoc(was[k + 1..], y);
    assert Members(later) <= buried;
    if |was| >= limit && k == 0 {
      assert was[1..] + [y] == later;
      DistinctTail(was, y);
      MembersSize(later);
      SubsetSize(Members(later), buried);
    } else {
      var k' := if |was| >= limit then k - 1 else k;
      assert now[k'] == x && now[k' + 1..] == later;
    }
  }

  lemma MembersSnoc(s: seq<Id>, y: Id)
    ensures Members(s + [y]) == Members(s) + {y}
  {
    var all := s + [y];
    assert all[|s|] == y;
    forall z ensures z in Members(all) <==> z in Members(s) + {y} {
      if z in Members(s) {
        var i :| 0 <= i < |s| && s[i] == z;
        assert all[i] == z;
      }
    }
  }

  lemma DistinctTail(s: seq<Id>, y: Id)
    requires s != [] && Distinct(s) && y !in s
    ensures Distinct(s[1..] + [y])
  {
  }

  /** Active and suppressed ids are disjoint, so cancelling an active id always
      lays a fresh tombstone. */
  lemma {:induction false} LiveIsNotBuried(p: Policy, limit: nat, commands: seq<Command>, trace: Trace, x: Id)
    requires Legal(p, limit, commands, trace)
    requires StatusOf(trace, x) == Live
    ensures x !in Tombs(trace, limit)
  {
    var before := trace[..|trace| - 1];
    if StatusOf(before, x) == Live {
      LiveIsNotBuried(p, limit, commands, before, x);
    }
  }

  /** After an active id is cancelled or ends, no event of it is written again
      until a reset, or until a later response re-acknowledges it after at least
      `limit` distinct other ids were freshly buried. */
  lemma {:induction false} SuppressionWindow(p: Policy, limit: nat, commands: seq<Command>, trace: Trace,
                                             x: Id, c: nat, j: nat)
    returns (a: nat)
    requires Legal(p, limit, commands, trace) && limit > 0
    requires c < j < |trace| && trace[c] == Retired(x)
    requires StatusOf(trace[..c], x) == Live || x !in Tombs(trace[..c], limit)
    requires trace[j].Delivered? && trace[j].topic == Some(x)
    requires forall i :: c < i < j ==> trace[i] != Reset
    ensures c < a < j && Acks(trace[a], x)
    ensures |Buried(trace, limit, x, c, a)| >= limit
  {
    a := WrittenAfterAcknowledgement(p, limit, commands, trace, j);
    LegalAt(p, limit, commands, trace, a);
    LegalAt(p, limit, commands, trace, c);
    if StatusOf(trace[..c], x) == Live {
      LiveIsNotBuried(p, limit, commands, trace[..c], x);
    }
    TombstoneStays(trace, limit, x, c, a);
  }
}
