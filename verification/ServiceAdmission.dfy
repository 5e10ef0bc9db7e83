/** Admission of service requests: lane permits, and in-flight quotas per owner and
    per method, held through the handler and the encoder of each request. */
module ServiceAdmission {
  import opened Common

  datatype Mode = Read | Effect | Operation

  datatype Policy = Policy(mode: Mode, requestBytes: nat, maxInFlight: nat, maxOwnerInFlight: nat)

  /** The server's declarations: never taken from the caller. */
  datatype Config = Config(calls: nat, controls: nat, requestBytes: nat, policies: string -> Policy)

  datatype Lane = Calls | Controls

  datatype Refusal = RequestTooLarge | ValidationError | OwnerRequired | BeforeDispatch

  // ----- Usage counters -----

  type Counts = map<string, nat>

  function CountOf(m: Counts, key: string): nat {
    if key in m then m[key] else 0
  }

  function Increment(m: Counts, key: string): Counts {
    m[key := CountOf(m, key) + 1]
  }

  /** Taking one off a counter of zero would underflow; here it does nothing. */
  function Decrement(m: Counts, key: string): Counts {
    if CountOf(m, key) == 0 then m
    else if m[key] == 1 then m - {key}
    else m[key := m[key] - 1]
  }

  class Usage {
    var owners: Counts
    var methods: Counts

    constructor ()
      ensures owners == map[] && methods == map[]
    {
      owners, methods := map[], map[];
    }

    /** The check and the two increments, under the lock. */
    method Take(owner: string, name: string, policy: Policy) returns (taken: bool)
      modifies this
      ensures taken == (CountOf(old(owners), owner) < policy.maxOwnerInFlight
                        && CountOf(old(methods), name) < policy.maxInFlight)
      ensures owners == if taken then Increment(old(owners), owner) else old(owners)
      ensures methods == if taken then Increment(old(methods), name) else old(methods)
    {
      var owned := if owner in owners then owners[owner] else 0;
      var running := if name in methods then methods[name] else 0;
      if owned >= policy.maxOwnerInFlight || running >= policy.maxInFlight {
        return false;
      }
      owners := owners[owner := owned + 1];
      methods := methods[name := running + 1];
      return true;
    }

    /** What dropping a quota does, under the lock. */
    method Release(owner: string, name: string)
      requires CountOf(owners, owner) > 0 && CountOf(methods, name) > 0
      modifies this
      ensures owners == Decrement(old(owners), owner)
      ensures methods == Decrement(old(methods), name)
    {
      owners := owners[owner := owners[owner] - 1];
      if owners[owner] == 0 {
        owners := owners - {owner};
      }
      methods := methods[name := methods[name] - 1];
      if methods[name] == 0 {
        methods := methods - {name};
      }
    }
  }

  // ----- Requests -----

  /** Who would drop the admission: the caller (before run), the spawned task, the
      encoder's blocking job; it is being dropped; it is gone. */
  datatype Holder = Caller | Task | Encoder | Dropping | Nobody

  datatype Handler = NotStarted | Active | Completed | Panicked | Dropped

  datatype Encoding = Idle | Busy | Stopped

  datatype Quota = NoQuota | Live | Released

  /** The caller of run, from the moment it waits for the task. */
  datatype Waiter = Absent | Waiting | Answered | Lost

  datatype Ticket = Ticket(
    lane: Lane, owner: string, name: string, policy: Option<Policy>,
    holder: Holder, handler: Handler, encoding: Encoding, quota: Quota, waiter: Waiter, aborted: bool)

  type Tickets = map<nat, Ticket>

  datatype State = State(calls: nat, controls: nat, owners: Counts, methods: Counts, tickets: Tickets, next: nat)

  function Initial(c: Config): State {
    State(c.calls, c.controls, map[], map[], map[], 0)
  }

  datatype Action =
    // The checks and the permit of one request; a declared call takes its quota next, and
    // no control is declared.
    | Enter(lane: Lane, owner: Option<string>, name: string, bytes: nat, declared: bool)
    | TakeQuota(t: nat)
    | StartRun(t: nat)
    | Complete(t: nat)
    | Panic(t: nat)
    // The deadline passed, or the caller went away.
    | LoseWaiter(t: nat)
    | Answer(t: nat)
    | AbortTakesEffect(t: nat)
    | StopEncoding(t: nat)
    | DropHeld(t: nat)
    | ReleaseQuota(t: nat)
    | ReleasePermit(t: nat)

  function Refuses(s: State, c: Config, lane: Lane, owner: Option<string>, name: string, bytes: nat, declared: bool)
    : Option<Refusal>
  {
    if lane == Calls && declared && bytes > c.policies(name).requestBytes then Some(RequestTooLarge)
    else if lane == Calls && (!(1 <= |name| <= 256) || bytes > c.requestBytes) then Some(RequestTooLarge)
    // A control names the request it is about, and carries nothing.
    else if lane == Controls && !(1 <= |name| <= 256) then Some(ValidationError)
    else if owner.None? || owner.value == "" then Some(OwnerRequired)
    else if (if lane == Calls then s.calls else s.controls) == 0 then Some(BeforeDispatch)
    else None
  }

  function Set(s: State, t: nat, ticket: Ticket): State {
    s.(tickets := s.tickets[t := ticket])
  }

  function Step(s: State, c: Config, a: Action): State {
    match a
    case Enter(lane, owner, name, bytes, declared) =>
      if Refuses(s, c, lane, owner, name, bytes, declared).Some? then s
      else
        var policy := if declared && lane == Calls then Some(c.policies(name)) else None;
        var s' := if lane == Calls then s.(calls := s.calls - 1) else s.(controls := s.controls - 1);
        Set(s', s.next, Ticket(lane, owner.value, name, policy, Caller, NotStarted, Idle, NoQuota, Absent, false))
          .(next := s.next + 1)
    case _ =>
      if a.t !in s.tickets then s else Act(s, c, a)
  }

  /** What an action makes of a request; `room`: both of its counts are below their limits. */
  function NextTicket(k: Ticket, a: Action, room: bool): Ticket
    requires !a.Enter?
  {
    match a
    case TakeQuota(_) =>
      if k.holder != Caller || k.quota != NoQuota || k.policy.None? || k.lane != Calls then k
      else if room then k.(quota := Live)
      else k.(holder := Dropping)
    case StartRun(_) =>
      if k.holder != Caller then k
      // Execution requires a declared policy; without one the admission is dropped.
      else if k.policy.None? then k.(holder := Dropping)
      else if k.quota != Live then k
      else k.(holder := Task, handler := Active, waiter := Waiting)
    case Complete(_) => if k.holder == Task then k.(holder := Encoder, handler := Completed, encoding := Busy) else k
    case Panic(_) => if k.holder == Task then k.(holder := Dropping, handler := Panicked) else k
    // Only a read is aborted with its waiter.
    case LoseWaiter(_) => if k.waiter == Waiting then k.(waiter := Lost, aborted := !IsEffect(k)) else k
    // The task ends after what it held was dropped.
    case Answer(_) => if k.waiter == Waiting && k.holder == Nobody then k.(waiter := Answered) else k
    case AbortTakesEffect(_) => if k.aborted && k.holder == Task then k.(holder := Dropping, handler := Dropped) else k
    case StopEncoding(_) => if k.holder == Encoder then k.(holder := Dropping, encoding := Stopped) else k
    case DropHeld(_) => if k.holder == Caller then k.(holder := Dropping) else k
    case ReleaseQuota(_) => if k.holder == Dropping && k.quota == Live then k.(quota := Released) else k
    // Fields drop in order: the quota first.
    case ReleasePermit(_) => if k.holder == Dropping && k.quota != Live then k.(holder := Nobody) else k
  }

  predicate IsEffect(k: Ticket) {
    k.policy.Some? && k.policy.value.mode != Read
  }

  predicate HasRoom(s: State, k: Ticket) {
    && k.policy.Some?
    && CountOf(s.owners, k.owner) < k.policy.value.maxOwnerInFlight
    && CountOf(s.methods, k.name) < k.policy.value.maxInFlight
  }

  /** A count follows the quota of a request that has it as a key. */
  function Recount(m: Counts, key: string, was: Ticket, now: Ticket): Counts {
    if was.quota != Live && now.quota == Live then Increment(m, key)
    else if was.quota == Live && now.quota != Live then Decrement(m, key)
    else m
  }

  /** The permit that a request gives back to its lane. */
  function Returned(was: Ticket, now: Ticket, lane: Lane): nat {
    if was.lane == lane && was.holder != Nobody && now.holder == Nobody then 1 else 0
  }

  function Replace(s: State, t: nat, k: Ticket): State
    requires t in s.tickets
  {
    var was := s.tickets[t];
    State(s.calls + Returned(was, k, Calls), s.controls + Returned(was, k, Controls),
          Recount(s.owners, was.owner, was, k), Recount(s.methods, was.name, was, k), s.tickets[t := k], s.next)
  }

  function Act(s: State, c: Config, a: Action): State
    requires !a.Enter? && a.t in s.tickets
  {
    Replace(s, a.t, NextTicket(s.tickets[a.t], a, HasRoom(s, s.tickets[a.t])))
  }

  function Run(c: Config, actions: seq<Action>): State {
    if actions == [] then Initial(c)
    else Step(Run(c, actions[..|actions| - 1]), c, actions[|actions| - 1])
  }

  // ----- The invariant -----

  function OwnerQuotas(tickets: Tickets, owner: string): set<nat> {
    set t | t in tickets && tickets[t].quota == Live && tickets[t].owner == owner
  }

  function MethodQuotas(tickets: Tickets, name: string): set<nat> {
    set t | t in tickets && tickets[t].quota == Live && tickets[t].name == name
  }

  function LiveQuotas(tickets: Tickets): set<nat> {
    set t | t in tickets && tickets[t].quota == Live
  }

  /** Requests whose permit has not gone back. */
  function Taken(tickets: Tickets, lane: Lane): set<nat> {
    set t | t in tickets && tickets[t].lane == lane && tickets[t].holder != Nobody
  }

  /** What one request's parts say about each other. */
  ghost predicate Consistent(c: Config, k: Ticket) {
    && (k.policy.Some? ==> k.policy.value == c.policies(k.name))
    && (k.holder == Caller ==> k.handler == NotStarted)
    && (k.holder == Task <==> k.handler == Active)
    && (k.holder == Encoder <==> k.encoding == Busy)
    && (k.handler == Completed <==> k.encoding != Idle)
    && (k.handler != NotStarted ==> k.policy.Some? && k.quota != NoQuota)
    && (k.handler == Dropped ==> k.policy.Some? && k.policy.value.mode == Read)
    && (k.aborted ==> k.policy.Some? && k.policy.value.mode == Read && k.waiter == Lost)
    && (k.waiter == Absent <==> k.handler == NotStarted)
    && (k.waiter == Answered ==> k.holder == Nobody)
    && (k.quota == Released ==> k.holder == Dropping || k.holder == Nobody)
    && (k.holder == Nobody ==> k.quota != Live)
    && (k.quota != NoQuota ==> k.lane == Calls)
  }

  ghost predicate AllConsistent(s: State, c: Config) {
    forall t :: t in s.tickets ==> Consistent(c, s.tickets[t]) && t < s.next
  }

  ghost predicate PermitsCounted(s: State, c: Config) {
    s.calls + |Taken(s.tickets, Calls)| == c.calls && s.controls + |Taken(s.tickets, Controls)| == c.controls
  }

  ghost predicate Exact(m: Counts, key: string, holders: set<nat>) {
    CountOf(m, key) == |holders| && (key in m ==> m[key] > 0)
  }

  ghost predicate QuotasCounted(s: State) {
    && (forall owner :: Exact(s.owners, owner, OwnerQuotas(s.tickets, owner)))
    && (forall name :: Exact(s.methods, name, MethodQuotas(s.tickets, name)))
  }

  ghost predicate MethodsBounded(s: State, c: Config) {
    forall name :: CountOf(s.methods, name) <= c.policies(name).maxInFlight
  }

  ghost predicate Inv(s: State, c: Config) {
    AllConsistent(s, c) && PermitsCounted(s, c) && QuotasCounted(s) && MethodsBounded(s, c)
  }

  lemma ConsistentAfter(s: State, c: Config, t: nat, k: Ticket)
    requires AllConsistent(s, c) && Consistent(c, k) && t < s.next
    ensures AllConsistent(Set(s, t, k), c)
  {
  }

  /** The permits of a lane, when one request's holder changes. */
  lemma TakenAfter(tickets: Tickets, t: nat, k: Ticket, lane: Lane)
    ensures var was := t in tickets && tickets[t].lane == lane && tickets[t].holder != Nobody;
      var now := k.lane == lane && k.holder != Nobody;
      |Taken(tickets[t := k], lane)| + (if was then 1 else 0) == |Taken(tickets, lane)| + if now then 1 else 0
  {
    SizeChange(Taken(tickets, lane), Taken(tickets[t := k], lane), t);
  }

  /** Counters stay exact when no quota is taken or released. */
  lemma SameQuotas(s: State, s': State, t: nat, k: Ticket)
    requires QuotasCounted(s) && s'.owners == s.owners && s'.methods == s.methods && s'.tickets == s.tickets[t := k]
    requires t in s.tickets ==> k.owner == s.tickets[t].owner && k.name == s.tickets[t].name
    requires k.quota == Live <==> t in s.tickets && s.tickets[t].quota == Live
    ensures QuotasCounted(s')
  {
    forall key
      ensures Exact(s'.owners, key, OwnerQuotas(s'.tickets, key))
      ensures Exact(s'.methods, key, MethodQuotas(s'.tickets, key))
    {
      assert Exact(s.owners, key, OwnerQuotas(s.tickets, key)) && Exact(s.methods, key, MethodQuotas(s.tickets, key));
      assert OwnerQuotas(s'.tickets, key) == OwnerQuotas(s.tickets, key);
      assert MethodQuotas(s'.tickets, key) == MethodQuotas(s.tickets, key);
    }
  }

  /** A step of one request that neither takes nor returns capacity. */
  lemma QuietKeeps(s: State, c: Config, t: nat, k: Ticket)
    requires Inv(s, c) && t in s.tickets && Consistent(c, k)
    requires var was := s.tickets[t];
      && k.lane == was.lane && k.owner == was.owner && k.name == was.name
      && (k.quota == Live <==> was.quota == Live) && (k.holder == Nobody <==> was.holder == Nobody)
    ensures Inv(Set(s, t, k), c)
  {
    ConsistentAfter(s, c, t, k);
    TakenAfter(s.tickets, t, k, Calls);
    TakenAfter(s.tickets, t, k, Controls);
    SameQuotas(s, Set(s, t, k), t, k);
  }

  lemma EnterKeeps(s: State, c: Config, lane: Lane, owner: Option<string>, name: string, bytes: nat, declared: bool)
    requires Inv(s, c) && Refuses(s, c, lane, owner, name, bytes, declared).None?
    ensures Inv(Step(s, c, Enter(lane, owner, name, bytes, declared)), c)
  {
    var s' := Step(s, c, Enter(lane, owner, name, bytes, declared));
    var k := s'.tickets[s.next];
    assert s.next !in s.tickets;
    forall t | t in s'.tickets ensures Consistent(c, s'.tickets[t]) && t < s'.next {
    }
    TakenAfter(s.tickets, s.next, k, Calls);
    TakenAfter(s.tickets, s.next, k, Controls);
    SameQuotas(s, s', s.next, k);
  }

  // ----- Taking and releasing a quota -----

  lemma QuotaAfter(tickets: Tickets, t: nat, k: Ticket, owner: string, name: string)
    requires t in tickets && k.owner == tickets[t].owner && k.name == tickets[t].name
    ensures var was, now := tickets[t].quota == Live, k.quota == Live;
      && |OwnerQuotas(tickets[t := k], owner)| + (if was && k.owner == owner then 1 else 0)
         == |OwnerQuotas(tickets, owner)| + (if now && k.owner == owner then 1 else 0)
      && |MethodQuotas(tickets[t := k], name)| + (if was && k.name == name then 1 else 0)
         == |MethodQuotas(tickets, name)| + (if now && k.name == name then 1 else 0)
  {
    SizeChange(OwnerQuotas(tickets, owner), OwnerQuotas(tickets[t := k], owner), t);
    SizeChange(MethodQuotas(tickets, name), MethodQuotas(tickets[t := k], name), t);
  }

  lemma TakeKeeps(s: State, c: Config, t: nat)
    requires Inv(s, c) && t in s.tickets
    requires var k := s.tickets[t];
      && k.holder == Caller && k.quota == NoQuota && k.policy.Some? && k.lane == Calls
      && CountOf(s.methods, k.name) < k.policy.value.maxInFlight
    ensures var k := s.tickets[t];
      Inv(Set(s, t, k.(quota := Live)).(
        owners := Increment(s.owners, k.owner), methods := Increment(s.methods, k.name)), c)
  {
    var was := s.tickets[t];
    var k := was.(quota := Live);
    ConsistentAfter(s, c, t, k);
    TakenAfter(s.tickets, t, k, Calls);
    TakenAfter(s.tickets, t, k, Controls);
    var s' := Set(s, t, k).(owners := Increment(s.owners, k.owner), methods := Increment(s.methods, k.name));
    forall owner ensures Exact(s'.owners, owner, OwnerQuotas(s'.tickets, owner)) {
      QuotaAfter(s.tickets, t, k, owner, k.name);
    }
    forall name ensures Exact(s'.methods, name, MethodQuotas(s'.tickets, name)) {
      QuotaAfter(s.tickets, t, k, k.owner, name);
    }
  }

  /** A live quota is counted, so releasing it never underflows. */
  lemma LiveIsCounted(s: State, t: nat)
    requires QuotasCounted(s) && t in s.tickets && s.tickets[t].quota == Live
    ensures CountOf(s.owners, s.tickets[t].owner) > 0 && CountOf(s.methods, s.tickets[t].name) > 0
  {
    var k := s.tickets[t];
    assert t in OwnerQuotas(s.tickets, k.owner) && t in MethodQuotas(s.tickets, k.name);
    assert Exact(s.owners, k.owner, OwnerQuotas(s.tickets, k.owner));
    assert Exact(s.methods, k.name, MethodQuotas(s.tickets, k.name));
  }

  lemma ReleaseKeeps(s: State, c: Config, t: nat)
    requires Inv(s, c) && t in s.tickets && s.tickets[t].holder == Dropping && s.tickets[t].quota == Live
    ensures var k := s.tickets[t];
      Inv(Set(s, t, k.(quota := Released)).(
        owners := Decrement(s.owners, k.owner), methods := Decrement(s.methods, k.name)), c)
  {
    var k := s.tickets[t].(quota := Released);
    LiveIsCounted(s, t);
    ConsistentAfter(s, c, t, k);
    TakenAfter(s.tickets, t, k, Calls);
    TakenAfter(s.tickets, t, k, Controls);
    var s' := Set(s, t, k).(owners := Decrement(s.owners, k.owner), methods := Decrement(s.methods, k.name));
    forall owner ensures Exact(s'.owners, owner, OwnerQuotas(s'.tickets, owner)) {
      QuotaAfter(s.tickets, t, k, owner, k.name);
      assert Exact(s.owners, owner, OwnerQuotas(s.tickets, owner));
    }
    forall name ensures Exact(s'.methods, name, MethodQuotas(s'.tickets, name))
      ensures CountOf(s'.methods, name) <= c.policies(name).maxInFlight
    {
      QuotaAfter(s.tickets, t, k, k.owner, name);
      assert Exact(s.methods, name, MethodQuotas(s.tickets, name));
    }
  }

  lemma ReturnKeeps(s: State, c: Config, t: nat)
    requires Inv(s, c) && t in s.tickets && s.tickets[t].holder == Dropping && s.tickets[t].quota != Live
    ensures Inv(Replace(s, t, s.tickets[t].(holder := Nobody)), c)
  {
    var k := s.tickets[t].(holder := Nobody);
    ConsistentAfter(s, c, t, k);
    TakenAfter(s.tickets, t, k, Calls);
    TakenAfter(s.tickets, t, k, Controls);
    SameQuotas(s, Replace(s, t, k), t, k);
  }

  /** All of a request but its waiter. */
  function Unwatched(k: Ticket): Ticket {
    k.(waiter := Absent, aborted := false)
  }

  /** Every step of a request leaves its parts consistent, and never revives what
      was released. */
  lemma NextConsistent(c: Config, k: Ticket, a: Action, room: bool)
    requires !a.Enter? && Consistent(c, k)
    ensures var now := NextTicket(k, a, room);
      && Consistent(c, now)
      && now.lane == k.lane && now.owner == k.owner && now.name == k.name && now.policy == k.policy
      && StillReleased(k, now)
  {
  }

  ghost predicate StillReleased(was: Ticket, now: Ticket) {
    && (was.quota == Released ==> now.quota == Released)
    && (was.holder == Nobody ==> Unwatched(now) == Unwatched(was))
  }

  /** A quota is taken or released, or a permit returned, one at a time and alone. */
  lemma NextChanges(c: Config, k: Ticket, a: Action, room: bool)
    requires !a.Enter? && Consistent(c, k)
    ensures var now := NextTicket(k, a, room);
      && (k.quota == Live && now.quota != Live ==> now == k.(quota := Released) && k.holder == Dropping)
      && (k.quota != Live && now.quota == Live ==>
            room && now == k.(quota := Live) && k.holder == Caller && k.quota == NoQuota && k.policy.Some?
            && k.lane == Calls)
      && (k.holder != Nobody && now.holder == Nobody ==>
            now == k.(holder := Nobody) && k.holder == Dropping && k.quota != Live)
      && (k.holder == Nobody ==> now.holder == Nobody)
  {
  }

  lemma ReplaceKeeps(s: State, c: Config, t: nat, now: Ticket)
    requires Inv(s, c) && t in s.tickets && Consistent(c, now)
    requires var k := s.tickets[t];
      && now.lane == k.lane && now.owner == k.owner && now.name == k.name
      && (k.quota == Live && now.quota != Live ==> now == k.(quota := Released) && k.holder == Dropping)
      && (k.quota != Live && now.quota == Live ==>
            HasRoom(s, k) && now == k.(quota := Live) && k.holder == Caller && k.quota == NoQuota && k.lane == Calls)
      && (k.holder != Nobody && now.holder == Nobody ==>
            now == k.(holder := Nobody) && k.holder == Dropping && k.quota != Live)
      && (k.holder == Nobody ==> now.holder == Nobody)
    ensures Inv(Replace(s, t, now), c)
  {
    var k := s.tickets[t];
    if k.quota == Live && now.quota != Live {
      ReleaseKeeps(s, c, t);
    } else if k.quota != Live && now.quota == Live {
      TakeKeeps(s, c, t);
    } else if k.holder != Nobody && now.holder == Nobody {
      ReturnKeeps(s, c, t);
    } else {
      QuietKeeps(s, c, t, now);
      assert Replace(s, t, now) == Set(s, t, now);
    }
  }

  lemma ActKeeps(s: State, c: Config, a: Action)
    requires Inv(s, c) && !a.Enter? && a.t in s.tickets
    ensures Inv(Act(s, c, a), c)
  {
    var k := s.tickets[a.t];
    assert Consistent(c, k);
    NextConsistent(c, k, a, HasRoom(s, k));
    NextChanges(c, k, a, HasRoom(s, k));
    ReplaceKeeps(s, c, a.t, NextTicket(k, a, HasRoom(s, k)));
  }

  lemma StepKeeps(s: State, c: Config, a: Action)
    requires Inv(s, c)
    ensures Inv(Step(s, c, a), c)
  {
    if a.Enter? {
      if Refuses(s, c, a.lane, a.owner, a.name, a.bytes, a.declared).None? {
        EnterKeeps(s, c, a.lane, a.owner, a.name, a.bytes, a.declared);
      }
    } else if a.t in s.tickets {
      ActKeeps(s, c, a);
    }
  }

  lemma {:induction false} EveryRunKeepsInv(c: Config, actions: seq<Action>)
    ensures Inv(Run(c, actions), c)
  {
    if actions != [] {
      EveryRunKeepsInv(c, actions[..|actions| - 1]);
      StepKeeps(Run(c, actions[..|actions| - 1]), c, actions[|actions| - 1]);
    }
  }

  // ----- Totals -----

  ghost function Total(m: Counts): nat {
    if m == map[] then 0
    else var key :| key in m; m[key] + Total(m - {key})
  }

  lemma {:induction false} TotalWithout(m: Counts, key: string)
    requires key in m
    ensures Total(m) == m[key] + Total(m - {key})
    decreases |m|
  {
    var first :| first in m && Total(m) == m[first] + Total(m - {first});
    if first != key {
      TotalWithout(m - {first}, key);
      TotalWithout(m - {key}, first);
      assert m - {first} - {key} == m - {key} - {first};
    }
  }

  lemma TotalIncrement(m: Counts, key: string)
    ensures Total(Increment(m, key)) == Total(m) + 1
  {
    var m' := Increment(m, key);
    TotalWithout(m', key);
    assert m' - {key} == m - {key};
    if key in m {
      TotalWithout(m, key);
    } else {
      assert m - {key} == m;
    }
  }

  lemma TotalDecrement(m: Counts, key: string)
    requires CountOf(m, key) > 0
    ensures Total(Decrement(m, key)) + 1 == Total(m)
  {
    var m' := Decrement(m, key);
    TotalWithout(m, key);
    if m[key] > 1 {
      TotalWithout(m', key);
      assert m' - {key} == m - {key};
    }
  }

  lemma LiveAfter(tickets: Tickets, t: nat, k: Ticket)
    ensures |LiveQuotas(tickets[t := k])| + (if t in tickets && tickets[t].quota == Live then 1 else 0)
         == |LiveQuotas(tickets)| + if k.quota == Live then 1 else 0
  {
    SizeChange(LiveQuotas(tickets), LiveQuotas(tickets[t := k]), t);
  }

  ghost predicate TotalsAgree(s: State) {
    Total(s.owners) == |LiveQuotas(s.tickets)| == Total(s.methods)
  }

  lemma TotalsReplace(s: State, c: Config, t: nat, k: Ticket)
    requires Inv(s, c) && TotalsAgree(s)
    requires t in s.tickets && k.owner == s.tickets[t].owner && k.name == s.tickets[t].name
    ensures TotalsAgree(Replace(s, t, k))
  {
    var was := s.tickets[t];
    LiveAfter(s.tickets, t, k);
    if was.quota == Live && k.quota != Live {
      LiveIsCounted(s, t);
      TotalDecrement(s.owners, was.owner);
      TotalDecrement(s.methods, was.name);
    } else if was.quota != Live && k.quota == Live {
      TotalIncrement(s.owners, was.owner);
      TotalIncrement(s.methods, was.name);
    }
  }

  lemma TotalsAct(s: State, c: Config, a: Action)
    requires Inv(s, c) && TotalsAgree(s) && !a.Enter? && a.t in s.tickets
    ensures TotalsAgree(Act(s, c, a))
  {
    var k := s.tickets[a.t];
    assert Consistent(c, k);
    NextConsistent(c, k, a, HasRoom(s, k));
    TotalsReplace(s, c, a.t, NextTicket(k, a, HasRoom(s, k)));
  }

  lemma TotalsStep(s: State, c: Config, a: Action)
    requires Inv(s, c) && TotalsAgree(s)
    ensures TotalsAgree(Step(s, c, a))
  {
    if !a.Enter? {
      if a.t in s.tickets {
        TotalsAct(s, c, a);
      }
    } else if Step(s, c, a) != s {
      assert s.next !in s.tickets;
      LiveAfter(s.tickets, s.next, Step(s, c, a).tickets[s.next]);
    }
  }

  /** At every moment the two totals equal the number of live quotas, and no more
      quotas are live than call permits are taken. */
  lemma {:induction false} TotalsAreLiveQuotas(c: Config, actions: seq<Action>)
    ensures TotalsAgree(Run(c, actions))
    ensures |LiveQuotas(Run(c, actions).tickets)| <= |Taken(Run(c, actions).tickets, Calls)| <= c.calls
  {
    if actions != [] {
      var before := Run(c, actions[..|actions| - 1]);
      TotalsAreLiveQuotas(c, actions[..|actions| - 1]);
      EveryRunKeepsInv(c, actions[..|actions| - 1]);
      TotalsStep(before, c, actions[|actions| - 1]);
    }
    EveryRunKeepsInv(c, actions);
    var s := Run(c, actions);
    var live, taken := LiveQuotas(s.tickets), Taken(s.tickets, Calls);
    forall t | t in live ensures t in taken {
      assert Consistent(c, s.tickets[t]);
    }
    assert taken == live + (taken - live);
  }

  // ----- When capacity comes back -----

  /** Capacity that has come back belongs to no handler or encoder that is still
      at work; a handler whose result is being encoded keeps it; only reads are
      ever abandoned. */
  lemma ReleasedOnlyWhenDone(c: Config, actions: seq<Action>, t: nat)
    requires var s := Run(c, actions);
      t in s.tickets && (s.tickets[t].quota == Released || s.tickets[t].holder == Nobody)
    ensures var k := Run(c, actions).tickets[t];
      && k.handler != Active && k.encoding != Busy
      && (k.handler == Completed ==> k.encoding == Stopped)
      && (k.handler == Dropped ==> k.policy.Some? && k.policy.value.mode == Read)
  {
    EveryRunKeepsInv(c, actions);
    assert Consistent(c, Run(c, actions).tickets[t]);
  }

  /** The state but for the waiter of one request. */
  function WithoutWaiter(s: State, t: nat): State {
    if t in s.tickets then Set(s, t, Unwatched(s.tickets[t])) else s
  }

  /** The actions but for what happens to the waiter of one request. */
  function WithoutWaits(actions: seq<Action>, t: nat): seq<Action> {
    if actions == [] then []
    else
      var last := actions[|actions| - 1];
      WithoutWaits(actions[..|actions| - 1], t) + if last == LoseWaiter(t) || last == Answer(t) then [] else [last]
  }

  /** States that differ in the waiter of an effect alone. */
  ghost predicate Alike(s: State, s': State, t: nat) {
    && t in s.tickets && t in s'.tickets && t < s.next && IsEffect(s.tickets[t])
    && WithoutWaiter(s, t) == WithoutWaiter(s', t) && !s.tickets[t].aborted && !s'.tickets[t].aborted
  }

  lemma AlikeTickets(s: State, s': State, t: nat)
    requires Alike(s, s', t)
    ensures s' == s.(tickets := s.tickets[t := s'.tickets[t]]) && Unwatched(s.tickets[t]) == Unwatched(s'.tickets[t])
  {
    assert Unwatched(s.tickets[t]) == WithoutWaiter(s, t).tickets[t] == WithoutWaiter(s', t).tickets[t];
    forall u ensures u in s'.tickets <==> u in s.tickets[t := s'.tickets[t]].Keys
      ensures u in s'.tickets && u != t ==> s'.tickets[u] == s.tickets[u]
    {
      assert u in WithoutWaiter(s, t).tickets <==> u in WithoutWaiter(s', t).tickets;
      assert u in s.tickets && u != t ==> WithoutWaiter(s, t).tickets[u] == WithoutWaiter(s', t).tickets[u];
    }
    assert s'.tickets == s.tickets[t := s'.tickets[t]];
  }

  lemma MakeAlike(s: State, s': State, t: nat)
    requires t in s.tickets && t in s'.tickets && t < s.next && IsEffect(s.tickets[t])
    requires !s.tickets[t].aborted && !s'.tickets[t].aborted
    requires s' == s.(tickets := s.tickets[t := s'.tickets[t]]) && Unwatched(s.tickets[t]) == Unwatched(s'.tickets[t])
    ensures Alike(s, s', t)
  {
    assert WithoutWaiter(s, t).tickets == WithoutWaiter(s', t).tickets;
  }

  /** The waiter's own steps leave an effect alike. */
  lemma WaitsChangeNothing(s: State, s': State, c: Config, a: Action, t: nat)
    requires Alike(s, s', t) && (a == LoseWaiter(t) || a == Answer(t))
    ensures Alike(Step(s, c, a), s', t)
  {
    AlikeTickets(s, s', t);
    var r := Step(s, c, a);
    assert s'.tickets == r.tickets[t := s'.tickets[t]];
    MakeAlike(r, s', t);
  }

  /** A step of an effect's own, whoever waits for it. */
  lemma NextUnwatched(k: Ticket, k': Ticket, a: Action, room: bool)
    requires !a.Enter? && IsEffect(k) && Unwatched(k) == Unwatched(k') && k.aborted == k'.aborted == false
    ensures var now, now' := NextTicket(k, a, room), NextTicket(k', a, room);
      && (!a.LoseWaiter? && !a.Answer? ==> Unwatched(now) == Unwatched(now'))
      && !now.aborted && !now'.aborted && IsEffect(now)
  {
  }

  lemma ReplaceOwn(s: State, s': State, t: nat, now: Ticket, now': Ticket)
    requires Alike(s, s', t) && Unwatched(now) == Unwatched(now') && IsEffect(now) && !now.aborted && !now'.aborted
    ensures Alike(Replace(s, t, now), Replace(s', t, now'), t)
  {
    AlikeTickets(s, s', t);
    var r, r' := Replace(s, t, now), Replace(s', t, now');
    assert r'.tickets == r.tickets[t := now'];
    MakeAlike(r, r', t);
  }

  lemma ReplaceOther(s: State, s': State, t: nat, u: nat, now: Ticket)
    requires Alike(s, s', t) && u != t && u in s.tickets && u in s'.tickets && s.tickets[u] == s'.tickets[u]
    ensures Alike(Replace(s, u, now), Replace(s', u, now), t)
  {
    AlikeTickets(s, s', t);
    var r, r' := Replace(s, u, now), Replace(s', u, now);
    assert r'.tickets == r.tickets[t := s'.tickets[t]];
    MakeAlike(r, r', t);
  }

  lemma ActOnAlike(s: State, s': State, c: Config, a: Action, t: nat)
    requires Alike(s, s', t) && !a.Enter? && a.t in s.tickets && (a.t == t ==> !a.LoseWaiter? && !a.Answer?)
    ensures a.t in s'.tickets && Alike(Act(s, c, a), Act(s', c, a), t)
  {
    AlikeTickets(s, s', t);
    var u := a.t;
    var k, k' := s.tickets[u], s'.tickets[u];
    var room := HasRoom(s, k);
    assert HasRoom(s', k') == room;
    if u == t {
      NextUnwatched(k, k', a, room);
      ReplaceOwn(s, s', t, NextTicket(k, a, room), NextTicket(k', a, room));
    } else {
      ReplaceOther(s, s', t, u, NextTicket(k, a, room));
    }
  }

  lemma EnterOnAlike(s: State, s': State, c: Config, a: Action, t: nat)
    requires Alike(s, s', t) && a.Enter?
    ensures Alike(Step(s, c, a), Step(s', c, a), t)
  {
    AlikeTickets(s, s', t);
    var r, r' := Step(s, c, a), Step(s', c, a);
    assert r'.tickets == r.tickets[t := r'.tickets[t]];
    MakeAlike(r, r', t);
  }

  lemma RunSnoc(c: Config, actions: seq<Action>, a: Action)
    ensures Run(c, actions + [a]) == Step(Run(c, actions), c, a)
  {
    assert (actions + [a])[..|actions|] == actions;
  }

  /** Whatever happens to the waiter of an effect or an operation, and whenever: but
      for that waiter, the run is the one in which nothing happens to it. */
  lemma {:induction false} EffectsOutliveTheirWaiters(c: Config, before: seq<Action>, after: seq<Action>, t: nat)
    requires t in Run(c, before).tickets && IsEffect(Run(c, before).tickets[t])
    ensures Alike(Run(c, before + after), Run(c, before + WithoutWaits(after, t)), t)
    decreases |after|
  {
    if after == [] {
      EveryRunKeepsInv(c, before);
      AlikeToItself(Run(c, before), c, t);
      assert before + after == before && before + WithoutWaits(after, t) == before;
    } else {
      var front, a := after[..|after| - 1], after[|after| - 1];
      EffectsOutliveTheirWaiters(c, before, front, t);
      OneMoreAction(c, before, front, a, t);
      assert front + [a] == after;
    }
  }

  lemma AlikeToItself(s: State, c: Config, t: nat)
    requires AllConsistent(s, c) && t in s.tickets && IsEffect(s.tickets[t])
    ensures Alike(s, s, t)
  {
    assert Consistent(c, s.tickets[t]);
  }

  lemma OneMoreAction(c: Config, before: seq<Action>, front: seq<Action>, a: Action, t: nat)
    requires Alike(Run(c, before + front), Run(c, before + WithoutWaits(front, t)), t)
    ensures Alike(Run(c, before + (front + [a])), Run(c, before + WithoutWaits(front + [a], t)), t)
  {
    var fewer := WithoutWaits(front, t);
    assert before + (front + [a]) == (before + front) + [a];
    RunSnoc(c, before + front, a);
    assert (front + [a])[..|front|] == front;
    if a == LoseWaiter(t) || a == Answer(t) {
      assert WithoutWaits(front + [a], t) == fewer;
      WaitsChangeNothing(Run(c, before + front), Run(c, before + fewer), c, a, t);
    } else {
      assert before + WithoutWaits(front + [a], t) == (before + fewer) + [a];
      RunSnoc(c, before + fewer, a);
      StepOnAlike(Run(c, before + front), Run(c, before + fewer), c, a, t);
    }
  }

  lemma StepOnAlike(s: State, s': State, c: Config, a: Action, t: nat)
    requires Alike(s, s', t) && a != LoseWaiter(t) && a != Answer(t)
    ensures Alike(Step(s, c, a), Step(s', c, a), t)
  {
    if a.Enter? {
      EnterOnAlike(s, s', c, a, t);
    } else {
      AlikeTickets(s, s', t);
      if a.t in s.tickets {
        ActOnAlike(s, s', c, a, t);
      }
    }
  }

  /** The handler of an effect, or the encoder of any request, is at work. */
  predicate AtWork(k: Ticket) {
    (k.handler == Active && IsEffect(k)) || k.encoding == Busy
  }

  predicate EndsWork(a: Action, t: nat) {
    a == Complete(t) || a == Panic(t) || a == StopEncoding(t)
  }

  lemma TicketAfter(s: State, c: Config, a: Action, t: nat)
    requires t in s.tickets && t < s.next
    ensures t in Step(s, c, a).tickets
    ensures Step(s, c, a).tickets[t] == TicketNext(s, a, t)
  {
  }

  function TicketNext(s: State, a: Action, t: nat): Ticket
    requires t in s.tickets
  {
    if !a.Enter? && a.t == t then NextTicket(s.tickets[t], a, HasRoom(s, s.tickets[t])) else s.tickets[t]
  }

  lemma NextAtWork(c: Config, k: Ticket, a: Action, room: bool, t: nat)
    requires !a.Enter? && Consistent(c, k) && AtWork(k) && a.t == t && !EndsWork(a, t)
    ensures Unwatched(NextTicket(k, a, room)) == Unwatched(k)
  {
  }

  lemma WorkGoesOn(s: State, c: Config, a: Action, t: nat)
    requires Inv(s, c) && t in s.tickets && AtWork(s.tickets[t]) && !EndsWork(a, t)
    ensures t in Step(s, c, a).tickets && Unwatched(Step(s, c, a).tickets[t]) == Unwatched(s.tickets[t])
  {
    assert Consistent(c, s.tickets[t]) && t < s.next;
    TicketAfter(s, c, a, t);
    if !a.Enter? && a.t == t {
      NextAtWork(c, s.tickets[t], a, HasRoom(s, s.tickets[t]), t);
    }
  }

  /** The work goes on as it was, with its permit and its quota. */
  ghost predicate Held(s: State, t: nat, was: Ticket) {
    && t in s.tickets && AtWork(s.tickets[t]) && s.tickets[t].quota == Live && t in Taken(s.tickets, Calls)
    && s.tickets[t].handler == was.handler && s.tickets[t].encoding == was.encoding
  }

  lemma WorkIsHeld(s: State, c: Config, t: nat)
    requires Inv(s, c) && t in s.tickets && AtWork(s.tickets[t])
    ensures Held(s, t, s.tickets[t])
  {
    assert Consistent(c, s.tickets[t]);
  }

  lemma StepHolds(s: State, c: Config, a: Action, t: nat, was: Ticket)
    requires Inv(s, c) && Held(s, t, was) && !EndsWork(a, t)
    ensures Held(Step(s, c, a), t, was)
  {
    WorkGoesOn(s, c, a, t);
    StepKeeps(s, c, a);
    WorkIsHeld(Step(s, c, a), c, t);
  }

  /** Until it completes or panics by itself, the handler of an effect or operation
      stays at work, and until it stops by itself so does any encoder; all the while
      the request holds its permit and its quota. */
  lemma {:induction false} CapacityIsHeldWhileAtWork(c: Config, before: seq<Action>, more: seq<Action>, t: nat)
    requires t in Run(c, before).tickets && AtWork(Run(c, before).tickets[t])
    requires forall i :: 0 <= i < |more| ==> !EndsWork(more[i], t)
    ensures Held(Run(c, before + more), t, Run(c, before).tickets[t])
    decreases |more|
  {
    if more == [] {
      assert before + more == before;
      EveryRunKeepsInv(c, before);
      WorkIsHeld(Run(c, before), c, t);
    } else {
      var front, a := more[..|more| - 1], more[|more| - 1];
      CapacityIsHeldWhileAtWork(c, before, front, t);
      EveryRunKeepsInv(c, before + front);
      assert before + more == (before + front) + [a];
      RunSnoc(c, before + front, a);
      StepHolds(Run(c, before + front), c, a, t, Run(c, before).tickets[t]);
    }
  }

  lemma StepNeverRevives(s: State, c: Config, a: Action, t: nat)
    requires Inv(s, c) && t in s.tickets
    ensures t in Step(s, c, a).tickets && StillReleased(s.tickets[t], Step(s, c, a).tickets[t])
  {
    assert t < s.next && Consistent(c, s.tickets[t]);
    TicketAfter(s, c, a, t);
    if !a.Enter? && a.t == t {
      NextConsistent(c, s.tickets[t], a, HasRoom(s, s.tickets[t]));
    }
  }

  /** Nothing takes a quota or a permit back a second time, or revives it. */
  lemma {:induction false} ReleasedForGood(c: Config, actions: seq<Action>, n: nat, t: nat)
    requires n <= |actions| && t in Run(c, actions[..n]).tickets
    ensures t in Run(c, actions).tickets
    ensures StillReleased(Run(c, actions[..n]).tickets[t], Run(c, actions).tickets[t])
    decreases |actions|
  {
    if n < |actions| {
      var front := actions[..|actions| - 1];
      assert front[..n] == actions[..n];
      ReleasedForGood(c, front, n, t);
      EveryRunKeepsInv(c, front);
      StepNeverRevives(Run(c, front), c, actions[|actions| - 1], t);
    } else {
      assert actions[..n] == actions;
    }
  }

  /** When every request has been let go, all capacity is back and every counter
      is gone. */
  lemma QuietServiceIsIdle(c: Config, actions: seq<Action>)
    requires forall t :: t in Run(c, actions).tickets ==> Run(c, actions).tickets[t].holder == Nobody
    ensures var s := Run(c, actions);
      s.calls == c.calls && s.controls == c.controls && s.owners == map[] && s.methods == map[]
  {
    EveryRunKeepsInv(c, actions);
    var s := Run(c, actions);
    assert Taken(s.tickets, Calls) == {} && Taken(s.tickets, Controls) == {};
    assert forall t :: t in s.tickets ==> Consistent(c, s.tickets[t]);
    forall key ensures key !in s.owners && key !in s.methods {
      assert OwnerQuotas(s.tickets, key) == {} && MethodQuotas(s.tickets, key) == {};
      assert Exact(s.owners, key, OwnerQuotas(s.tickets, key));
      assert Exact(s.methods, key, MethodQuotas(s.tickets, key));
    }
  }
}
