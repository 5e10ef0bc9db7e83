/** What each step of service admission does, over every run: which requests are refused
    and why, when a quota is taken, how handlers, encoders and waiters move, and that the
    service can always come to rest. */
module AdmissionLaws {
  import opened Common
  import opened ServiceAdmission
  import opened Reach

  // ----- What is refused -----

  predicate BadName(name: string) {
    name == "" || |name| > 256
  }

  predicate TooLarge(c: Config, lane: Lane, name: string, bytes: nat, declared: bool) {
    && lane == Calls
    && (BadName(name) || bytes > c.requestBytes || (declared && bytes > c.policies(name).requestBytes))
  }

  predicate IsFull(s: State, c: Config, lane: Lane) {
    |Taken(s.tickets, lane)| >= if lane == Calls then c.calls else c.controls
  }

  /** Which refusal a request gets, by what comes first: too large, a bad identifier of a
      control, no owner, no permit left; and no other request is refused. */
  lemma RefusedExactly(c: Config, actions: seq<Action>, lane: Lane, owner: Option<string>, name: string,
                       bytes: nat, declared: bool)
    ensures var s := Run(c, actions);
      var large, bad := TooLarge(c, lane, name, bytes, declared), lane == Controls && BadName(name);
      var r := Refuses(s, c, lane, owner, name, bytes, declared);
      && (r == Some(RequestTooLarge) <==> large)
      && (r == Some(ValidationError) <==> bad)
      && (r == Some(OwnerRequired) <==> !large && !bad && owner in {None, Some("")})
      && (r == Some(BeforeDispatch) <==> !large && !bad && owner !in {None, Some("")} && IsFull(s, c, lane))
  {
    EveryRunKeepsInv(c, actions);
  }

  /** A refused request changes nothing; any other becomes a new one with a permit and
      without a quota, and nothing else of the requests changes. */
  lemma AdmittedExactly(c: Config, actions: seq<Action>, lane: Lane, owner: Option<string>, name: string,
                        bytes: nat, declared: bool)
    ensures var s, a := Run(c, actions), Enter(lane, owner, name, bytes, declared);
      var s' := Run(c, actions + [a]);
      var policy := if declared && lane == Calls then Some(c.policies(name)) else None;
      if Refuses(s, c, lane, owner, name, bytes, declared).Some? then s' == s
      else
        && owner.Some? && s.next !in s.tickets
        && s'.tickets == s.tickets[s.next :=
             Ticket(lane, owner.value, name, policy, Caller, NotStarted, Idle, NoQuota, Absent, false)]
  {
    RunSnoc(c, actions, Enter(lane, owner, name, bytes, declared));
    EveryRunKeepsInv(c, actions);
  }

  /** A declared call that has its permit. */
  predicate AsksForQuota(k: Ticket) {
    k.lane == Calls && k.policy.Some? && k.holder == Caller && k.quota == NoQuota
  }

  /** Fewer requests hold a quota, for the owner and for the method, than the policy allows. */
  predicate MayHold(s: State, k: Ticket)
    requires k.policy.Some?
  {
    && |set u | u in s.tickets && s.tickets[u].quota == Live && s.tickets[u].owner == k.owner|
         < k.policy.value.maxOwnerInFlight
    && |set u | u in s.tickets && s.tickets[u].quota == Live && s.tickets[u].name == k.name|
         < k.policy.value.maxInFlight
  }

  /** Its quota is taken exactly when there is room by both limits; otherwise the request
      is refused and let go.  No other request changes. */
  lemma QuotaTakenExactly(c: Config, actions: seq<Action>, t: nat)
    requires t in Run(c, actions).tickets && AsksForQuota(Run(c, actions).tickets[t])
    ensures var s := Run(c, actions);
      var k, s' := s.tickets[t], Run(c, actions + [TakeQuota(t)]);
      s'.tickets == s.tickets[t := if MayHold(s, k) then k.(quota := Live) else k.(holder := Dropping)]
  {
    RunSnoc(c, actions, TakeQuota(t));
    EveryRunKeepsInv(c, actions);
    RoomIsCounted(Run(c, actions), Run(c, actions).tickets[t]);
  }

  lemma RoomIsCounted(s: State, k: Ticket)
    requires QuotasCounted(s) && k.policy.Some?
    ensures MayHold(s, k) <==> HasRoom(s, k)
  {
    assert Exact(s.owners, k.owner, OwnerQuotas(s.tickets, k.owner));
    assert Exact(s.methods, k.name, MethodQuotas(s.tickets, k.name));
    assert OwnerQuotas(s.tickets, k.owner)
        == set u | u in s.tickets && s.tickets[u].quota == Live && s.tickets[u].owner == k.owner;
    assert MethodQuotas(s.tickets, k.name)
        == set u | u in s.tickets && s.tickets[u].quota == Live && s.tickets[u].name == k.name;
  }

  /** An undeclared request has no handler at any time; running it lets it go. */
  lemma UndeclaredIsNeverRun(c: Config, actions: seq<Action>, t: nat)
    requires t in Run(c, actions).tickets && Run(c, actions).tickets[t].policy.None?
    ensures Run(c, actions).tickets[t].handler == NotStarted
    ensures t in Run(c, actions + [StartRun(t)]).tickets && Run(c, actions + [StartRun(t)]).tickets[t].holder != Caller
  {
    EveryRunKeepsInv(c, actions);
    assert Consistent(c, Run(c, actions).tickets[t]);
    RunSnoc(c, actions, StartRun(t));
  }

  // ----- How a request moves -----

  /** The handler of t after an action. */
  function HandlerAfter(k: Ticket, a: Action, t: nat): Handler {
    if a == StartRun(t) && k.holder == Caller && k.policy.Some? && k.quota == Live then Active
    else if a == Complete(t) && k.handler == Active then Completed
    else if a == Panic(t) && k.handler == Active then Panicked
    else if a == AbortTakesEffect(t) && k.handler == Active && k.aborted then Dropped
    else k.handler
  }

  function EncodingAfter(k: Ticket, a: Action, t: nat): Encoding {
    if a == Complete(t) && k.handler == Active then Busy
    else if a == StopEncoding(t) && k.encoding == Busy then Stopped
    else k.encoding
  }

  function WaiterAfter(k: Ticket, a: Action, t: nat): Waiter {
    if a == StartRun(t) && k.holder == Caller && k.policy.Some? && k.quota == Live then Waiting
    else if a == LoseWaiter(t) && k.waiter == Waiting then Lost
    else if a == Answer(t) && k.waiter == Waiting && k.holder == Nobody then Answered
    else k.waiter
  }

  /** The handler, the encoder and the waiter of a request each move by their own actions
      only: a handler starts with a quota and ends by completing, by panicking, or by the
      abort of its read; what it gives is encoded; the waiter is answered once all is let
      go, or lost. */
  lemma MovesExactly(c: Config, actions: seq<Action>, a: Action, t: nat)
    requires t in Run(c, actions).tickets
    ensures t in Run(c, actions + [a]).tickets
    ensures var k, k' := Run(c, actions).tickets[t], Run(c, actions + [a]).tickets[t];
      && k'.handler == HandlerAfter(k, a, t) && k'.encoding == EncodingAfter(k, a, t)
      && k'.waiter == WaiterAfter(k, a, t)
  {
    var s := Run(c, actions);
    RunSnoc(c, actions, a);
    EveryRunKeepsInv(c, actions);
    assert Consistent(c, s.tickets[t]) && t < s.next;
    TicketAfter(s, c, a, t);
    if !a.Enter? && a.t == t {
      NextMoves(c, s.tickets[t], a, HasRoom(s, s.tickets[t]));
    }
  }

  lemma NextMoves(c: Config, k: Ticket, a: Action, room: bool)
    requires !a.Enter? && Consistent(c, k)
    ensures var k' := NextTicket(k, a, room);
      && k'.handler == HandlerAfter(k, a, a.t) && k'.encoding == EncodingAfter(k, a, a.t)
      && k'.waiter == WaiterAfter(k, a, a.t)
  {
  }

  /** Whose reply was lost is aborted exactly when it only reads. */
  predicate ReadsAbandoned(k: Ticket) {
    k.aborted <==> k.waiter == Lost && k.policy.Some? && k.policy.value.mode == Read
  }

  lemma {:induction false} AbortedExactly(c: Config, actions: seq<Action>, t: nat)
    requires t in Run(c, actions).tickets
    ensures ReadsAbandoned(Run(c, actions).tickets[t])
  {
    var front, a := actions[..|actions| - 1], actions[|actions| - 1];
    var s := Run(c, front);
    EveryRunKeepsInv(c, front);
    if t in s.tickets {
      AbortedExactly(c, front, t);
      assert Consistent(c, s.tickets[t]) && t < s.next;
      TicketAfter(s, c, a, t);
      if !a.Enter? && a.t == t {
        NextAbandons(c, s.tickets[t], a, HasRoom(s, s.tickets[t]));
      }
    }
  }

  lemma NextAbandons(c: Config, k: Ticket, a: Action, room: bool)
    requires !a.Enter? && Consistent(c, k) && ReadsAbandoned(k)
    ensures ReadsAbandoned(NextTicket(k, a, room))
  {
  }

  // ----- The service can come to rest -----

  function Steps(c: Config): (State, Action) -> State {
    (s, a) => Step(s, c, a)
  }

  lemma {:induction false} RunOnRun(c: Config, actions: seq<Action>, more: seq<Action>)
    ensures Run(c, actions + more) == RunOn(Steps(c), Run(c, actions), more)
  {
    if more == [] {
      assert actions + more == actions;
    } else {
      var front := more[..|more| - 1];
      RunOnRun(c, actions, front);
      RunSnoc(c, actions + front, more[|more| - 1]);
      assert actions + more == actions + front + [more[|more| - 1]];
    }
  }

  function StepsLeft(k: Ticket): nat {
    match k.holder
    case Caller => 4
    case Task => 4
    case Encoder => 3
    case Dropping => if k.quota == Live then 2 else 1
    case Nobody => 0
  }

  /** What lets go of a request next. */
  function LetGo(k: Ticket, t: nat): Action {
    match k.holder
    case Task => Panic(t)
    case Encoder => StopEncoding(t)
    case Dropping => if k.quota == Live then ReleaseQuota(t) else ReleasePermit(t)
    case _ => DropHeld(t)
  }

  lemma LettingGo(k: Ticket, t: nat, room: bool)
    requires k.holder != Nobody
    ensures !LetGo(k, t).Enter? && LetGo(k, t).t == t
    ensures StepsLeft(NextTicket(k, LetGo(k, t), room)) < StepsLeft(k)
  {
  }

  ghost predicate OnlyTicket(s: State, s': State, t: nat) {
    t in s.tickets && t in s'.tickets && s'.tickets == s.tickets[t := s'.tickets[t]]
  }

  lemma LetsGo(c: Config, s: State, t: nat) returns (s': State)
    requires Inv(s, c) && t in s.tickets && s.tickets[t].holder != Nobody
    ensures Inv(s', c) && LeadsTo(Steps(c), s, s') && OnlyTicket(s, s', t)
    ensures StepsLeft(s'.tickets[t]) < StepsLeft(s.tickets[t])
  {
    var a := LetGo(s.tickets[t], t);
    LettingGo(s.tickets[t], t, HasRoom(s, s.tickets[t]));
    StepKeeps(s, c, a);
    s' := Step(s, c, a);
    StepLeads(Steps(c), s, a);
    assert Steps(c)(s, a) == s';
  }

  lemma {:induction false} RequestCanEnd(c: Config, s: State, t: nat) returns (s': State)
    requires Inv(s, c) && t in s.tickets
    ensures Inv(s', c) && LeadsTo(Steps(c), s, s') && OnlyTicket(s, s', t) && s'.tickets[t].holder == Nobody
    decreases StepsLeft(s.tickets[t])
  {
    if s.tickets[t].holder == Nobody {
      s' := s;
      LeadsNowhere(Steps(c), s);
      assert s.tickets == s.tickets[t := s.tickets[t]];
    } else {
      var s1 := LetsGo(c, s, t);
      s' := RequestCanEnd(c, s1, t);
      LeadsJoin(Steps(c), s, s1, s');
    }
  }

  function Unfinished(s: State): set<nat> {
    set t | t in s.tickets && s.tickets[t].holder != Nobody
  }

  lemma {:induction false} AllCanEnd(c: Config, s: State) returns (s': State)
    requires Inv(s, c)
    ensures LeadsTo(Steps(c), s, s') && Unfinished(s') == {}
    decreases |Unfinished(s)|
  {
    if t :| t in Unfinished(s) {
      var s1 := RequestCanEnd(c, s, t);
      OneLess(s, s1, t);
      s' := AllCanEnd(c, s1);
      LeadsJoin(Steps(c), s, s1, s');
    } else {
      s' := s;
      LeadsNowhere(Steps(c), s);
    }
  }

  lemma OneLess(s: State, s': State, t: nat)
    requires OnlyTicket(s, s', t) && t in Unfinished(s) && s'.tickets[t].holder == Nobody
    ensures |Unfinished(s')| < |Unfinished(s)|
  {
    assert Unfinished(s') == Unfinished(s) - {t};
  }

  /** Wherever a run stands, every request can still end, and then every permit is back
      and no count is left. */
  lemma ServiceCanGoIdle(c: Config, actions: seq<Action>) returns (more: seq<Action>)
    ensures var s := Run(c, actions + more);
      && (forall t :: t in s.tickets ==> s.tickets[t].holder == Nobody)
      && s.calls == c.calls && s.controls == c.controls && s.owners == map[] && s.methods == map[]
  {
    var s := Run(c, actions);
    EveryRunKeepsInv(c, actions);
    var s' := AllCanEnd(c, s);
    more :| RunOn(Steps(c), s, more) == s';
    RunOnRun(c, actions, more);
    assert forall t :: t in s'.tickets ==> t !in Unfinished(s') ==> s'.tickets[t].holder == Nobody;
    QuietServiceIsIdle(c, actions + more);
  }
}
