# Shelllist daemon framework: a verified model

The framework gives desktop daemons their shared parts: a JSONL front end over stdio and sockets, an output actor that
correlates responses with events, admission of requests and owned tasks, lanes for blocking work, owner monitoring on
D-Bus, and a few tools around it (lock pruning, path resolution, watch planning, presentation rounding, workspace
selectors). This project models the parts whose correctness lies in state and in interleavings, and proves what they
promise.

Two forms of model are used. Objects that one task updates in place are classes whose methods are proved against
functions on values (`OutputActor` against `OutputCorrelation`, `JsonlInput.Frames` against `FramesOf`,
`RecentResults` against a plain history of records, and so on). Protocols between several tasks are step systems: an
action is what one task does between two awaits, or under one lock; every sequence of actions is a run, and an
invariant is proved for every run. Where a step system also has code under a lock (`TaskRegistry`,
`ServiceAdmission.Usage`), that code is a class as well.

Each operation is pinned from outside as well: lemmas over every run say what a command, a step or a term does without
naming the function that computes it. They are in `OutputLaws`, `SessionLaws`, `AdmissionLaws`, `LaneLaws` and
`SelectorLaws`, and beside the operations where those are few.

Files: `OutputTrace`, `OutputCorrelation`, `OutputLines`, `OutputActor`, `OutputLaws` (output actor); `JsonlInput`
(framing); `LockFollows`, `LockPrune` (flake locks); `SocketSession`, `SessionLaws`, `ServiceAdmission`,
`AdmissionLaws`, `TaskRegistry`, `BlockingLane`, `LaneLaws`, `OwnerLoss` (lifetime protocols); `Operations`,
`RecentResults` (tables they rest on); `Decimal`, `SnapshotPaths`, `WatchPlan`, `WatchBudget`, `SelectorText`,
`WorkArea`, `SelectorLaws`; `Sorting`, `Reach`, `Common` (orders, runs from a state, shared types and set sizes).

What stands in for the outside world:

- Payloads are opaque values; the correlation policy, and the subscription an event names, are arbitrary functions of
  them.
- UTF-8 validity, the outcome of a monitor selector, a method's declared policy, the links of a file system and its
  directory listings are arbitrary functions. A formatter is any function that rounds to nearest.
- Time is an integer that does not go back between records; deadlines and failures are steps that may happen at any
  moment.
- Machine integers are unbounded, except where width is the point: `Decimal` bounds every intermediate value, and the
  selectors parse 64-bit and 32-bit integers.

## Where the code falls short of a naive statement

Each of these properties fails for some inputs; the exact condition is proved, and an input or a run is given.

- `fixed_decimal` rounds half away from zero every non-tie, and a tie exactly when its unit in the last place is below
  one at the printed scale (`FixedDecimalRounds`; `OvershootsAboveTwo52`). It agrees with toFixed exactly when besides
  the value is below 10^21 (`FixedDecimalIsToFixed`; `DigitsFromTenTo21`).
- The activity count of a blocking lane exceeds its concurrency exactly while the finished jobs still counted outnumber
  the permits not spent on a counted job (`CountIsExact`; `CountMayExceedConcurrency`). Executing jobs never exceed it.
- An all-clear report of a lane's shutdown is final exactly when the dispatcher has no job in hand or in sight
  (`ZeroIsFinal`). For the caller that took the dispatcher's handle it always is (`TakersReportIsFinal`); for another,
  concurrent caller it may not be (`SecondReportMayBeFalse`).
- The watch planner's budget is wrong, for some order of directory entries and some limit, exactly when a later
  recursive root queues an earlier root again and all at or below that one is planned already (`NeverWrongExactly`;
  `FittingPlanRefused`).
- A wait for the loss of an owner misses none exactly for unique names (`NoLossMissedExactly`; `OtherNamesMaySleep`), and
  its success always means gone exactly for unique names already in use (`SuccessIsTrueExactly`; `LostThenOwned`).

## Model

| member | source | states |
|---|---|---|
| OutputActor.OutputState.TakePending | crates/shelllist-daemon-tokio/src/output_actor.rs:211-217 | splits the buffer by id, keeping the order of both halves and nothing else changed |
| OutputActor.OutputState.Suppress | crates/shelllist-daemon-tokio/src/output_actor.rs:219-229 | a fresh id enters the tombstone list and may evict the oldest; an id already there keeps its place |
| OutputActor.OutputState.Cancelled | crates/shelllist-daemon-tokio/src/output_actor.rs:231-236 | removes the id everywhere, drops its buffered events, lays a tombstone, writes nothing |
| OutputActor.OutputState.QueryIds | crates/shelllist-daemon-tokio/src/output_actor.rs:238-254 | exactly the active ids, sorted, or exactly those routed to one consumer and generation |
| OutputActor.OutputState.EventMessage | crates/shelllist-daemon-tokio/src/output_actor.rs:256-268 | the event line carries the route its subscription had before a terminal event ended it |
| OutputActor.OutputState.AcceptEvent | crates/shelllist-daemon-tokio/src/output_actor.rs:184-198 | drop, hold or deliver, and the one failure; whole new state |
| OutputActor.OutputState.Buffer | crates/shelllist-daemon-tokio/src/output_actor.rs:200-209 | appends or reports that the buffer is full, never evicts |
| OutputActor.OutputState.Activate | crates/shelllist-daemon-tokio/src/output_actor.rs:164-182 | a response makes its id active, keeps an acknowledged route, and hands out the held events |
| OutputActor.OutputState.ResetCorrelation | crates/shelllist-daemon-tokio/src/output_actor.rs:270-275 | empties all four collections; each held event is accounted as dropped by reset |
| OutputActor.OutputState.EmitResponse | crates/shelllist-daemon-tokio/src/output_actor.rs:389-420 | cancellation, acknowledgement, response line, then replay, with the lines written in that order; a failing writer cuts them short |
| OutputActor.OutputState.EmitCommand | crates/shelllist-daemon-tokio/src/output_actor.rs:325-387 | one command takes the state and the lines written where the specification says, and answers a query of ids |
| OutputActor.OutputState.RunOutputActor | crates/shelllist-daemon-tokio/src/output_actor.rs:304-323 | the loop realizes the specified run of any command sequence and stops at its first failure; with a writer that fails, what was written is all it took, a proper start of the lines due |
| OutputLines.RunGrows | crates/shelllist-daemon-tokio/src/output_actor.rs:314-322 | later commands only add to the history, so nothing written is ever taken back |
| OutputActor.StoppedStays | crates/shelllist-daemon-tokio/src/output_actor.rs:314-322 | commands after the failing one have no effect |
| OutputCorrelation.RunKeeps | crates/shelllist-daemon-tokio/src/output_actor.rs:141-150 | after every command sequence active, suppressed and pending ids are disjoint, the tombstone list enumerates the suppressed ids once each, both queues are within the limit, and the history is legal |
| OutputCorrelation.RetireKeeps | crates/shelllist-daemon-tokio/src/output_actor.rs:219-236 | cancelling keeps the invariant, also in the middle of a replay |
| OutputCorrelation.ReplayKeeps | crates/shelllist-daemon-tokio/src/output_actor.rs:412-419 | replay after an acknowledgement never meets a full buffer, even when an early event is terminal |
| OutputCorrelation.TerminalEventEndsItsId | crates/shelllist-daemon-tokio/src/output_actor.rs:256-266 | a delivered terminal event leaves its id inactive, with nothing pending, and freshly suppressed |
| OutputCorrelation.EveryEventAccountedFor | crates/shelllist-daemon-tokio/src/output_actor.rs:184-217 | each event received is exactly one of written, dropped (by suppression, cancellation or reset), the one that ended the actor, or still pending |
| OutputCorrelation.EventsWrittenInOrder | crates/shelllist-daemon-tokio/src/output_actor.rs:363-372 | the event lines of an id are an in-order, duplicate-free subsequence of the events received for it, contents included |
| OutputCorrelation.EventsFollowAcknowledgement | crates/shelllist-daemon-tokio/src/output_actor.rs:401-420 | every event line of an id follows a response line that acknowledged it, with no cancellation, terminal event or reset in between |
| OutputCorrelation.SuppressedEventsStaySuppressed | crates/shelllist-daemon-tokio/src/output_actor.rs:219-236 | after an active id is retired, no event of it is written again until a reset, or until as many distinct other ids as the limit were freshly suppressed and a later response re-activated it |
| OutputCorrelation.StopsOnlyWhenFull | crates/shelllist-daemon-tokio/src/output_actor.rs:363-373 | but for its writer, an actor stops early only at an event that found the buffer full, after writing the transport error |
| OutputLaws.CancellationEnds | crates/shelllist-daemon-tokio/src/output_actor.rs:231-236 | a cancel command retires its id at that place in the history: it is then neither active nor pending, and suppressed when the limit is positive; nothing is written, and other ids do not notice |
| OutputLaws.ResponseMeans | crates/shelllist-daemon-tokio/src/output_actor.rs:389-420 | a response first retires the id it cancels, then writes one line with its own id and result; an id it names that is not suppressed is then active with the given or the held route, and the events held for it follow; other ids do not notice |
| OutputLaws.EventMeans | crates/shelllist-daemon-tokio/src/output_actor.rs:363-373 | an event is written at once when it names no id or an active one, with its route, and a terminal one ends its id; it is dropped when its id is suppressed; else it is held, or ends the actor when the buffer is full |
| OutputLaws.ResetMeans | crates/shelllist-daemon-tokio/src/output_actor.rs:270-275 | a reset leaves nothing active, pending or suppressed, and writes nothing |
| OutputLaws.PlainMeans | crates/shelllist-daemon-tokio/src/output_actor.rs:334-386 | errors and the end of a connection write their one line, a query none, and none touches correlation |
| OutputLaws.EntriesOfCommand | crates/shelllist-daemon-tokio/src/output_actor.rs:325-387 | every entry of the history belongs to one command and is one that command can lay: an acknowledgement or a cancellation only of ids the command names |
| OutputLaws.CancelledStaysSilent | crates/shelllist-daemon-tokio/src/output_actor.rs:219-236 | counted from the command that cancels an active id: an event of it is written again only after a later response naming it, with as many distinct other ids as the limit freshly suppressed between, a reset aside |
| OutputTrace.LiveWasAcknowledged | crates/shelllist-daemon-tokio/src/output_actor.rs:164-182 | an id that is live in a history was acknowledged in it and not disturbed since |
| OutputTrace.LiveIsNotBuried | crates/shelllist-daemon-tokio/src/output_actor.rs:219-236 | a live id has no tombstone, so retiring it is always a fresh suppression |
| OutputTrace.TombstoneStays | crates/shelllist-daemon-tokio/src/output_actor.rs:219-229 | a fresh tombstone stays until the limit's worth of other ids has been buried after it |
| JsonlInput.RecordsComeBack | crates/shelllist-daemon-tokio/src/jsonl_input.rs:28-72 | records joined by LF or CRLF in any mixture are recovered exactly, and a final unterminated record has its frame as it is |
| JsonlInput.FramesAreOfRecords | crates/shelllist-daemon-tokio/src/jsonl_input.rs:28-72 | on every stream: one frame for each record; too large exactly when the record, less one CR before a LF, is longer than the maximum, invalid exactly when it fits and is not UTF-8, else itself; without a final LF every byte counts, a CR included |
| JsonlInput.EveryStreamIsRecords | crates/shelllist-daemon-tokio/src/jsonl_input.rs:36-47 | every byte stream is such a list of records |
| JsonlInput.FirstRecord | crates/shelllist-daemon-tokio/src/jsonl_input.rs:36-47 | the first frame of a stream is that of its first record, the rest those of the rest |
| JsonlInput.Frames.Next | crates/shelllist-daemon-tokio/src/jsonl_input.rs:28-51 | returns the next frame of the byte stream however it is chunked; an abandoned call loses nothing; ends only at the end |
| JsonlInput.Frames.Finish | crates/shelllist-daemon-tokio/src/jsonl_input.rs:53-72 | decodes the whole record: one CR stripped before LF only, too large by its body, or invalid |
| JsonlInput.Frames.ExtendBounded | crates/shelllist-daemon-tokio/src/jsonl_input.rs:77-89 | appends exactly when the result fits; contents and capacity never pass the ceiling; on overflow nothing is kept |
| JsonlInput.ReadAll | crates/shelllist-daemon-tokio/src/jsonl_input.rs:28-72 | polling to the end gives the frames of the whole stream, whatever the chunks and interruptions |
| LockFollows.ResolveLink | crates/shelllist-local-build/src/lock.rs:65-89 | pushes and pops the trail in place and returns the specified result; success restores the trail |
| LockFollows.AnswerIsMeaning | crates/shelllist-local-build/src/lock.rs:65-89 | an answer under any trail is the answer of unchecked resolution |
| LockFollows.CycleDiverges | crates/shelllist-local-build/src/lock.rs:75-76 | a reported cycle means that unchecked resolution never ends |
| LockFollows.ResolveIsExact | crates/shelllist-local-build/src/lock.rs:65-89 | on every lock: a name exactly when the link means it, an error exactly when resolution gets stuck with it, a cycle exactly when it never ends |
| LockFollows.FollowsCompose | crates/shelllist-local-build/src/lock.rs:74-88 | a name is itself, the empty path the root, and a path with one more part resolves to b exactly when the input of that name, of the node the shorter path resolves to, does |
| LockFollows.FollowsFail | crates/shelllist-local-build/src/lock.rs:74-88 | which error: a reference or a part of another kind, a missing input with its node and name; and an error other than a cycle stays when the path goes on |
| LockPrune.ReachableNodes | crates/shelllist-local-build/src/lock.rs:43-60 | exactly the nodes reachable from root over resolved edges, and fails exactly when one of them is missing or has an unresolvable input |
| LockPrune.PruneLock | crates/shelllist-local-build/src/lock.rs:25-63 | succeeds exactly when everything the root reaches without its named inputs is there and resolves; in the result no named input of the root is left, every other input and every other node is as it was, and a node is there exactly when it is still reached; every error is explained |
| LockPrune.PrunableMeans | crates/shelllist-local-build/src/lock.rs:40-60 | the condition of success, told of the nodes of the lock with the named inputs of its root gone and nothing else changed |
| LockPrune.PrunedMeans | crates/shelllist-local-build/src/lock.rs:40-62 | the result, told of the lock given: the root without the named inputs and else the same, every other kept node the same, kept exactly when reached |
| LockPrune.ResolutionKept | crates/shelllist-local-build/src/lock.rs:61 | any link resolves to a name after deletion exactly when it did before: all follows intermediates survive |
| LockPrune.PruningKeepsMeaning | crates/shelllist-local-build/src/lock.rs:23-24 | every input of a kept node resolves to the same kept node before and after |
| LockPrune.KeptReaches | crates/shelllist-local-build/src/lock.rs:43-61 | reachability is the same before and after deletion |
| LockPrune.PruningAgainChangesNothing | crates/shelllist-local-build/src/lock.rs:25-63 | pruning a pruned lock succeeds and changes nothing |
| SocketSession.EveryRunKeepsInv | crates/shelllist-daemon-tokio/src/socket.rs:240-342 | in every interleaving each resource is still the duty of its connection's cleanup or of its creator's late cleanup, and cleanups are owner-scoped |
| SocketSession.NothingOutlivesASession | crates/shelllist-daemon-tokio/src/socket.rs:301-342 | once a connection's cleanup has returned and its accepted work is over, no resource of that owner is left, and none ever will be |
| SocketSession.OnlyClosedSessionsLoseResources | crates/shelllist-daemon-tokio/src/socket.rs:36-40 | a resource disappears only by its own end or because its own session was closed |
| SocketSession.WorkIsBounded | crates/shelllist-daemon-tokio/src/socket.rs:291-306 | work in progress is exactly the slots taken, per connection and kind; deadlines and lost replies free none |
| SocketSession.RepliesAreTrue | crates/shelllist-daemon-tokio/src/socket.rs:307-314 | success is reported only for work that is done and succeeded; a control request of unknown outcome has closed its session |
| SessionLaws.ClosedExactlyBy | crates/shelllist-daemon-tokio/src/socket.rs:307-333 | over every run: an open session is closed by an action exactly when that closes it, ends its reading or drops its connection, or loses the reply of control work of its own; and it stays closed |
| SessionLaws.LostReplyLeavesWork | crates/shelllist-daemon-tokio/src/socket.rs:293-313 | a lost reply changes its waiter alone, but for closing the session of a control request: the work, its slot and its resources go on |
| SessionLaws.AbortLeavesSpawnedWork | crates/shelllist-daemon-tokio/src/socket.rs:333-334 | the waiters of an ended connection are aborted: that ends only work not yet spawned; spawned work and what it made go on |
| SessionLaws.WaitersEndExactly | crates/shelllist-daemon-tokio/src/socket.rs:307-314 | a waiter is answered exactly for work that is done and succeeded, told unknown exactly by a deadline or a failure, and aborted only after its connection ended |
| SessionLaws.StartsExactlyWhileOpen | crates/shelllist-daemon-tokio/src/socket.rs:359 | work enters the service exactly by its own dispatch while its session is open |
| SessionLaws.AcceptedExactly | crates/shelllist-daemon-tokio/src/socket.rs:290-320 | a request is accepted exactly while its session reads and fewer of its kind are in progress than the maximum, or than 16 controls; a refusal changes nothing |
| SessionLaws.ResourcesComeExactly | crates/shelllist-daemon-tokio/src/socket.rs:293-306 | a resource comes exactly from work inside the service, and belongs to its owner |
| SessionLaws.ConnectedExactly | crates/shelllist-daemon-tokio/src/socket.rs:240-267 | a new session is open and reads, with all its slots free |
| SessionLaws.ExpiredExactly | crates/shelllist-daemon-tokio/src/socket.rs:30-40 | a resource that ends by itself is gone, and nothing else is |
| SessionLaws.SuccessIsTheServices | crates/shelllist-daemon-tokio/src/socket.rs:303-309 | work has succeeded exactly when the service itself ended it well while running it |
| SessionLaws.CleanupBeginsExactly | crates/shelllist-daemon-tokio/src/socket.rs:333-335 | the cleanup of a connection begins exactly once its waiters are joined, or it was dropped |
| SessionLaws.WaitersEndFirst | crates/shelllist-daemon-tokio/src/socket.rs:333-335 | joined means that no waiter of the session is left waiting |
| SessionLaws.EverySessionCanEnd | crates/shelllist-daemon-tokio/src/socket.rs:293-342 | from every reachable state every session can end, with all its work and nothing of its own left |
| ServiceAdmission.Usage.Take | crates/shelllist-daemon-tokio/src/service.rs:104-119 | takes one quota of both keys exactly when neither is at its limit |
| ServiceAdmission.Usage.Release | crates/shelllist-daemon-tokio/src/service.rs:162-176 | gives one back of each, with no zero entry left, given that both counts are positive |
| ServiceAdmission.EveryRunKeepsInv | crates/shelllist-daemon-tokio/src/service.rs:59-123 | in every run permits are conserved, each owner and method count equals the live quotas with that key, and no entry is zero |
| ServiceAdmission.LiveIsCounted | crates/shelllist-daemon-tokio/src/service.rs:164-174 | a live quota is counted under both keys, so its release never underflows |
| ServiceAdmission.TotalsAreLiveQuotas | crates/shelllist-daemon-tokio/src/service.rs:104-119 | both totals equal the number of live quotas, which is at most the call permits taken |
| ServiceAdmission.ReleasedOnlyWhenDone | crates/shelllist-daemon-tokio/src/service.rs:195-222 | capacity is back only when the encoder has stopped and the handler is over, and only a read's handler may have been dropped |
| ServiceAdmission.EffectsOutliveTheirWaiters | crates/shelllist-daemon-tokio/src/service.rs:211-235 | whatever happens to the waiter of an effect or an operation, and whenever: but for the waiter itself, the run is the one in which nothing happens to it |
| ServiceAdmission.CapacityIsHeldWhileAtWork | crates/shelllist-daemon-tokio/src/service.rs:195-222 | the handler of an effect or operation stops only by its own completion or panic, and any encoder only by itself; until then the request keeps its permit and its quota, through every other step |
| ServiceAdmission.ReleasedForGood | crates/shelllist-daemon-tokio/src/service.rs:162-176 | nothing is released twice or revived |
| ServiceAdmission.QuietServiceIsIdle | crates/shelllist-daemon-tokio/src/service.rs:157-184 | when every request has been let go, all permits are back and both tables are empty |
| AdmissionLaws.RefusedExactly | crates/shelllist-daemon-tokio/src/service.rs:59-66 | which refusal and when: too large, a bad identifier of a control, no owner, no permit left, in that order; each an equivalence |
| AdmissionLaws.AdmittedExactly | crates/shelllist-daemon-tokio/src/service.rs:126-154 | a refused request changes nothing, any other holds a permit of its lane and no quota yet |
| AdmissionLaws.QuotaTakenExactly | crates/shelllist-daemon-tokio/src/service.rs:104-119 | a quota is taken exactly when fewer live requests of the owner and of the method hold one than the policy allows; otherwise the request is let go |
| AdmissionLaws.UndeclaredIsNeverRun | crates/shelllist-daemon-tokio/src/service.rs:203-209 | a request without a declared policy never has a handler, and running it lets it go |
| AdmissionLaws.MovesExactly | crates/shelllist-daemon-tokio/src/service.rs:198-235 | when a handler starts, completes, panics or is dropped, when encoding is busy and stops, when a waiter is answered or lost |
| AdmissionLaws.AbortedExactly | crates/shelllist-daemon-tokio/src/service.rs:221-222 | a request is aborted exactly when its waiter is lost and it only reads |
| AdmissionLaws.ServiceCanGoIdle | crates/shelllist-daemon-tokio/src/service.rs:157-184 | from every reachable state all requests can end, and then every permit is back and no count is left |
| TaskRegistry.EveryRunKeepsInv | crates/shelllist-daemon-tokio/src/subscription.rs:150-203 | in every interleaving limits hold, every entry has its one worker, each generation is claimed once or still registered, and a worker not gone has been aborted exactly when it is no longer registered |
| TaskRegistry.EndedWorkersLeaveNoEntry | crates/shelllist-daemon-tokio/src/subscription.rs:79-92 | a worker that is gone has no entry and was claimed exactly once |
| TaskRegistry.OldCleanupSparesReusedId | crates/shelllist-daemon-tokio/src/subscription.rs:83-89 | cleanup of an old generation never touches the entry of a reused id or its worker |
| TaskRegistry.OnlyTheOwnerCancels | crates/shelllist-daemon-tokio/src/subscription.rs:183-189 | an entry goes only by its owner's cancellation, its own worker's cleanup, or shutdown |
| TaskRegistry.ShutdownIsFinal | crates/shelllist-daemon-tokio/src/subscription.rs:191-203 | after shutdown the registry stays closed and empty, whatever follows |
| TaskRegistry.OwnedTaskRegistry.SpawnUntil | crates/shelllist-daemon-tokio/src/subscription.rs:150-181 | the code under the lock takes the spawn step, with the specified result |
| TaskRegistry.OwnedTaskRegistry.CancelOwned | crates/shelllist-daemon-tokio/src/subscription.rs:183-189 | takes the cancellation step, and reports whether the id was that owner's |
| TaskRegistry.CancelsExactly | crates/shelllist-daemon-tokio/src/subscription.rs:183-189 | the owner's cancellation removes the entry and aborts its worker, any other changes nothing; no other entry or worker is touched |
| TaskRegistry.SpawnsExactly | crates/shelllist-daemon-tokio/src/subscription.rs:150-181 | a spawn is refused as closed, duplicate or full exactly when it should be, in that order; otherwise one new entry and one new waiting worker |
| TaskRegistry.WaitingWorkersCanRun | crates/shelllist-daemon-tokio/src/subscription.rs:167-175 | a worker that waits can come to run |
| TaskRegistry.OnlyUnregisteredWorkersOutlive | crates/shelllist-daemon-tokio/src/subscription.rs:191-203 | once shutdown has joined what it drained, the only workers left were there before it, no longer registered, and aborted |
| TaskRegistry.DrainedWorkersCanEnd | crates/shelllist-daemon-tokio/src/subscription.rs:202 | from every state a worker that is joined reaches its end by two steps of its own |
| TaskRegistry.OwnedTaskRegistry.Shutdown | crates/shelllist-daemon-tokio/src/subscription.rs:192-201 | closes, claims and aborts every entry in one step, and returns the workers to join |
| TaskRegistry.OwnedTaskRegistry.DropRegistration | crates/shelllist-daemon-tokio/src/subscription.rs:79-92 | takes the cleanup step of its own generation |
| Operations.OwnedOperations.Admit | crates/shelllist-daemon-core/src/operation.rs:46-59 | full exactly when the total or the owner's count has reached its limit |
| Operations.OwnedOperations.InsertWith | crates/shelllist-daemon-core/src/operation.rs:69-82 | duplicate before full; otherwise inserts exactly the new entry |
| Operations.OwnedOperations.ClaimOwned | crates/shelllist-daemon-core/src/operation.rs:95-98 | removes and returns the entry exactly when it is that owner's |
| Operations.OwnedOperations.Drain | crates/shelllist-daemon-core/src/operation.rs:104-106 | hands out every entry and leaves none |
| Operations.InsertKeepsWithin | crates/shelllist-daemon-core/src/operation.rs:46-82 | an admitted insertion keeps the total and every owner within limits |
| RecentResults.SurvivorsStep | crates/shelllist-daemon-core/src/operation.rs:130-143 | the plain history, one operation at a time: expire, replace, append |
| RecentResults.PrunedLast | crates/shelllist-daemon-core/src/operation.rs:155-163 | cutting at the partition point of a bounded deque keeps it the bounded tail of the history |
| RecentResults.RecordedLast | crates/shelllist-daemon-core/src/operation.rs:130-143 | so does recording; ids stay unique and times sorted |
| RecentResults.LookupAgreesWithHistory | crates/shelllist-daemon-core/src/operation.rs:144-150 | an owned lookup finds a value exactly when some record in the history is the visible one for that id and owner |
| RecentResults.FoundUntilItExpires | crates/shelllist-daemon-core/src/operation.rs:130-163 | a result just recorded is found, by its owner alone, exactly while less than the retention has passed since, or always without one |
| RecentResults.RecentResults.RecordAt | crates/shelllist-daemon-core/src/operation.rs:130-143 | the deque is the last `limit` entries of the latest unexpired records |
| RecentResults.RecentResults.PruneAt | crates/shelllist-daemon-core/src/operation.rs:155-163 | removes exactly the expired entries |
| RecentResults.RecentResults.GetOwned | crates/shelllist-daemon-core/src/operation.rs:144-150 | prunes, then answers as the history does |
| BlockingLane.EveryRunKeepsInv | crates/shelllist-daemon-tokio/src/blocking.rs:197-229 | in every run permits are conserved, the count counts, each job is in one place, and no wakeup is lost |
| BlockingLane.WorkIsBounded | crates/shelllist-daemon-tokio/src/blocking.rs:206-219 | executing jobs are within the concurrency, accepted unfinished jobs within capacity plus concurrency, the count is never negative |
| BlockingLane.CallersLearnTheTruth | crates/shelllist-daemon-tokio/src/blocking.rs:121-134 | a job starts at most once; its caller gets Closed exactly when it was discarded unstarted, anything else only after it ran |
| BlockingLane.ClosedIsFinal | crates/shelllist-daemon-tokio/src/blocking.rs:131-134 | a job whose caller was told Closed never runs later |
| BlockingLane.NothingStartsAfterStop | crates/shelllist-daemon-tokio/src/blocking.rs:139-153 | once the dispatcher has stopped, no job ever runs but those it had already handed to the pool |
| BlockingLane.TakersReportIsFinal | crates/shelllist-daemon-tokio/src/blocking.rs:136-168 | when the caller of shutdown that took the handle reports, the dispatcher has stopped; if it reports no activity, nothing is running, waiting or ever to start |
| BlockingLane.ZeroIsFinal | crates/shelllist-daemon-tokio/src/blocking.rs:154-168 | for any caller of shutdown about to report no activity: no job will ever start again exactly when the dispatcher is not past its last look at the signal with a job in hand or in the queue |
| BlockingLane.OthersReportStopped | crates/shelllist-daemon-tokio/src/blocking.rs:140-153 | one caller at most takes the handle, and every other reports a stopped dispatcher |
| BlockingLane.SecondReportMayBeFalse | crates/shelllist-daemon-tokio/src/blocking.rs:140-168 | in every lane a run in which such another report is all clear while a job is still to start |
| BlockingLane.IdleReportsAreTrue | crates/shelllist-daemon-tokio/src/blocking.rs:171-181 | for any number of waiting callers: an idle check that ends a wait saw a count of zero, and one asleep without a notification still has active work or a notification coming |
| BlockingLane.CountIsExact | crates/shelllist-daemon-tokio/src/blocking.rs:219-224 | in every run the count is the concurrency less the permits not spent on a counted job plus the finished jobs still counted; it exceeds the concurrency exactly when the latter outnumber the former |
| BlockingLane.CountMayExceedConcurrency | crates/shelllist-daemon-tokio/src/blocking.rs:219-224 | in every lane a run in which it does |
| LaneLaws.SubmittedExactly | crates/shelllist-daemon-tokio/src/blocking.rs:98-109 | refused as closed exactly when the lane is closed or its dispatcher has stopped, as full exactly when as many jobs wait as the queue holds; otherwise a new job waits behind the others |
| LaneLaws.NobodyOvertakes | crates/shelllist-daemon-tokio/src/blocking.rs:213-219 | while a job waits, all accepted after it wait |
| LaneLaws.EndsExactly | crates/shelllist-daemon-tokio/src/blocking.rs:136-158 | the lane is closed exactly by a call of shutdown, the dispatcher signalled by one or by the drop of the lane, aborted by one whose join timed out or by that drop, and stops only once signalled |
| LaneLaws.GivingUpMeans | crates/shelllist-daemon-tokio/src/blocking.rs:145-153 | a call reports a dispatcher that had not stopped exactly when its join timed out before it stopped |
| LaneLaws.ReportIsTheCount | crates/shelllist-daemon-tokio/src/blocking.rs:154-168 | the number reported is the activity count the call loaded |
| LaneLaws.ReplyIsTheJobs | crates/shelllist-daemon-tokio/src/blocking.rs:121-134 | a value, or news of a panic, is what the job's own execution ended with |
| LaneLaws.WokenCallersLookAgain | crates/shelllist-daemon-tokio/src/blocking.rs:171-181 | a caller woken by a notification loads the count again, and is done or waits for the next one |
| LaneLaws.AbortEndsTheWait | crates/shelllist-daemon-tokio/src/blocking.rs:150-152 | an aborted dispatcher can end wherever it waits |
| LaneLaws.ShutdownCanReport | crates/shelllist-daemon-tokio/src/blocking.rs:136-168 | from every reachable state every call of shutdown can report though no job takes another step |
| OwnerLoss.EveryRunKeepsInv | crates/shelllist-daemon-tokio/src/owner.rs:32-79 | in every run published and travelling losses are true, and every waiter that trusts its owner still has the loss ahead of it if there is one |
| OwnerLoss.NoLossIsMissed | crates/shelllist-daemon-tokio/src/owner.rs:64-79 | a blocked waiter whose owner is gone has the loss in flight, at or after its cursor (held or lagged), or a stopped monitor |
| OwnerLoss.EveryLossIsHeard | crates/shelllist-daemon-tokio/src/owner.rs:69-78 | from every reachable state such a waiter reaches success by steps that are all the monitor's publishing or its own |
| OwnerLoss.WaitsEndExactly | crates/shelllist-daemon-tokio/src/owner.rs:64-79 | a wait succeeds exactly on news of its own loss, fails exactly when a call fails or it finds the monitor stopped, and an answer is final |
| OwnerLoss.NothingHeldIsSkipped | crates/shelllist-daemon-tokio/src/owner.rs:69-78 | a receive passes over no loss that is held: it reads the next one, or after a lag goes to the oldest one held |
| OwnerLoss.NoLossMissedExactly | crates/shelllist-daemon-tokio/src/owner.rs:46-48 | over all runs no wait ever misses the loss of a name exactly when the name is unique |
| OwnerLoss.LostMeansGone | crates/shelllist-daemon-tokio/src/owner.rs:64-79 | success for a unique name that had been in use means that its owner is gone |
| OwnerLoss.GoneIsFinal | crates/shelllist-daemon-tokio/src/owner.rs:46-48 | a unique name that is gone stays gone |
| OwnerLoss.SuccessIsTrueExactly | crates/shelllist-daemon-tokio/src/owner.rs:64-79 | over all runs success always means that the name has no owner exactly when the name is unique and had been in use when the wait began |
| OwnerLoss.LostThenOwned | crates/shelllist-daemon-tokio/src/owner.rs:66-68 | any name without an owner, unless unique and used up, may be reported lost and then be owned |
| OwnerLoss.OtherNamesAreNeverHeard | crates/shelllist-daemon-tokio/src/owner.rs:46-48 | no message ever tells a waiter of the loss of a name that is not unique |
| OwnerLoss.OtherNamesMaySleep | crates/shelllist-daemon-tokio/src/owner.rs:46-48 | for every name that is not unique a run in which a waiter sleeps with its owner gone and nothing coming |
| Decimal.NumeratorFits | crates/shelllist-daemon-core/src/decimal.rs:12-22 | for up to nine decimals every intermediate value fits the 128-bit type |
| Decimal.TieIsHalfway | crates/shelllist-daemon-core/src/decimal.rs:20-22 | the bit test holds exactly at decimal ties, and shifts of 128 or more hold none |
| Decimal.NextMagnitude | crates/shelllist-daemon-core/src/decimal.rs:23-26 | adding one to the bits of a tie adds one unit in the last place, across binades too |
| Decimal.ClosestUpIsHalfUp | crates/shelllist-daemon-core/src/decimal.rs:1-4 | the closest integer, the larger of two, is the one that rounds half away from zero |
| Decimal.FixedDecimalRounds | crates/shelllist-daemon-core/src/decimal.rs:5-34 | for every finite double and every nearest-rounding formatter, the result is rounded half away from zero exactly when the value is no tie or its unit in the last place is below one at that scale |
| Decimal.FixedDecimalIsToFixed | crates/shelllist-daemon-core/src/decimal.rs:5-34 | it agrees with toFixed, section 21.1.3.3 of ECMA-262, exactly when besides the value is below 10^21 |
| Decimal.RightBelowTwo52 | crates/shelllist-daemon-core/src/decimal.rs:5-34 | so it agrees below 2^52 at the printed scale; at no decimals it rounds half away from zero always and agrees exactly below 10^21 |
| Decimal.OvershootsAboveTwo52 | crates/shelllist-daemon-core/src/decimal.rs:23-26 | 2^50 + 0.25 at one decimal is rounded wrong by every formatter |
| Decimal.DigitsWhereToFixedHasAnExponent | crates/shelllist-daemon-core/src/decimal.rs:30-33 | from 10^21 on the code writes all digits, rightly rounded, where toFixed turns to an exponent |
| Decimal.DigitsFromTenTo21 | crates/shelllist-daemon-core/src/decimal.rs:30-33 | 10^21 is a double and the first one concerned |
| SnapshotPaths.ResolveLinks | crates/shelllist-local-build/src/snapshot.rs:19-47 | the loop over components with its nested calls gives the specified result, for at most 40 nested links |
| SnapshotPaths.ResultsAreClean | crates/shelllist-local-build/src/snapshot.rs:14-18 | a path returned has no dots and no link in any prefix |
| SnapshotPaths.FixedPathsAreClean | crates/shelllist-local-build/src/snapshot.rs:22-45 | resolution leaves a path as it is exactly when it is clean |
| SnapshotPaths.ResolvingAgainChangesNothing | crates/shelllist-local-build/src/snapshot.rs:19-47 | resolving a result gives it back |
| SnapshotPaths.LoopIsAWalk | crates/shelllist-local-build/src/snapshot.rs:22-45 | whatever the loop answers, the component-by-component walk of a file system arrives there too |
| SnapshotPaths.ResolveIsTheWalk | crates/shelllist-local-build/src/snapshot.rs:19-47 | unless it gives up on nesting, the result, path or failure, is the one answer of that walk |
| SnapshotPaths.EnoughDepth | crates/shelllist-local-build/src/snapshot.rs:20 | the walk ends exactly when some bound on nesting is enough |
| SnapshotPaths.MoreDepthChangesNoAnswer | crates/shelllist-local-build/src/snapshot.rs:20 | a larger bound changes no answer |
| SnapshotPaths.ResolveSnoc | crates/shelllist-local-build/src/snapshot.rs:22-45 | what one more component makes of a resolved path: a dot nothing, two dots its parent if it has one, a name itself, a link its target from there or from the root one level deeper; an error stays |
| SnapshotPaths.FortyLinksAreTooMany | crates/shelllist-local-build/src/snapshot.rs:20 | a chain of 39 links is followed to its end, one of 40 or more is refused |
| WatchPlan.QueueDirectories | crates/shelllist-daemon-core/src/watch.rs:72-79 | reads one directory and queues its directories while they fit |
| WatchPlan.BoundedWatchPaths | crates/shelllist-daemon-core/src/watch.rs:57-82 | terminates on any file system; a plan is exactly the roots and the directories below recursive ones, sorted, within the limit, and every directory it had to read was read; a refusal is right when every root that a later one queues again leaves it something to plan; a read error has an unreadable directory behind it |
| WatchBudget.NeverWrongExactly | crates/shelllist-daemon-core/src/watch.rs:72-91 | the budget is never refused wrongly, for any limit, any prefix of the roots and any order of directory entries, exactly under that condition |
| WatchBudget.TrapSprings | crates/shelllist-daemon-core/src/watch.rs:75-77 | where it fails, every way on ends in a refusal though the limit is the size of the plan |
| WatchPlan.ScanIsRight | crates/shelllist-daemon-core/src/watch.rs:64-80 | the same from every settled state of the worklist |
| WatchPlan.PlanFitsOrExceeds | crates/shelllist-daemon-core/src/watch.rs:84-91 | a finite plan exceeds the limit exactly when it has more elements |
| WatchPlan.FittingPlanRefused | crates/shelllist-daemon-core/src/watch.rs:75-77 | two roots whose plan of two paths is refused a limit of two |
| SelectorText.PrintedIntegersComeBack | crates/shelllist-hyprland/src/work_area.rs:275-278 | every 64-bit integer that is printed is parsed back |
| WorkArea.WindowSelector | crates/shelllist-hyprland/src/work_area.rs:250-267 | splits at the longest prefix in which no flag is repeated and tiled excludes floating |
| WorkArea.LongestFlagsAreUnique | crates/shelllist-hyprland/src/work_area.rs:248-267 | there is one such prefix |
| WorkArea.WindowCount | crates/shelllist-hyprland/src/work_area.rs:227-238 | all windows, the matching ones, or the distinct non-empty group lists among them |
| WorkArea.SortGroups | crates/shelllist-hyprland/src/work_area.rs:132-135 | sorts every window's group in place and changes nothing else |
| Sorting.SortSorts | crates/shelllist-hyprland/src/work_area.rs:132-135 | sorting gives an ordered list of the same members |
| Sorting.SortedListsAreUnique | crates/shelllist-hyprland/src/work_area.rs:132-135 | two sorted lists with the same members are equal, so any sort will do |
| WorkArea.GroupsAreCountedOnce | crates/shelllist-hyprland/src/work_area.rs:231-237 | after the sorting, the count with flag g is the number of distinct non-empty groups, whatever the order of their members |
| WorkArea.SelectorsAreConjunctions | crates/shelllist-hyprland/src/work_area.rs:331-354 | a selector printed from any list of clauses, spaced in any way, matches exactly when every clause holds |
| WorkArea.RangeTermMeans | crates/shelllist-hyprland/src/work_area.rs:289-291 | a printed range holds exactly for the ids within it, for none when it starts at zero or is the wrong way round; a number alone is no range |
| WorkArea.WindowTermMeans | crates/shelllist-hyprland/src/work_area.rs:301-306 | flags and bounds written together hold exactly when the count for the flags is within the bounds, which start at one |
| WorkArea.WindowCountMeans | crates/shelllist-hyprland/src/work_area.rs:301-306 | flags and a single count, zero included, hold exactly when the count for the flags is that |
| WorkArea.IdsMatchThemselves | crates/shelllist-hyprland/src/work_area.rs:336-338 | a printed id matches exactly that workspace |
| WorkArea.NamesMatchThemselves | crates/shelllist-hyprland/src/work_area.rs:339-341 | a name selector matches exactly the name without its final spaces |
| SelectorLaws.CountMeans | crates/shelllist-hyprland/src/work_area.rs:216-238 | what is counted: the workspace's own number without flags; else its mapped windows that are tiled, floating, pinned or visible as the flags ask; with g, their distinct groups |
| SelectorLaws.FlagLetters | crates/shelllist-hyprland/src/work_area.rs:250-267 | the flags are t, f, p, g and v, each once, and not both t and f |
| SelectorLaws.FullscreenTermMeans | crates/shelllist-hyprland/src/work_area.rs:311-330 | f with -1, 0, 1, another number, and a number beyond 32 bits, whatever follows the number |
| SelectorLaws.FullscreenNeedsANumber | crates/shelllist-hyprland/src/work_area.rs:311-323 | without a number f never holds |
| SelectorLaws.SpecialTermMeans | crates/shelllist-hyprland/src/work_area.rs:292-294 | s with a number, with yes, on, true, no, off, false, and with anything else |
| SelectorLaws.NameTermMeans | crates/shelllist-hyprland/src/work_area.rs:295-297 | n with s: or e: holds exactly when the name starts or ends so |
| SelectorLaws.NamedTermMeans | crates/shelllist-hyprland/src/work_area.rs:295-299 | n with a number or a word asks whether the workspace is named; with anything else it asks nothing |
| SelectorLaws.HexIsRead | crates/shelllist-hyprland/src/work_area.rs:275-278 | a number written in hexadecimal behind 0x is read as that number |
| SelectorLaws.MonitorClauseMeans | crates/shelllist-hyprland/src/work_area.rs:300 | a selector of one monitor clause holds exactly when the monitor is the one |
| SelectorLaws.SpecialNamesMatchThemselves | crates/shelllist-hyprland/src/work_area.rs:342-344 | a selector that starts with special is a name |
| SelectorLaws.UnclosedSelectorsFail | crates/shelllist-hyprland/src/work_area.rs:345-347 | any other selector must end with a bracket |
| SelectorLaws.BadClausesFail | crates/shelllist-hyprland/src/work_area.rs:348-354 | a clause without an opening bracket, or of an unknown kind, never holds |

## Left out

- WatchBudget.NeverWrongExactly: is about a readable file system with a finite plan, whose directories list no name twice; for one fixed order of entries, a wrong refusal also depends on what is read after the requeued root.
- OutputActor.OutputState.RunOutputActor: the two queues of the actor are one sequence of commands in the order received, which may be any.
- SnapshotPaths.ResolveLinks: the file system does not change during a resolution; the walk theorems ask that the root directory is not a link.
- OwnerLoss.EveryLossIsHeard: says that the steps are there to take, not that a scheduler takes them; TaskRegistry.DrainedWorkersCanEnd, SessionLaws.EverySessionCanEnd, AdmissionLaws.ServiceCanGoIdle and LaneLaws.ShutdownCanReport likewise.
- SocketSession, ServiceAdmission, BlockingLane and OwnerLoss: the tasks act on one value, step by step, so handles shared between tasks and updates in place are not captured there; dropping a whole runtime, which discards queued blocking tasks, is not a step.
- TaskRegistry: dropping the registry itself; shutdown's aborts, which follow the unlocking, are taken in one step with the drain, as nothing but the aborted worker sees them.
- ServiceAdmission: the bound on subscribed streams, the bounded writer and the texts of refusals.
- SocketSession: the limit on connections, credentials, and the ordered barrier of a client's shutdown request, which here is one of the ways reading ends; the service's `disconnected` is assumed to remove what existed when it was called.
- WorkArea: monitor geometry and direction, which are floating point; parsing the batch; insets and gaps; counts that do not fit 64 bits.
- Decimal: the formatter's own digits, which are any nearest rounding, and the digits of toFixed's exponent form.
- WatchBackoff: a single counter with a cap.
- D-Bus client, reconnect loops, logind, Hyprland transport and discovery, Git and Nix subprocesses, command lines: foreign calls; their outcomes are steps where a protocol needs them.
- Atomic file writes, directory modes, socket paths and locks, snapshot copying: they rest on the kernel.
- JSON and TOML parsing, schemas, rendering, envelopes: library behaviour.
- The dependency graph and its preflight check, which report cycles differently by design.
