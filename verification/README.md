# NimbusKV, verified

NimbusKV is an optimistic-concurrency key/value engine: a store that swaps
immutable snapshots by identity, a thread that expires keys from a heap full
of stale entries, a blocking `wait_for` built on subscriptions, and a SQLite
mirror that a restart loads again. This project models those four parts and
proves what they promise.

`dafny verify dfyconfig.toml` checks everything.

## How it is modelled

Two granularities are used.

*Every interleaving.* Where threads meet without a common lock, the code is a
transition system: one step for each read of `_ref`, each run of a transaction
function, each section under a lock, each callback, each move of the clock. A
schedule is any sequence of steps of any number of calls; a step that its
call cannot take leaves the state as it is. So a statement about
`Exec(max, schedule)` for all schedules is a statement about every reachable
state.

- `CasStore.dfy` - `mutate` and the four calls on top of it. Snapshots live at
  addresses, so `is` is equality of addresses while contents may repeat, and a
  transaction function may hand back an object that was current before (ABA).
  Whether a write of an equal value gives the same object or a new one is left
  open; only deleting an absent key and writing an empty batch must hand back
  their argument.
- `Linearizability.dfy` - what follows for every interleaving of writers.
- `Effects.dfy` - what each call does to the map it read, in plain terms, and that a
  call left alone returns.
- `Conflicts.dfy` - how attempts are counted, and that losing them all raises.
- `Deletion.dfy` - what the answer of `delete` is worth.
- `Registry.dfy` - subscriber lists under `_subs_lock`.
- `WaitFor.dfy`, `NoLostWakeup.dfy` - waiters, notifying writers and other
  subscribers, step by step.
- `SilentWrites.dfy` - exactly when a waiter sleeps on.
- `StaleNews.dfy` - where a returned value comes from.
- `AtomicNews.dfy` - what `atomic` announces.
- `WaitEnds.dfy` - how a wait ends, by a value or by its timeout.
- `SchedulerProtocol.dfy` - the expiry thread's sections under its condition
  variable, the delete that follows a pop outside it, and the callers.
- `ExpiryProgress.dfy` - the thread left to itself deletes what is due.
- `ExpiryRace.dfy` - the same against the store: what a popped expiry can still
  delete. A write counts as one step here, the point where it takes effect.

*One call at a time.* No lock spans store, scheduler and table, so what joins
them is stated for calls that do not overlap, with each pop, check and delete
of the scheduler as one step.

- `Expiry.dfy`, `Heapq.dfy` - the lazy index and the binary heap it lives in.
- `Engine.dfy` - the three parts together refine a map from key to value and
  optional deadline.
- `Rehydration.dfy` - write-through, expiry and restarts over whole runs.
- `TimedRuns.dfy` - those runs as steps of the simple map.
- `Events.dfy` - what subscribers are told and what they can rebuild from it.
- `Reactive.dfy`, `Scheduler.dfy`, `Backend.dfy`, `Nimbus.dfy` - the
  classes with their loops, each method proved against the functions above. In
  `Reactive.ReactiveStore.Mutate` the swaps of other threads, the older objects a
  transaction may return, and the attempt in which it raises come in as the
  parameter `others`, and so do their swaps between the earlier looks of the calls
  built on it.

`Values.dfy` holds keys, values and the immutable maps.

Time is a real number and reaches every operation as `now`. The order of rows
in a `SELECT`, and whether a subscriber raises, are left open.

## Where the code and its documentation differ

The model follows the code.

- "Every successful write pushes a notification"
  (`nimbuskv/modules/reactive_core.py:97`): a bare `mutate` never notifies, so a
  waiter can sleep on a predicate that is already true.
  `NoLostWakeup.BareMutateStrandsAWaiter` shows such a run;
  `SilentWrites.StrandedIffLastingFlip` and `SilentWrites.CallStrandsIffSilent`
  say exactly when it happens.
- "A manual delete never races with a later automatic expiry"
  (`nimbuskv/modules/nimbuskv_v3.py:197-199`): an entry already popped is no
  longer stopped by a `cancel` or a new `schedule`.
  `ExpiryRace.PoppedExpiryOutrunsDelete` shows a run in which a value set after
  the manual delete is deleted; `ExpiryRace.ValueLostIffPopped` says that this
  can happen if and only if the entry was popped before the `cancel`, and
  `ExpiryRace.CancelInTimeIsSafe` what a caller can rely on.
- `wait_for` should block "until `predicate(current_value)` is true"
  (`nimbuskv/modules/nimbuskv_v3.py:302-304`): it tests what a writer announces, and
  a writer may announce late. `StaleNews.LateAnnouncementIsReturned` shows a run that
  returns a value from before the call; `StaleNews.StaleIffOldNews` says exactly
  when that can happen.
- `persist_delete` is described as mirroring "manual or TTL expiry"
  (`nimbuskv/modules/persistence.py:73-76`): nothing calls it on expiry. The rows
  of expired keys stay, and `load_all` drops them.
- `atomic` writes its key through without an expiry while the deadline in memory
  stands (`nimbuskv/modules/nimbuskv_v3.py:292-294`). A restart then brings back,
  for good, a key that should be gone: `Rehydration.AtomicForgetsTheDeadline`.
  The round trip holds exactly when no key is in that state, and one `atomic`
  call keeps it exactly when its key has no pending deadline.
- `delete` returns `True` when "the key existed and was removed"
  (`nimbuskv/modules/reactive_core.py:375-378`): it answers from its first look.
  `Deletion.AnyRemoverCanOvertake` shows runs in which it answers `True` and
  another call has removed the key; `Deletion.DeleteFailsIffTakenOut` says exactly
  when, and `Deletion.UncontestedDeleteRemoves` what a caller can rely on.

## Model

| member | source | states |
|---|---|---|
| `Linearizability.Linearizable` | nimbuskv/modules/reactive_core.py:241-258 | In every interleaving the current snapshot is the committed transactions applied in swap order; each returned call gives what its transaction gives at one log position inside its own interval, also after ABA; a no-op takes effect at its read; every commit is the one swap of a returned call; a bare `mutate` has left its function applied to the map at that position |
| `Linearizability.RealTimeOrder` | nimbuskv/modules/reactive_core.py:241-258 | A call that returned before another began takes effect before it |
| `Linearizability.SnapshotsNeverChange` | nimbuskv/modules/reactive_core.py:132-147 | The object a reader obtained holds the state of that log position for the rest of any run |
| `Effects.HistIsWhatReadersFind` | nimbuskv/modules/reactive_core.py:132-147 | The objects the log lists are the ones a reader finds in `_ref`, one after the other |
| `Effects.MutateAppliesItsFunction` | nimbuskv/modules/reactive_core.py:241-249 | A bare `mutate` that returned has left its function applied to the very map it read at its own position, in any interleaving |
| `Effects.SetWritesItsKey` | nimbuskv/modules/reactive_core.py:273 | A returned `set` leaves the map it worked on with its key at its value, and every other key as it was |
| `Effects.MsetWritesItsPairs` | nimbuskv/modules/reactive_core.py:303-308 | The same for `mset`: every pair is there, every other key as it was |
| `Effects.AtomicTransformsItsKey` | nimbuskv/modules/reactive_core.py:353-360 | The same for `atomic`: its key holds the function of the value it had, or of the default |
| `Effects.DeleteTakesOutItsKey` | nimbuskv/modules/reactive_core.py:391 | The same for `delete`: its key is out, every other as it was |
| `Effects.MutateThenMutate` | nimbuskv/modules/reactive_core.py:241-249 | f and then g, one straight after the other in the log, leave g(f(m)) |
| `Effects.CallLeftAloneReturns` | nimbuskv/modules/reactive_core.py:241-249 | From any reachable state a call with an attempt left returns after three steps in which nobody else moves, having worked on the map of that moment |
| `Effects.RaisingEndsTheCall` | nimbuskv/modules/reactive_core.py:243 | A call whose transaction raises is over for the rest of any run and never swaps anything |
| `Linearizability.RaisedMeansRivals` | nimbuskv/modules/reactive_core.py:241-258 | A call that raises `ConflictRetryExceeded` made exactly `max_retries` attempts and overlapped at least that many successful swaps, all by different other calls |
| `Conflicts.LossesDecide` | nimbuskv/modules/reactive_core.py:241-258 | Counted on the schedule, each failed comparison uses up one attempt: a call that has lost `max_retries` of them raises at its next read, one that has lost fewer tries again, one that returned has lost fewer |
| `Conflicts.MineGivesUp` | nimbuskv/modules/reactive_core.py:255-258 | A run in which a call does raise |
| `Linearizability.LostAttemptsAreCharged` | nimbuskv/modules/reactive_core.py:241-252 | However many attempts a call has lost so far, the swaps of at least as many different other calls overtook it |
| `Linearizability.RaisedMeansManyCalls` | nimbuskv/modules/reactive_core.py:255-258 | If any call raises there were more than `max_retries` calls |
| `Linearizability.FewCallsNeverRaise` | nimbuskv/modules/reactive_core.py:241-258 | With at most `max_retries` calls in all, none ever raises |
| `Linearizability.ReadersNeverSeeItBroken` | nimbuskv/modules/reactive_core.py:241-249 | From whatever log position a property of the whole map holds and all later transactions keep it, no reader ever sees it broken again; so also on a store that was filled first |
| `Linearizability.BatchIsOneSwap` | nimbuskv/modules/reactive_core.py:301-308 | `mset` takes the map from just before it to that map overridden by the whole batch, in one swap: no partial batch is visible |
| `Linearizability.AtomicReportsAreExact` | nimbuskv/modules/reactive_core.py:351-363 | Whatever earlier retries left in `box`, `atomic` reports the values before and after its own log position |
| `AtomicNews.AtomicAnnouncesItsOwnStep` | nimbuskv/modules/reactive_core.py:353-362 | Whatever was read in earlier attempts, what an `atomic` call announces is the old value in the object its winning attempt read and the new value in the object it put there |
| `Linearizability.CommitReport` | nimbuskv/modules/reactive_core.py:351-363 | The `atomic` call behind commit i reports the key's values just before and just after commit i |
| `Linearizability.AtomicChain` | nimbuskv/modules/reactive_core.py:351-363 | Successive `atomic` commits on a key form an unbroken chain: the next old value is the last new value |
| `Linearizability.IncrementsAreNeverLost` | nimbuskv/modules/reactive_core.py:351-363 | Once a counter holds v, whoever put it there and whatever the default, N completed increments and nothing else on the key leave exactly v + N, in any interleaving |
| `Linearizability.CounterStartsAtItsDefault` | nimbuskv/modules/reactive_core.py:351-363 | A counter nobody has set starts at the increments' common default: from the empty store, N completed increments leave it at that default plus N |
| `Linearizability.DeleteRemovesIffItSwaps` | nimbuskv/modules/reactive_core.py:391 | A `delete` that returned removed the key exactly if it swapped, and left it absent either way |
| `Deletion.DeleteFailsIffTakenOut` | nimbuskv/modules/reactive_core.py:387-393 | A `delete` that answers True found the key at its first look, and has removed nothing if and only if between that look and its own position another call's commit took the key out and nobody put it back |
| `Deletion.UncontestedDeleteRemoves` | nimbuskv/modules/reactive_core.py:387-393 | If during the call no other call's commit can take the key out, True means removed by this call |
| `Deletion.WhoCanRemove` | nimbuskv/modules/reactive_core.py:272-393 | Of the calls other than a bare `mutate`, exactly the `delete` of that key can take it out |
| `Deletion.AnyRemoverCanOvertake` | nimbuskv/modules/reactive_core.py:387-393 | For every operation that can take the key out of some map there is a run in which it overtakes a `delete`, which answers True and removes nothing; with a second `delete`, True twice for one removal |
| `Deletion.FalseIsAlwaysRight` | nimbuskv/modules/reactive_core.py:387-389 | A `delete` that answers False: the key was absent at a log position inside the call |
| `Linearizability.ReadsAreMonotone` | nimbuskv/modules/nimbuskv_v3.py:194 | The values of `mget` come from log positions that never go back and lie inside the call's interval |
| `Linearizability.QuietReadsAreOneSnapshot` | nimbuskv/modules/nimbuskv_v3.py:194 | With no commit between first and last read, `mget` returns one consistent snapshot |
| `Linearizability.AbaHappens` | nimbuskv/modules/reactive_core.py:246-249 | A run in which an identity comparison succeeds although two swaps went by, and the call still takes effect at its own position |
| `CasStore.ExecKeepsInv` | nimbuskv/modules/reactive_core.py:241-258 | The invariant of the retry loop holds after every schedule: history, log and every call in flight agree |
| `Values.SetAllIsOverride` | nimbuskv/modules/reactive_core.py:303-306 | The `_txn` loop of `mset` equals one override of the map |
| `Registry.AlwaysOk` | nimbuskv/modules/reactive_core.py:429-439 | Over all interleavings of subscribe and cancel, ids rise strictly in each list and are never shared |
| `Registry.RemoveExactly` | nimbuskv/modules/reactive_core.py:435-439 | Cancelling takes out its own id from its own list and nothing else |
| `Registry.RemoveTwice` | nimbuskv/modules/reactive_core.py:435-439 | A second removal of the same id straight after the first changes nothing |
| `Registry.GoneStaysGone` | nimbuskv/modules/reactive_core.py:429-439 | Over every run no id is issued again: an id once absent from its list stays absent |
| `Registry.CancelIsForGood` | nimbuskv/modules/reactive_core.py:435-439 | A later `cancel` of the same id, whatever subscriptions and cancellations came between, finds nothing to remove |
| `Registry.AudienceHearsOnce` | nimbuskv/modules/reactive_core.py:446-451 | Nobody is told twice about one event; subscribers to the key come before the general ones, each list in subscription order |
| `WaitFor.NewsIsTrue` | nimbuskv/modules/reactive_core.py:272-312 | In any interleaving, a writer announces as new value exactly what its own swap wrote |
| `WaitFor.SilentMeansUnchanged` | nimbuskv/modules/reactive_core.py:272-393 | A key that a notifying call does not announce was not changed by it |
| `NoLostWakeup.WExecKeepsInv` | nimbuskv/modules/nimbuskv_v3.py:334-361 | The invariant of check, subscribe, re-check and park holds after every schedule |
| `NoLostWakeup.WakeupIsOnItsWay` | nimbuskv/modules/nimbuskv_v3.py:334-361 | Whenever a parked waiter's predicate is true and its event unset, consider the last commit that turned it true: it came after the re-check, and it is a bare `mutate` or its writer still has the waiter's callback ahead of it |
| `NoLostWakeup.NoWakeupIsLost` | nimbuskv/modules/nimbuskv_v3.py:334-361 | With no notification outstanding and no bare `mutate` at work, no waiter sleeps on a true predicate |
| `NoLostWakeup.NoWakeupIsLostToNotifyingWriters` | nimbuskv/modules/nimbuskv_v3.py:334-361 | So it is whenever all writers use `set`, `mset`, `atomic` or `delete` |
| `NoLostWakeup.OnlySatisfyingValuesReturned` | nimbuskv/modules/nimbuskv_v3.py:341-356 | A set event comes with a stored result that satisfies the predicate, and only satisfying values are returned, whichever callbacks race |
| `StaleNews.ReturnedWasTheKeysValue` | nimbuskv/modules/nimbuskv_v3.py:334-361 | Whatever is returned was the key's value at some log position |
| `StaleNews.StaleIffOldNews` | nimbuskv/modules/nimbuskv_v3.py:334-361 | A `wait_for` that does not return at once can return a value the key never has during the call if and only if, when it begins, some call has satisfying news of the key from before: a writer not done announcing, or one that has read an older snapshot its transaction may leave as it is |
| `StaleNews.StaleNeedsOldNews` | nimbuskv/modules/nimbuskv_v3.py:334-361 | Without such news, the value returned has been the key's value during the call, whether it returns at once or not |
| `StaleNews.LateAnnouncementIsReturned` | nimbuskv/modules/nimbuskv_v3.py:341-356 | Such a run: two `set` calls write 1 and 2, then a wait for 1 begins and returns 1 while 2 is in the store |
| `NoLostWakeup.SleeperIsAlwaysSubscribed` | nimbuskv/modules/nimbuskv_v3.py:346-355 | A sleeping waiter is in the audience of anything announced about its key |
| `NoLostWakeup.NothingLeftBehind` | nimbuskv/modules/nimbuskv_v3.py:360-361 | A `wait_for` that is over, by value or timeout, leaves no callback in any list; that a wait does end is in WaitEnds |
| `WaitEnds.TimeoutEndsTheWait` | nimbuskv/modules/nimbuskv_v3.py:355-361 | From any reachable state a timeout ends a parked waiter whose event is not set: two steps later it is over with TimeoutError, none of its callbacks is in any list, and store, announcements, other waiters and other callbacks are as they were |
| `WaitEnds.SetEventEndsTheWait` | nimbuskv/modules/nimbuskv_v3.py:355-356 | Once the event is set a timeout changes nothing, and three steps of its own bring the waiter back with a satisfying value, unsubscribed |
| `WaitEnds.TrueAtOnceReturns` | nimbuskv/modules/nimbuskv_v3.py:334-336 | A value that satisfies at the first check is returned at once, and nothing is subscribed |
| `WaitEnds.TrueAtRecheckReturns` | nimbuskv/modules/nimbuskv_v3.py:352-354 | One that satisfies at the re-check is returned, and the callback is gone again |
| `WaitEnds.RegistryIsARun` | nimbuskv/modules/nimbuskv_v3.py:346-361 | Waiters and other subscribers together drive the registry by a run of `subscribe` and `cancel`, so what holds of all such runs holds here |
| `NoLostWakeup.BareMutateStrandsAWaiter` | nimbuskv/modules/reactive_core.py:204-258 | A run in which a bare `mutate` leaves a waiter asleep on a true predicate with nobody left to wake it |
| `SilentWrites.StrandedIffLastingFlip` | nimbuskv/modules/nimbuskv_v3.py:334-361 | Over every interleaving: a sleeping waiter that nobody is about to wake sleeps on a true predicate if and only if a bare `mutate` made it true after the re-check and it has been true ever since |
| `SilentWrites.CallStrandsIffSilent` | nimbuskv/modules/nimbuskv_v3.py:334-361 | Of a sleeping waiter with a false predicate, one call run from start to end leaves it asleep on a true one if and only if the call is a bare `mutate` whose result satisfies it; any other call with such a result sets the event |
| `SilentWrites.NotifyingWriterWakes` | nimbuskv/modules/nimbuskv_v3.py:341-356 | A `set`, `mset`, `atomic` or `delete` that makes the predicate true has set the event once it has announced its news, even if the value is gone again by then |
| `Expiry.LeqTotal` | nimbuskv/modules/ttl.py:80 | The order of `(when, key, generation)` tuples is total and antisymmetric |
| `Expiry.LeqTransitive` | nimbuskv/modules/ttl.py:80 | The order of `(when, key, generation)` tuples is transitive |
| `Expiry.KeysPart` | nimbuskv/modules/ttl.py:80 | Keys are ordered by their first difference: the one that ends there or has the smaller character comes first |
| `Expiry.TuplesCompare` | nimbuskv/modules/ttl.py:80 | Entries are ordered by time, then by the first difference of their keys, then by generation |
| `Expiry.ScheduleUpdates` | nimbuskv/modules/ttl.py:77-81 | `schedule` acts on the map from key to deadline as an update, and keeps (key, generation) pairs distinct and within the current generation |
| `Expiry.CancelRemoves` | nimbuskv/modules/ttl.py:87-89 | `cancel` acts on that map as a removal |
| `Expiry.PopRemovesOrNothing` | nimbuskv/modules/ttl.py:106-109 | Popping a current entry acts as a removal, popping a stale one changes nothing |
| `Expiry.LoopIsDrain` | nimbuskv/modules/ttl.py:94-117 | Popping first entries while they are due ends with exactly the due entries gone and the current ones among them fired, by deadline and then in the order of the keys' first difference |
| `Expiry.DrainKeepsTheRest` | nimbuskv/modules/ttl.py:94-117 | Each key fires at most once, in order of deadline, and every later deadline stands |
| `Expiry.FiredInOrder` | nimbuskv/modules/ttl.py:101-106 | Entries fire by deadline, and those of one deadline in the order of the first difference of their keys |
| `Expiry.FiredIffDue` | nimbuskv/modules/ttl.py:94-117 | A key fires if and only if its deadline has come |
| `Heapq.HeapPush` | nimbuskv/modules/ttl.py:80 | Pushing keeps the heap order and adds exactly the one entry |
| `Heapq.HeapPop` | nimbuskv/modules/ttl.py:106 | Popping keeps the heap order and takes out exactly one entry, a least one |
| `Heapq.TopIsLeast` | nimbuskv/modules/ttl.py:101 | The first element of the heap is a least one |
| `SchedulerProtocol.AlwaysSleepsRight` | nimbuskv/modules/ttl.py:94-105 | In every interleaving a blocked thread is not stopped and sleeps untimed on an empty heap or until the first entry's `when` |
| `SchedulerProtocol.NeverOversleeps` | nimbuskv/modules/ttl.py:94-105 | A blocked thread's wait is untimed exactly if nothing is pending, else ends at the earliest `when`; once something is due the wait can end |
| `SchedulerProtocol.AlwaysTraceInv` | nimbuskv/modules/ttl.py:77-125 | What each event owes to the events before it holds over every interleaving |
| `SchedulerProtocol.PopBelongsToItsSchedule` | nimbuskv/modules/ttl.py:101-109 | A pop goes back to one earlier `schedule`, comes no earlier than its deadline, and is current exactly if the key was neither scheduled nor cancelled since |
| `SchedulerProtocol.PassPopsTheDue` | nimbuskv/modules/ttl.py:101-109 | A pass with something due pops the first entry and goes on to the delete exactly if its key was left alone since the `schedule` |
| `SchedulerProtocol.FireIsEarned` | nimbuskv/modules/ttl.py:94-111 | Every expire delete was popped, due, from an earlier `schedule` with no `schedule` or `cancel` of the key between the two |
| `SchedulerProtocol.AtMostOneFirePerSchedule` | nimbuskv/modules/ttl.py:77-111 | Each `schedule` call causes at most one expire delete |
| `SchedulerProtocol.StopBound` | nimbuskv/modules/ttl.py:94-125 | After `stop` at most one expire delete follows, nothing more is popped, the thread is not blocked, and its next pass leaves |
| `SchedulerProtocol.LateFireWasPopped` | nimbuskv/modules/ttl.py:94-125 | An expire delete was popped before any `stop` |
| `ExpiryProgress.FiresAtLeastOnce` | nimbuskv/modules/ttl.py:94-117 | From any reachable state, a key scheduled, left alone since and due is deleted, unless the thread was stopped: its own next steps, at most two for each pending entry and one, get there |
| `ExpiryProgress.StopEnds` | nimbuskv/modules/ttl.py:95-97 | After `stop`, whatever came before, two steps of its own take the thread out, with no more than the one delete at hand |
| `ExpiryRace.OldExpiryIffPopped` | nimbuskv/modules/ttl.py:77-111 | Over every interleaving: after a `cancel` or `schedule` of a key, an expire delete owed to an earlier `schedule` can still happen if and only if it was popped and at hand when that call came |
| `ExpiryRace.ValueLostIffPopped` | nimbuskv/modules/ttl.py:87-111 | After a `cancel` with no new `schedule`, a value of the key that no writer takes out can still be lost if and only if an expiry of the key was at hand at the `cancel` |
| `ExpiryRace.NothingAtHandBeforeDeadline` | nimbuskv/modules/ttl.py:101-109 | With a forward clock, while every deadline a key has been given is still to come, no expiry of it is at hand |
| `ExpiryRace.CancelInTimeIsSafe` | nimbuskv/modules/ttl.py:87-111 | So a `cancel` made before the key's deadlines is safe: no expiry can take a later value |
| `ExpiryRace.PoppedExpiryOutrunsDelete` | nimbuskv/modules/nimbuskv_v3.py:210-213 | A run with the store: pop, manual delete, `set` without a deadline, and then the late expiry deletes the new value |
| `ExpiryRace.PoppedExpiryOutrunsReschedule` | nimbuskv/modules/ttl.py:107-111 | A run with the store: the late expiry deletes, at 1.0, a value set with the deadline 9.0 |
| `Engine.SetRefines` | nimbuskv/modules/nimbuskv_v3.py:122-129 | `set` gives the key its value and its new deadline, or none at all, and touches nothing else |
| `Engine.MsetRefines` | nimbuskv/modules/nimbuskv_v3.py:149-156 | `mset` overrides all its keys and gives them one deadline |
| `Engine.DeleteRefines` | nimbuskv/modules/nimbuskv_v3.py:210-213 | `delete` takes out the key with its deadline |
| `Engine.AtomicRefines` | nimbuskv/modules/nimbuskv_v3.py:292-294 | `atomic` changes the value and keeps the deadline |
| `Engine.PassRefines` | nimbuskv/modules/ttl.py:101-111 | A pass is the expiry of one key at or after its deadline, or nothing |
| `Engine.LoopDrains` | nimbuskv/modules/ttl.py:94-117 | Passing until nothing is due leaves exactly the drained engine |
| `Engine.DrainedTimed` | nimbuskv/modules/ttl.py:94-117 | Draining removes the keys whose deadline has come and touches no other key or deadline |
| `Engine.SetLivesForItsTtl` | nimbuskv/modules/nimbuskv_v3.py:122-129 | A key set with a ttl lives, with its value, through every drain before `now + ttl` and through none at or after it; one set without lives through all |
| `Engine.MsetLivesForItsTtl` | nimbuskv/modules/nimbuskv_v3.py:149-156 | So does every key of a batch |
| `Rehydration.AlwaysValid` | nimbuskv/modules/nimbuskv_v3.py:91-294 | Over any run, keys with a pending deadline are present in the store |
| `Rehydration.AlwaysInSync` | nimbuskv/modules/persistence.py:133-168 | Over any run with a clock that does not go back, the table knows every faithful key exactly, and of the absent ones at most rows whose expiry has passed |
| `Rehydration.RoundTripIffFaithful` | nimbuskv/modules/persistence.py:133-168 | A restart rebuilds exactly the values and deadlines the drained engine is left with, if and only if no key is unfaithful, although expiry never deletes a row |
| `Rehydration.AtomicKeepsRoundTripIffNotPending` | nimbuskv/modules/nimbuskv_v3.py:292-294 | One `atomic` call keeps a faithful engine restartable if and only if its key has no pending deadline |
| `Rehydration.NeverAtomicOnPendingIsFaithful` | nimbuskv/modules/nimbuskv_v3.py:292-294 | A run that never calls `atomic` on a pending deadline leaves no unfaithful key |
| `Rehydration.AtomicForgetsTheDeadline` | nimbuskv/modules/nimbuskv_v3.py:292-294 | A run in which, at time 9, the running engine has dropped a key with deadline 5 and a restart brings it back without one |
| `TimedRuns.RunFollowsTheTimedMap` | nimbuskv/modules/nimbuskv_v3.py:91-294 | Over any run store and index together are a map from key to value and deadline, and each call is one step of that map and of the table; a pass takes out one cell whose deadline has come, or none; a restart leaves the live rows as cells |
| `TimedRuns.EnoughPassesDrain` | nimbuskv/modules/ttl.py:94-117 | After any run, as many passes as there are entries leave exactly the cells whose deadline has not come |
| `Rehydration.RowsAt` | nimbuskv/modules/nimbuskv_v3.py:99-102 | The constructor's loop makes each row's own value and deadline, whatever the order of the rows |
| `Rehydration.ReopenedAt` | nimbuskv/modules/nimbuskv_v3.py:99-102 | After a restart a key is present exactly if its row is live, with the row's value and expiry |
| `Events.CallIsFollowed` | nimbuskv/modules/reactive_core.py:272-393 | The events of one call lead a replica from the old store to the new one, and each old value is the replica's own |
| `Events.StreamRebuildsStore` | nimbuskv/modules/reactive_core.py:272-393 | So do the events of any serial run |
| `Events.AllKeysHearsAll` | nimbuskv/modules/reactive_core.py:446-451 | A subscriber to all keys hears every event exactly once, in order |
| `Events.OneKeyHearsItsOwn` | nimbuskv/modules/reactive_core.py:446-451 | A subscriber to one key hears exactly that key's events, once each, in order |
| `Events.SubscriberCanRebuildStore` | nimbuskv/modules/reactive_core.py:441-451 | A replica fed by one subscription to all keys follows the store through any serial run |
| `Reactive.ReactiveStore.Mutate` | nimbuskv/modules/reactive_core.py:241-258 | The loop: the first attempt that nobody overtook wins with its transaction applied to the object it read (a bare `mutate`: its function applied to what that object holds), be the result new or an older object; a no-op swaps nothing; giving up means every attempt lost; a raising transaction ends the call; in both those cases nothing has changed |
| `Reactive.ReactiveStore.RunOn` | nimbuskv/modules/reactive_core.py:243-245 | One run of the transaction: the right contents, for a bare `mutate` its function of what the given object holds, in the object it was given, an older one or a new one; always its argument if there is nothing to do |
| `Reactive.ReactiveStore.RunBatch` | nimbuskv/modules/reactive_core.py:303-306 | The batch loop computes the transaction of `mset` |
| `Reactive.ReactiveStore.RunTransaction` | nimbuskv/modules/reactive_core.py:353-358 | Each call's closure computes its transaction, a bare `mutate` its function of the given map, and `atomic`'s fills `box` with the old and new values |
| `Reactive.ReactiveStore.Subscribe` | nimbuskv/modules/reactive_core.py:429-433 | The next id goes to the end of the list, and the handle carries it |
| `Reactive.ReactiveStore.Unsubscribe` | nimbuskv/modules/reactive_core.py:435-439 | The rebuilt list is the old one without the id |
| `Reactive.ReactiveStore.Notify` | nimbuskv/modules/reactive_core.py:441-457 | Everyone captured is called exactly once, in order |
| `Reactive.ReactiveStore.SetValue` | nimbuskv/modules/reactive_core.py:272-274 | Whatever others swap in between its steps: if the call wins, its snapshot is the map its winning attempt read with the key at the value, and the audience hears one event, with the old value seen at the first look; if not, nobody hears anything |
| `Reactive.ReactiveStore.OldValues` | nimbuskv/modules/reactive_core.py:301 | The old values of `mset` come from one look at `_ref` for each pair, others swapping in between |
| `Reactive.ReactiveStore.MsetValues` | nimbuskv/modules/reactive_core.py:301-312 | The same for `mset`: the map its winning attempt read overridden by the batch, and one event for each pair, in order, with the old value that pair's own look saw |
| `Reactive.ReactiveStore.AtomicUpdate` | nimbuskv/modules/reactive_core.py:351-363 | If the call wins, the audience hears exactly one event: its old value is the key's value in the object the winning attempt read, which is the one its comparison found in `_ref`, its new value the key's value in the object left there; the call returns that value; if it does not win nobody hears anything |
| `Reactive.ReactiveStore.DeleteKey` | nimbuskv/modules/reactive_core.py:387-393 | It answers by its first look; an absent key changes nothing and is announced to nobody; a call that wins takes its key out of the map its winning attempt read, and the audience hears one event of the given kind, from the value its second look saw to None |
| `Reactive.WroteAlone` | nimbuskv/modules/reactive_core.py:272-393 | With nobody else about, each of these calls does what it does in a serial run, with exact old values |
| `Reactive.MutateTwiceAlone` | nimbuskv/modules/reactive_core.py:241-249 | f and then g through `mutate`, with nobody else about, leave g(f(m)) |
| `Reactive.AtomicOvertakenOnce` | nimbuskv/modules/reactive_core.py:241-252 | An `atomic` overtaken between the read and the comparison of its first attempt works on the rival's map and announces the value that one held |
| `Reactive.Subscription.Cancel` | nimbuskv/modules/reactive_core.py:78-83 | The first call removes its own id, a second does nothing |
| `Scheduler.ExpiryScheduler.Schedule` | nimbuskv/modules/ttl.py:77-81 | On the heap and the generations this is `schedule` of the index |
| `Scheduler.ExpiryScheduler.Cancel` | nimbuskv/modules/ttl.py:87-89 | On the generations this is `cancel` of the index |
| `Scheduler.ExpiryScheduler.Section` | nimbuskv/modules/ttl.py:95-109 | One pass leaves if stopped, waits for exactly as long as the first entry is not due, else pops the first entry and tells whether it is current |
| `Scheduler.SectionIsPass` | nimbuskv/modules/ttl.py:95-109 | The section on heap and generations is the protocol's pass on the same index and clock |
| `Scheduler.ExpiryScheduler.RunToWait` | nimbuskv/modules/ttl.py:94-117 | The loop reaches its wait, having drained the index, deleted exactly the fired keys from the store, by deadline and then in the order of the keys' first difference, and told each delete's audience |
| `Backend.SQLiteBackend.SelectRows` | nimbuskv/modules/persistence.py:136-138 | Every row of the table once, in some order |
| `Backend.SQLiteBackend.LoadAll` | nimbuskv/modules/persistence.py:133-153 | Returns every live row once and deletes exactly the dead ones |
| `Backend.LoadIsPurge` | nimbuskv/modules/persistence.py:141-152 | Splitting the rows on `expire_at <= now` returns the live table and deletes the rest |
| `Nimbus.NimbusKV.constructor` | nimbuskv/modules/nimbuskv_v3.py:91-104 | The new engine is the table reopened, for some order of its live rows: a key is there exactly if its row has no expiry or one after `now`, with the row's value and expiry; the other rows are gone from the table; the store makes 1000 attempts |
| `Nimbus.NimbusKV.Set` | nimbuskv/modules/nimbuskv_v3.py:122-129 | The key has its value; its deadline and its row's expiry are `now + ttl`, or none without a ttl; no other key, deadline or row changes; subscribers hear it |
| `Nimbus.NimbusKV.Mset` | nimbuskv/modules/nimbuskv_v3.py:149-156 | The same for every pair of the batch, with one deadline for all |
| `Nimbus.NimbusKV.Delete` | nimbuskv/modules/nimbuskv_v3.py:210-213 | Key, deadline and row go and nothing else; the answer is whether the key was there; if it was, its audience hears one delete event, from its value to None |
| `Nimbus.NimbusKV.Atomic` | nimbuskv/modules/nimbuskv_v3.py:292-294 | The key has the function of its old value, or of the default, and that is the answer; the index is untouched and the row is written without an expiry |
| `Nimbus.NimbusKV.Mget` | nimbuskv/modules/nimbuskv_v3.py:194 | The keys' values in order, the default for absent ones |
| `Nimbus.NimbusKV.RunScheduler` | nimbuskv/modules/ttl.py:94-117 | Exactly the keys whose deadline has come are gone, each fired once, by deadline and then by key, and announced as an expiry from the value it had to None; every later deadline and the table stand; it is the engine's passes until nothing is due |
| `Nimbus.FiredLeavesDrained` | nimbuskv/modules/ttl.py:94-117 | Deleting the fired keys one after the other leaves exactly the drained engine |
| `Nimbus.SchedulerAnnounces` | nimbuskv/modules/ttl.py:94-117 | The keys the loop fires are exactly those whose deadline has come, each once, by deadline and then by key; each is announced as an expiry from the value it had to None |

## Left out

- Old values that `set`, `mset` and `delete` report under interleaving: they are read before the winning swap; what each look saw is stated on the class, no more is promised.
- Delivery order of notifications across threads: it need not be commit order.
- Store, scheduler and table under interleaved API calls: the code holds no lock across them, so their agreement is stated for calls that do not overlap.
- Reactive.ReactiveStore.Notify: that a callback raised is only counted; what it raised and how it is logged is not modelled.
- `ExpiryScheduler.stop` on the class: waking the sleeping thread is a matter of interleaving and is stated in SchedulerProtocol, not on the class.
- `wait_for` as a class: it is a state machine on values; each waiter's fields are a record that its steps replace.
- Predicates that raise in `wait_for`, and callbacks that write to the store or subscribe. A transaction function that raises is a step of CasStore.
- `NimbusKV.stop` beyond the scheduler's part: the `_stopped` flag and closing the backend.
- `RedisBackend`, `NullBackend`, `resolve_backend` and the async wrappers: a network client, a backend that does nothing, string dispatch, and forwarding.
- Pickling, SQL text and connections: the table is a map from key to row.
- The inside of `immutables.Map`: a mathematical map plus the identity of the object holding it.
- Floating-point rounding of time, `NaN` deadlines, drift of timed waits and spurious wakeups: a wait ends by `notify` or by its time, and the thread looks again either way.
- `heapq` is not part of the repository; its documented algorithm is modelled in Heapq.dfy, on sequences that each swap replaces.
- `keys`, `items`, `exists`, `len`, logging, `__repr__`, runtime.py and exceptions.py: no state or algorithm beyond what is here.
