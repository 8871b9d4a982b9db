# TinySoul: a verified model of its hard cores

This project models, in Dafny, the parts of TinySoul whose correctness is hardest to see from the code: budgeted
continuation paging, the bounded observation stream, the locks and the mailbox, the root scheduler, plugin dependency
resolution, the layered configuration tree, the embedding cache, the background heap, and Turn identity allocation.
`dafny verify dfyconfig.toml` checks everything.

Each component has a specification (functions on values) and, where the source works by changing state, methods and
classes whose contracts tie each step of the code to it. Coroutines are modelled as atomic steps between their `await`s,
threads as atomic sections under their lock, and cancellation as a step; the theorems are about every run of such steps.

| files | component |
|---|---|
| `Decimal`, `Utf8`, `Base64Url`, `Json`, `FloatText`, `JsonReader` | the texts a token is made of, each with its reader, and the value of a float's text |
| `Continuation`, `PageSize`, `Paging`, `PageChain`, `StaleTokens` | opaque tokens, one page, the chain of pages, and tokens that do not fit |
| `StreamAccounting`, `Observations`, `StreamLoss`, `Subscriptions` | the bounded stream: accounting, steps, what it may lose, objects |
| `AsyncLock`, `ReentrantLock`, `AsyncMailbox` | the two locks and the mailbox |
| `SchedulerSteps`, `SchedulerProofs`, `SchedulerKeeps`, `SchedulerAdmission`, `SchedulerRuns`, `SchedulerEndings`, `SchedulerForward`, `SchedulerCosts`, `SchedulerRaces`, `RootScheduler` | the scheduler: steps, invariant, its preservation, admission, runs, who decides a result, what never goes back, what the two races cost, each race as a run, the object |
| `DottedPaths`, `PluginOrder`, `PluginRegistration`, `DeclaredSections` | sections, dependency graph, registration and the build loop, and what the section checks are for |
| `DigitClass`, `ConfigTree`, `ConfigSections`, `ConfigSources` | what counts as a list index, dotted writes, sections, and sources in their order |
| `OrderedMap`, `EmbeddingResponse`, `EmbeddingFile`, `EmbeddingCache`, `EmbeddingIndex` | response order, the text of the cache file and its reader, the cache, the index over calls |
| `BackgroundPatches`, `BackgroundHeap`, `BackgroundOrigins`, `BackgroundEviction`, `HeapSegment` | patch checks, the heap, where its entries come from, budget eviction, the object |
| `TurnIdentity`, `TurnAllocation` | identities as text, and the persisted high-water mark |
| `KnownTexts` | the written forms on single examples |

## Where the code does not do what it is for

Each of these is proved: a concrete witness, and the exact condition under which the property does hold.

- A continuation's binding is compared with Python's `==`, under which `True`, `1` and `1.0` are equal, so generation `1`,
  generation `true` and generation `1.0` accept one another's tokens (`NumberBindingsCollide`). `DecodeEncoded` says
  which bindings a token accepts, `SameValueExactly` that these are the ones with the same structure and numbers of the
  same value, and `SameValueIsEquality` that this is equality when all numbers are integers.
- A binding with a NaN is unequal to itself unless both sides hold the one shared NaN object, so a query with such a
  binding refuses the continuation it has just made (`OwnNaNStopsTheChain`). `OwnBindingAccepted` is the exact
  condition, and the chain theorems ask for it (`TakesBack`).
- A page is refused only when the base already holds the item field or `next_continuation`. An item field with one of
  the two reserved names, or a base holding `content_fragment`, is let through, and such pages cannot be read back
  (`ReadableExactlyWhenProper`).
- The fragment search is not maximal at an item's end: the page that ends the item may be smaller than a shorter cut,
  because the token shrinks or vanishes. `Paging.BestCut` says which cut is taken.
- Two kinds of scheduler step can cost a request its result, and no other step of a good state can (`HarmExactly`).
  - An identity evicted from the retained outcomes is accepted again while something is left of its old publication. If
    that is the entry in the table of publications, a cancellation answers that it cancelled the request, takes it out of
    the mailbox and leaves it adrift: undecided, with nothing under way to decide it (`StaleEntryStrands`, and
    `ResubmissionLeavesAdrift` as a run). If it is only a caller that has not resumed, a cancellation starts a publication
    which that caller then takes off the table (`StaleCallerUnregisters`), so that a later completion starts a second one,
    and whoever joins that gets an error (`UnregisteredIsDoubled`).
  - A turn is bound after the request's result was decided. The publication is then refused, or it had passed its check
    and the result names no turn (`BindingHarms`, and `LateTurnLeavesAdrift` as a run). This takes a close while a request
    executes; the shipped callers of `close_requests` call it before the loop runs or after it has returned.
  - An adrift request stays so whatever else happens (`AdriftForever`) until it is named again: a close settles it
    (`CloseSettlesAdrift`), a cancellation exactly while it still counts as queued (`CancelSettlesAdrift`).
- A plugin that lists a requirement twice passes every declaration check and then fails the build (`Build`;
  `DoubledNeedIsOverlooked` is the smallest such recipe).
- A section first given through a numeric child key (`models.0`) is a list in the effective tree and a table in its own
  section tree (`NumericChildDisagrees`).
- A value given for an ancestor of a section (`llm`, for `llm.providers`) reaches the effective tree and not the section's
  own (`AncestorDisagrees`), and can hide a failure of the section's own fold (`AncestorHidesFailure`). `SectionAgreement`
  says for all writes when the two trees agree: after the last ancestor either the section is assigned, or its later
  writes make the same of what that ancestor holds there as of the section's own tree. `AgreementWithoutAncestors` and
  `AncestorLast` are the two ends of it.
- A loaded default that a refresh turns into an ordinary entry can be evicted by request but is skipped by every budget
  eviction (`DemotedDefaultIsSkipped`, `RefreshDemotes`, `BudgetMetExactly`).
- Two threads that hold the read side of the reentrant lock and both ask for the write side wait for each other for
  ever (`UpgradesDeadlock`); four acquisitions lead there from a free lock (`UpgradesAreReachable`). This is the only
  deadlock: a held lock whose holders all wait, nobody woken, is exactly a circle of such upgrades (`StuckExactly`).
- An index part is recognised by `isdigit` and converted by `int`, which agree on every script's decimal digits but not
  on digits such as a superscript two: there the write raises `ValueError` (`OtherScripts`, and `BadIndex` in
  `GetAfterSet` and `SetDotted`).
- A cancellation that arrives while an embedding cache file is read is only noticed before the file is written. When the
  session fails recoverably before that, the next session is tried and the call may return scores after all
  (`Similarities`, `EndingOf`). A cancellation during the write leaves the new file although the call raises.

## Model

| member | source | states |
|---|---|---|
| Utf8.DecodeEncode | tinysoul/infra/continuation.py:104-131 | decoding the UTF-8 of any text gives the text back |
| Base64Url.ReadWritten | tinysoul/infra/continuation.py:105-128 | unpadded base64url, read with `-len % 4` padding restored, gives back every byte sequence |
| Base64Url.WriteShape | tinysoul/infra/continuation.py:105-105 | the encoded part uses only the URL alphabet, never a dot or padding, and its length grows with the body |
| JsonReader.LoadsDumps | tinysoul/infra/json/codec.py:43-46 | loading the canonical text of a value, floats included, gives the value back |
| JsonReader.NothingFollows | tinysoul/infra/continuation.py:131-131 | a text loads as the value it starts with exactly when nothing but space follows |
| Continuation.DecodeEncoded | tinysoul/infra/continuation.py:85-180 | a token decodes to the position it was made from exactly under its own owner, operation, reference and an equal binding; under any other it is a mismatch |
| Continuation.SameValueExactly | tinysoul/infra/continuation.py:147-159 | the check takes two bindings for equal exactly when they agree up to the type of their numbers and hold no NaN, unless NaN is one shared object |
| Continuation.OwnBindingAccepted | tinysoul/infra/continuation.py:147-159 | a binding passes the check against itself exactly when it holds no NaN or that NaN is shared |
| Continuation.SameValueIsEquality | tinysoul/infra/continuation.py:147-159 | when all numbers are integers, the bindings the token check takes for equal are equal |
| Continuation.NumberBindingsCollide | tinysoul/infra/continuation.py:147-159 | otherwise it accepts other bindings: 1, true and 1.0 |
| PageSize.TokenMonotone | tinysoul/infra/continuation.py:92-107 | a position with larger numbers and as long a digest never has a shorter token |
| Paging.GreedyMaximal | tinysoul/infra/continuation.py:232-264 | a whole-item page ends where one more item no longer fits, or at the item limit or the end |
| Paging.CutSizeMonotone | tinysoul/infra/continuation.py:310-343 | short of the item's end, a longer cut never makes a smaller page |
| Paging.LastFitIsLargest | tinysoul/infra/continuation.py:310-343 | the reference cut is the largest fitting one below a bound |
| Paging.SearchDone | tinysoul/infra/continuation.py:310-349 | when the binary search ends, what it remembers is the best cut, or there is none |
| Paging.ContinueFragment | tinysoul/infra/continuation.py:287-349 | the fragment search returns the page of the best cut, or the digest, range or budget failure; `ChangedContentIsRefused` says when it is the digest |
| Paging.ContinueFrom | tinysoul/infra/continuation.py:220-284 | the page loop returns the greedy page or hands over to a fragment; its last size check never fires |
| Paging.ContinueJsonSequence | tinysoul/infra/continuation.py:183-284 | one call's page or failure, for every input and in the order of the checks; `StaleTokens` says what these are for tokens over other content |
| PageChain.ReadableExactlyWhenProper | tinysoul/infra/continuation.py:206-210 | pages can be read back for every content exactly when the field names do not collide |
| PageChain.PageLoadsBack | tinysoul/infra/continuation.py:362-378 | every page is an object in canonical form: its text loads back as the page |
| PageChain.TakesBackExactly | tinysoul/infra/continuation.py:147-159 | a query follows its own tokens exactly when its binding holds no NaN of its own |
| PageChain.OwnNaNStopsTheChain | tinysoul/infra/continuation.py:147-159 | otherwise its first token is refused as a mismatch |
| PageChain.CutCovers | tinysoul/infra/continuation.py:266-349 | a page shows exactly the content between its position and the next one, and fits the budget |
| PageChain.Progress | tinysoul/infra/continuation.py:211-349 | following a token leaves fewer items, or the same item with fewer characters |
| PageChain.RestReassembled | tinysoul/infra/continuation.py:211-349 | from any position of the chain, the rest of the item and all later items come out once and in order |
| PageChain.ChainReproducesItems | tinysoul/infra/continuation.py:183-349 | the whole chain from no token reproduces the canonical texts of all items, each once, in order |
| PageChain.NextCharacterFits | tinysoul/infra/continuation.py:310-349 | a stated size always has room for one more character of an item |
| PageChain.BudgetSuffices | tinysoul/infra/continuation.py:344-349 | with that budget a position is refused for size exactly at the very end of an item, where no page leads |
| PageChain.ChainNeverTooSmall | tinysoul/infra/continuation.py:183-349 | with any budget from that size up the chain ends, every page fits and the items are reproduced |
| StaleTokens.ChangedContentIsRefused | tinysoul/infra/continuation.py:206-217 | over other items, a token for a place inside an item is refused as changed content exactly when that item is there with another text, and as out of range exactly when it is gone; never as anything else |
| StaleTokens.GoodTokenShowsThePresent | tinysoul/infra/continuation.py:211-349 | a token that is still good shows exactly the present content from its place on |
| StaleTokens.PageKeepsLimits | tinysoul/infra/continuation.py:194-284 | whatever the token, a page has at most the items asked for and its text fits the budget |
| StaleTokens.AcceptedIsSealed | tinysoul/infra/continuation.py:109-180 | every accepted token is a version, a body and the digest of that body, and the body names this owner, operation, reference, an equal binding and the position |
| StreamAccounting.GapIsExact | tinysoul/agent/observation/observations.py:59-74 | in an accounting of the accepted records a gap counts exactly those in its interval |
| Observations.OfferKeeps | tinysoul/agent/observation/observations.py:149-185 | an offer keeps the limits, the order and the accounting, whatever it drops |
| Observations.StepKeeps | tinysoul/agent/observation/observations.py:109-202 | every step keeps the limits, the byte sum, the order, the accounting and the wake-up of a waiting reader |
| Observations.RunKeeps | tinysoul/agent/observation/observations.py:109-202 | so does every run |
| Observations.RunAccountsForEveryRecord | tinysoul/agent/observation/observations.py:149-185 | over every run without a discarding close: read, then pending gap, then queue stand for the accepted records, in order, each once |
| Observations.RunGapsAreExact | tinysoul/agent/observation/observations.py:179-185 | each gap's count is the number of accepted records of its interval, and no read record lies inside one |
| StreamLoss.OfferExactly | tinysoul/agent/observation/observations.py:149-185 | an offer is ignored exactly when closed or not selected; otherwise the fewest oldest records go, in one gap, and the new one is queued, or lost last if it alone exceeds the budget |
| StreamLoss.DeadLoopClosesStream | tinysoul/agent/observation/observations.py:187-198 | an offer that finds the reader's loop gone closes the stream |
| StreamLoss.NothingLostWithinLimits | tinysoul/agent/observation/observations.py:149-177 | a run whose offers all fit together never has or yields a gap |
| StreamLoss.FinishExactly | tinysoul/agent/observation/observations.py:140-147 | a plain close keeps everything pending, a discarding one leaves nothing |
| Subscriptions.NewGap | tinysoul/agent/observation/observations.py:64-74 | the gap constructor refuses exactly impossible intervals |
| Subscriptions.ObservationSubscription.Drop | tinysoul/agent/observation/observations.py:179-185 | a drop extends the one gap and its constructor cannot raise |
| Subscriptions.ObservationSubscription.MakeRoom | tinysoul/agent/observation/observations.py:149-177 | the fewest oldest records go that make room for the new one |
| Subscriptions.ObservationSubscription.Offer | tinysoul/agent/observation/observations.py:149-177 | the object's offer is the step, keeps the invariant, and costs the fewest oldest records that make room |
| Subscriptions.ObservationSubscription.Take | tinysoul/agent/observation/observations.py:109-128 | a read yields the gap first, then the oldest record, stops when closed, or waits when there is nothing |
| Subscriptions.ObservationSubscription.Finish | tinysoul/agent/observation/observations.py:140-147 | a close ends the stream, discarding what is pending only when asked |
| Subscriptions.ObservationSubscription.Wake | tinysoul/agent/observation/observations.py:199-202 | the scheduled wake-up clears its mark and sets the event |
| Subscriptions.ObservationSubscriptions.Subscribe | tinysoul/agent/observation/observations.py:217-242 | a subscription is added unless closed or at the limit |
| Subscriptions.ObservationSubscriptions.Write | tinysoul/agent/observation/observations.py:252-276 | one sequence number goes to every subscription, strictly increasing for each |
| AsyncLock.RunKeeps | tinysoul/infra/concurrency.py:20-56 | over every interleaving with cancellation at any wait: a writer is alone, and an unwoken sleeper still has reason to sleep |
| AsyncLock.RunFromIdle | tinysoul/infra/concurrency.py:20-56 | from the idle lock every run leaves a writer alone and nobody asleep without a reason |
| AsyncLock.StepMovesOneTask | tinysoul/infra/concurrency.py:29-56 | a step moves its own task only, which leaves exactly by a release or a cancelled wait; others keep their place, at most woken |
| AsyncLock.FreeLockHasARunnableWaiter | tinysoul/infra/concurrency.py:29-56 | with no holder every waiting writer, or else every waiting reader, is awake and would get in |
| AsyncLock.WritersAreNotOvertaken | tinysoul/infra/concurrency.py:29-40 | while a writer waits no reader enters |
| AsyncLock.AsyncReadWriteLock.LookAsReader | tinysoul/infra/concurrency.py:30-35 | the counters' guard decides as the task phases do |
| AsyncLock.AsyncReadWriteLock.LookAsWriter | tinysoul/infra/concurrency.py:42-52 | likewise for a writer, which wakes everyone as it enters |
| AsyncLock.AsyncReadWriteLock.CancelWait | tinysoul/infra/concurrency.py:42-52 | a cancelled wait leaves the counters as if it had never waited |
| ReentrantLock.RunKeeps | tinysoul/infra/concurrency.py:59-134 | over every interleaving a writer is exclusive but for its own reads, and no thread sleeps through its chance |
| ReentrantLock.DepthsBalance | tinysoul/infra/concurrency.py:85-134 | over every run each thread holds exactly what it has entered and not given back, on either side |
| ReentrantLock.UpgradesDeadlock | tinysoul/infra/concurrency.py:110-122 | two readers that both ask to write wait for ever, whatever the others do |
| ReentrantLock.UpgradesAreReachable | tinysoul/infra/concurrency.py:85-122 | two read and two write acquisitions lead from a free lock to that deadlock |
| ReentrantLock.StuckExactly | tinysoul/infra/concurrency.py:85-134 | a lock whose holders all wait with nobody woken is exactly one without writer, with two readers or more, all asleep waiting to write |
| ReentrantLock.ReadWriteLock.LookAsReader | tinysoul/infra/concurrency.py:85-94 | one turn of the acquiring loop: entered exactly when nobody else writes or the thread already reads |
| ReentrantLock.ReadWriteLock.ReleaseRead | tinysoul/infra/concurrency.py:96-108 | a release is refused exactly when the thread does not read |
| ReentrantLock.ReadWriteLock.LookAsWriter | tinysoul/infra/concurrency.py:110-122 | entered exactly when the thread writes already or nobody else holds anything |
| ReentrantLock.ReadWriteLock.ReleaseWrite | tinysoul/infra/concurrency.py:124-134 | a release is refused exactly when the thread does not write |
| AsyncMailbox.RunKeeps | tinysoul/infra/concurrency.py:276-318 | over every interleaving entries leave in the order they came, none lost or doubled, and a suspended consumer with work has a wake-up set or coming |
| AsyncMailbox.AsyncMailbox.Put | tinysoul/infra/concurrency.py:285-291 | a put is refused exactly on a closed loop; a loop closing under the put lets it raise with the item queued |
| AsyncMailbox.AsyncMailbox.Look | tinysoul/infra/concurrency.py:308-318 | one locked section of a get takes the first entry or suspends |
| AsyncMailbox.AsyncMailbox.Discard | tinysoul/infra/concurrency.py:299-306 | a discard removes one entry exactly when it is there |
| SchedulerAdmission.BatchAcceptedExactly | tinysoul/agent/dispatch/scheduler.py:217-249 | a batch is accepted exactly when requests are, each is admissible, and the new identities fit the capacity; then those are queued once each in order |
| SchedulerAdmission.DailyReflectionIsRefused | tinysoul/agent/dispatch/scheduler.py:251-262 | a batch with a reflection of a whole day in it is refused whole |
| SchedulerAdmission.SubmitExact | tinysoul/agent/dispatch/scheduler.py:217-249 | an accepted batch keeps the invariant exactly when no identity lingers from an earlier request |
| SchedulerAdmission.EvictionKeeps | tinysoul/agent/dispatch/scheduler.py:323-327 | the oldest completion is always still known and done, so forgetting it never misses, and it keeps the invariant |
| SchedulerAdmission.PublishKeeps | tinysoul/agent/dispatch/scheduler.py:323-327 | delivering a result and forgetting what exceeds the limit keeps the invariant |
| SchedulerKeeps.BindTurnExact | tinysoul/agent/handles.py:339-349 | binding a turn keeps the invariant exactly while the request's result is undecided; `BindingHarms` is what it costs otherwise |
| SchedulerKeeps.CheckKeeps | tinysoul/agent/handles.py:351-357 | a publication's identity check never refuses a result of a good state |
| SchedulerKeeps.CancelKeeps | tinysoul/agent/dispatch/scheduler.py:308-317 | cancelling keeps the invariant, queued or started |
| SchedulerKeeps.CloseNextKeeps | tinysoul/agent/dispatch/scheduler.py:286-306 | each step of a close keeps the invariant |
| SchedulerKeeps.FirstEntry | tinysoul/agent/dispatch/scheduler.py:375-385 | the first entry is a queued handle's own request, or the exit with nobody queued |
| SchedulerRuns.StepExact | tinysoul/agent/dispatch/scheduler.py:199-339 | from a good state a step leads to a good state exactly when it is not one of the two races; `HarmExactly` is the same about what goes wrong |
| SchedulerRuns.RunKeeps | tinysoul/agent/dispatch/scheduler.py:199-494 | every run without those races stays good |
| SchedulerRuns.QueueIsConserved | tinysoul/agent/dispatch/scheduler.py:199-249 | in every such state the waiting entries are exactly the queued handles' requests, once each, in acceptance order, within capacity |
| SchedulerRuns.ServedInOrder | tinysoul/agent/dispatch/scheduler.py:374-385 | the loop takes the request accepted first of those queued, executes it unless it was asked to stop, and the others keep their order |
| SchedulerRuns.ExitLeavesNobodyQueued | tinysoul/agent/dispatch/scheduler.py:375-385 | the loop ends on an exit only with nobody queued, and never on a stray entry |
| SchedulerRuns.ResultsBalance | tinysoul/agent/dispatch/scheduler.py:319-339 | an identity's acceptances are its results plus the one still owed: exactly one each, whoever decides it |
| SchedulerRuns.CloseSettlesEverything | tinysoul/agent/dispatch/scheduler.py:286-306 | after a completed close every accepted request has its one result, naming it and its turn |
| SchedulerRuns.ResultsAreFinal | tinysoul/agent/handles.py:351-362 | a result never changes while its handle is retained |
| SchedulerRuns.RetainedBatchIsIdempotent | tinysoul/agent/dispatch/scheduler.py:225-249 | an equal resubmission of retained requests is accepted and changes nothing |
| SchedulerRuns.ResubmissionChangesNothing | tinysoul/agent/dispatch/scheduler.py:225-249 | submitting an accepted batch again returns the same handles |
| SchedulerEndings.StepDecides | tinysoul/agent/dispatch/scheduler.py:286-339 | for every step: an undecided request is decided exactly by its dispatch, its cancellation while queued, its cancelled entry being taken, or a close reaching it, with exactly that ending; a decided one stays so |
| SchedulerEndings.EveryResultWasDecided | tinysoul/agent/dispatch/scheduler.py:286-494 | every result of a run was given, with this ending and turn, by such a step of the run |
| SchedulerEndings.DecisionStands | tinysoul/agent/dispatch/scheduler.py:319-339 | over every run through which the request is known, its result is the one first decided |
| SchedulerEndings.DispatchedEndingIsDelivered | tinysoul/agent/dispatch/scheduler.py:455-494 | what the dispatch saw is what the request ends with |
| SchedulerEndings.EvictionForgetsOldest | tinysoul/agent/dispatch/scheduler.py:325-327 | only the oldest completions are forgotten, and only as many as exceed the limit |
| SchedulerForward.CloseKeepsItsEnding | tinysoul/agent/dispatch/scheduler.py:286-306 | a close goes on with the ending it was called with |
| SchedulerForward.NothingRunsAfterFailure | tinysoul/agent/dispatch/scheduler.py:387-494 | after a dispatch that raises no request is executed, whatever else happens |
| SchedulerForward.DispatchEndsLoopExactly | tinysoul/agent/dispatch/scheduler.py:455-494 | a dispatch ends the loop exactly when it raises |
| SchedulerForward.ExitAsksEveryone | tinysoul/agent/dispatch/scheduler.py:199-208 | an exit asks every request to stop that still can be |
| SchedulerForward.CancelAsks | tinysoul/agent/dispatch/scheduler.py:308-317 | after a cancellation that still can be answered the request has been asked to stop |
| SchedulerForward.CloseAsks | tinysoul/agent/dispatch/scheduler.py:286-306 | a cancelling close asks the request it reaches to stop if that still can be, a failing one asks nobody |
| SchedulerForward.NothingStartsAfterExit | tinysoul/agent/dispatch/scheduler.py:199-208 | over every run, once an exit was requested no further request is executed; what the loop still takes it settles as cancelled |
| SchedulerForward.StepGoesForward | tinysoul/agent/handles.py:317-362 | over every step a known handle keeps its request, its turn once bound, its result, and that it was asked to stop |
| SchedulerCosts.HarmExactly | tinysoul/agent/dispatch/scheduler.py:199-339 | from a good state exactly the two races strand a request, let its publication be taken off the table, have it refused, or give it a result with the wrong turn |
| SchedulerCosts.RunsAreUnharmed | tinysoul/agent/dispatch/scheduler.py:199-494 | in every run without them no request is adrift and none of that is about to happen |
| SchedulerCosts.StaleEntryStrands | tinysoul/agent/dispatch/scheduler.py:308-339 | accepted again while its old publication is registered, a request is left adrift by the cancellation that answers true |
| SchedulerCosts.StaleCallerUnregisters | tinysoul/agent/dispatch/scheduler.py:319-339 | accepted again while a caller of the old publication has not resumed, its new publication can be taken off the table |
| SchedulerCosts.UnregisteredIsDoubled | tinysoul/agent/dispatch/scheduler.py:319-339 | the next completion then starts a second publication, which is refused once the first has delivered |
| SchedulerCosts.BindingHarms | tinysoul/agent/handles.py:339-362 | a turn bound late has the publication refused before its check, and a result without the turn after it |
| SchedulerCosts.AdriftForever | tinysoul/agent/dispatch/scheduler.py:199-494 | over every run that neither cancels it nor reaches it in a close, an adrift request stays undecided with nothing to decide it |
| SchedulerCosts.CloseSettlesAdrift | tinysoul/agent/dispatch/scheduler.py:286-306 | a close starts a publication for it that passes its check and delivers |
| SchedulerCosts.CancelSettlesAdrift | tinysoul/agent/dispatch/scheduler.py:308-317 | so does a cancellation exactly while it counts as queued, without a turn; once started it stays adrift |
| SchedulerRaces.LateTurnLeavesAdrift | tinysoul/agent/handles.py:339-362 | a run from the start in which a turn bound after a close decided the result leaves the request adrift, loop and close over |
| SchedulerRaces.ResubmissionLeavesAdrift | tinysoul/agent/dispatch/scheduler.py:308-339 | a run from the start in which an identity accepted again beside its old publication is cancelled and left adrift, still counting as queued |
| RootScheduler.RootScheduler.SubmitBatch | tinysoul/agent/dispatch/scheduler.py:217-249 | all or nothing; accepted, each request answers with its own handle |
| RootScheduler.RootScheduler.RequestExit | tinysoul/agent/dispatch/scheduler.py:199-208 | the first exit cancels every handle and queues behind all work; a second changes nothing |
| RootScheduler.RootScheduler.BeginFinish | tinysoul/agent/dispatch/scheduler.py:319-339 | the first finisher starts the publication, later ones join it, and one that is over is taken off the table at once |
| RootScheduler.RootScheduler.CancelRequest | tinysoul/agent/dispatch/scheduler.py:308-317 | a queued request leaves the mailbox and starts finishing; the answer says whether it could be cancelled |
| RootScheduler.RootScheduler.Publish | tinysoul/agent/dispatch/scheduler.py:323-327 | the result is set and at most the limit of completions is retained |
| RootScheduler.RootScheduler.TakeNext | tinysoul/agent/dispatch/scheduler.py:374-453 | the loop stops only on an exit, and then nobody is queued |
| RootScheduler.RootScheduler.DispatchResume | tinysoul/agent/dispatch/scheduler.py:455-494 | after the execution an undecided request gets exactly its ending and turn, and the loop ends exactly if the dispatch raises |
| DottedPaths.JoinOfSplit | tinysoul/infra/config/environment.py:348-348 | splitting a key at its dots and joining the parts gives the key |
| DottedPaths.OverlapIsPrefix | tinysoul/kernel/registration.py:274-275 | two scopes overlap exactly when one's parts begin the other's |
| DigitClass.AsciiIndex | tinysoul/infra/config/environment.py:352-380 | a part of ASCII digits is the index its decimal number names |
| DigitClass.OtherScripts | tinysoul/infra/config/environment.py:352-380 | another script's three is index three, and a superscript two is an index `int` refuses |
| PluginOrder.OrderExcludesCycles | tinysoul/kernel/registration.py:350-372 | a recipe with a build order has no dependency cycle |
| PluginOrder.OwnNeedIsCycleExactly | tinysoul/kernel/registration.py:350-369 | requiring what one provides oneself is a cycle exactly where that is not allowed |
| PluginRegistration.Resolver.Visit | tinysoul/kernel/registration.py:350-369 | a visit ends with the plugin placed after everything it waits for, or names a real cycle or undeclared service |
| PluginRegistration.Resolve | tinysoul/kernel/registration.py:346-372 | resolution succeeds exactly without undeclared requirements and cycles, and lists every plugin once, providers first |
| PluginRegistration.CheckSections | tinysoul/kernel/registration.py:278-289 | sections pass exactly when well formed and pairwise apart |
| PluginRegistration.ClaimOffers | tinysoul/kernel/registration.py:321-324 | a plugin's services are claimed exactly when nobody owns them yet |
| PluginRegistration.CheckSettings | tinysoul/kernel/registration.py:339-345 | settings facades pass exactly when each has one owner |
| PluginRegistration.Declare | tinysoul/kernel/registration.py:295-345 | a recipe is accepted exactly when well declared, and its table says exactly who owns what |
| DeclaredSections.DeclaredSectionsAreApart | tinysoul/kernel/registration.py:268-289 | in an accepted recipe no two sections, the reserved ones included, overlap, and none has a numeric part |
| DeclaredSections.DeclaredSectionsAreIsolated | tinysoul/kernel/registration.py:268-289 | so no section's tree depends on the writes that reach another |
| PluginRegistration.Define | tinysoul/kernel/registration.py:292-372 | plugins are accepted exactly when well declared and buildable, in build order |
| PluginRegistration.ResolveProfile | tinysoul/kernel/registration.py:521-573 | a profile resolves likewise, except that requiring one's own service is allowed |
| PluginRegistration.Select | tinysoul/kernel/registration.py:63-87 | dependencies are handed over exactly when each is there and none is listed twice |
| PluginRegistration.NeedsAreAvailable | tinysoul/kernel/registration.py:412-413 | in a build order every requirement is available when its plugin's turn comes |
| PluginRegistration.Build | tinysoul/kernel/registration.py:401-441 | with generations as declared, the build succeeds exactly when no plugin lists a requirement twice, and hands each what it requires |
| PluginRegistration.DoubledNeedIsOverlooked | tinysoul/kernel/registration.py:295-372 | a recipe with a doubled requirement that meets every condition of a build but that one |
| ConfigTree.GetAfterSet | tinysoul/infra/config/environment.py:340-399 | every read after a dotted write: the value below it, the merged subtree above it, anything else unchanged |
| ConfigTree.SetThenGet | tinysoul/infra/config/environment.py:340-399 | a successful write reads back |
| ConfigTree.SetSucceedsExactly | tinysoul/infra/config/environment.py:348-399 | a write succeeds exactly when nothing it passes is a plain value and every part that meets a list is an index |
| ConfigTree.PutGrowsExactly | tinysoul/infra/config/environment.py:372-399 | a list grows exactly up to the index written |
| ConfigTree.SetDotted | tinysoul/infra/config/environment.py:348-399 | the descent part by part performs that write, or fails as it does |
| ConfigSections.WriteElsewhere | tinysoul/infra/config/environment.py:262-280 | a write outside a section leaves it unchanged |
| ConfigSections.WriteInside | tinysoul/infra/config/environment.py:273-280 | a write below a section is that write inside it |
| ConfigSections.SectionAgreement | tinysoul/infra/config/environment.py:251-281 | for all writes, a section's tree is the section of the effective tree exactly when, after the last write to an ancestor, it is assigned or its later writes make the same of what the ancestor holds there as of its own earlier tree |
| ConfigSections.AgreementWithoutAncestors | tinysoul/infra/config/environment.py:251-281 | without a write to an ancestor the two agree exactly unless the section starts as a numeric child and is never assigned |
| ConfigSections.AncestorLast | tinysoul/infra/config/environment.py:251-281 | when nothing reaches the section after the last ancestor, they agree exactly when that holds the section's own tree, or nothing and that is empty |
| ConfigSections.SectionSucceeds | tinysoul/infra/config/environment.py:251-281 | without a write to an ancestor, a section given by tables or named children succeeds whenever the whole fold does, and agrees with it |
| ConfigSections.NumericChildDisagrees | tinysoul/infra/config/environment.py:348-366 | the smallest disagreement |
| ConfigSections.AncestorDisagrees | tinysoul/infra/config/environment.py:258-280 | a table given for `llm` is in the effective tree at `llm.providers` and not in that section's tree |
| ConfigSections.AncestorHidesFailure | tinysoul/infra/config/environment.py:258-280 | writing an ancestor can make the whole fold succeed where the section's own fold fails |
| ConfigSections.SectionsAreNamed | tinysoul/kernel/registration.py:282-285 | plugin sections never have a numeric part |
| ConfigSections.SectionsAreIsolated | tinysoul/infra/config/environment.py:258-280 | sections that do not overlap never see each other's writes |
| ConfigSources.EffectiveTree | tinysoul/infra/config/environment.py:163-167 | the loop over sources is the fold of all writes in order, and every write no later one touches is in the tree |
| ConfigSources.LaterSourcesWin | tinysoul/infra/config/environment.py:163-167 | a write is overridden only by a write of a later source, or a later one of its own source |
| ConfigSources.LastWriteWins | tinysoul/infra/config/environment.py:163-167 | the last write of the last source that writes anything has the last word |
| ConfigSources.SectionTree | tinysoul/infra/config/environment.py:251-281 | the section loop is the fold of the writes that reach the section, and every one no later one touches is in its tree |
| ConfigSources.LaterSourcesWinInside | tinysoul/infra/config/environment.py:260-280 | the same in a section's own tree, among the writes that reach it |
| EmbeddingResponse.DistinctIsPermutation | tinysoul/infra/model_services/service.py:177-209 | as many distinct positions as texts are all the positions |
| EmbeddingResponse.Parse | tinysoul/infra/model_services/service.py:175-213 | a response is accepted exactly when it has one fitting entry per text, and vector i is the one given for text i |
| EmbeddingFile.ReadAscii | tinysoul/infra/model_services/vectors.py:111-125 | a string escaped to ASCII, surrogate pairs included, is read back by the JSON reader |
| EmbeddingFile.FileReadsBack | tinysoul/infra/model_services/vectors.py:111-150 | the text of a cache file within the limit loads as exactly the entries it was written from, in order |
| EmbeddingFile.LoadedIsUnique | tinysoul/infra/model_services/vectors.py:119-150 | whatever the file's text, a key is loaded at most once |
| EmbeddingFile.LoadedWholeOrNothing | tinysoul/infra/model_services/vectors.py:119-150 | a file that is too long, no table, or has one malformed entry loads as nothing |
| EmbeddingCache.MissingIsTheRest | tinysoul/infra/model_services/vectors.py:76-77 | the texts to embed are exactly the uncached ones, once each |
| EmbeddingCache.TrustedExactly | tinysoul/infra/model_services/vectors.py:74-75 | a loaded entry is trusted exactly when it is stored under its own digest and has the right dimension |
| EmbeddingCache.FilledIsSound | tinysoul/infra/model_services/vectors.py:76-85 | embedding the missing texts leaves a cache that holds every text with its own vector |
| EmbeddingCache.TouchedOrder | tinysoul/infra/model_services/vectors.py:101-102 | this call's texts end up last in their order, behind everything else in its old order |
| EmbeddingCache.UsedBoundsText | tinysoul/infra/model_services/vectors.py:103-111 | the running size bounds the length of the written text |
| EmbeddingCache.KeptWithinBudget | tinysoul/infra/model_services/vectors.py:103-111 | what is kept keeps its order and fits the budget |
| EmbeddingCache.DroppedOnlyWithoutRoom | tinysoul/infra/model_services/vectors.py:105-111 | an entry is left out exactly when it does not fit after all more recent kept ones |
| EmbeddingCache.WrittenIsLoaded | tinysoul/infra/model_services/vectors.py:111-150 | the written text is within the limit, and loading it gives the kept entries back |
| EmbeddingIndex.CallIsTransparent | tinysoul/infra/model_services/vectors.py:70-100 | from a sound cache a call scores as if it had embedded everything afresh |
| EmbeddingIndex.EveryCallIsTransparent | tinysoul/infra/model_services/vectors.py:58-117 | so does every call after any sequence of calls, on any sessions, served, failed or cancelled |
| EmbeddingIndex.TransparentFromNothing | tinysoul/infra/model_services/vectors.py:58-117 | in particular from an empty cache directory |
| EmbeddingIndex.LaterCallEmbedsDropped | tinysoul/infra/model_services/vectors.py:74-112 | a later call embeds a text again exactly when the earlier one did not keep it |
| EmbeddingIndex.RepeatEmbedsNothing | tinysoul/infra/model_services/vectors.py:74-112 | within the budget a repeated call embeds none of its documents |
| EmbeddingIndex.DimensionsAgree | tinysoul/infra/model_services/vectors.py:91-96 | the check of cached dimensions never fails |
| EmbeddingIndex.EndingsExactly | tinysoul/infra/model_services/vectors.py:34-117 | a caller is served exactly when nothing fails and no cancellation arrives; a file is left exactly when the cancellation, if any, came too late; the next session is tried exactly after a recoverable call |
| EmbeddingIndex.EmbeddingIndex.EmbedMissing | tinysoul/infra/model_services/vectors.py:77-85 | the batches cover each missing text once, in order, none empty or too large, and fail exactly at the failing or cancelled one |
| EmbeddingIndex.EmbeddingIndex.Keep | tinysoul/infra/model_services/vectors.py:103-110 | the loop from the most recent entry back keeps what the specification keeps |
| EmbeddingIndex.EmbeddingIndex.Attempt | tinysoul/infra/model_services/vectors.py:58-117 | an attempt scores from its cache; where a failure or a cancellation falls says exactly how it ends and whether it leaves a new file |
| EmbeddingIndex.EmbeddingIndex.Similarities | tinysoul/infra/model_services/vectors.py:34-56 | sessions are tried in order, moving on exactly after a recoverable failure, and the last one tried alone decides the answer and the file |
| BackgroundPatches.CheckPatch | tinysoul/kernel/context/background.py:217-249 | a patch passes exactly when applicable; a problem is a true reason; passing projects the loaded refs |
| BackgroundPatches.CheckPatches | tinysoul/kernel/context/background.py:261-280 | each patch is judged against what the passing ones before it leave loaded |
| BackgroundHeap.OpenIsGood | tinysoul/kernel/context/background.py:478-493 | a heap opens good exactly when its defaults have content |
| BackgroundHeap.RefreshKeeps | tinysoul/kernel/context/background.py:350-361 | a refresh keeps guarded refs loaded, loaded refs loadable, and evictable exactly the unguarded |
| BackgroundHeap.SelectKeeps | tinysoul/kernel/context/background.py:362-383 | a passing selection fails only for unreadable content, and leaves the projected refs |
| BackgroundHeap.PrepareKeeps | tinysoul/kernel/context/background.py:346-383 | prepared heaps are good |
| BackgroundHeap.CheckPredictsPrepare | tinysoul/kernel/context/background.py:261-388 | applying exactly the patches the check passes never fails and ends with the projected loaded set |
| BackgroundOrigins.SelectedExactly | tinysoul/kernel/context/background.py:365-383 | a selection leaves what it does not evict as it was and in its place, and adds what it newly loads behind it in the order asked for, as selected entries unless they are defaults |
| BackgroundOrigins.RefreshedExactly | tinysoul/kernel/context/background.py:350-361 | a refresh reads everything again, defaults first, then the rest in its old order, which keeps counting as coming from where it came from |
| BackgroundEviction.VictimsAreFirst | tinysoul/kernel/context/background.py:195-215 | the victims are the first candidates, enough but not one too many |
| BackgroundEviction.EvictionIsExact | tinysoul/kernel/context/background.py:195-215 | nothing guarded goes, the rest stays, the last victim was needed, and a missed target leaves only demoted defaults evictable |
| BackgroundEviction.EvictedInOrder | tinysoul/kernel/context/background.py:195-215 | an entry goes only if every evictable selected one does before an automatic one, and every older evictable one of its own source |
| BackgroundEviction.VictimsInOrder | tinysoul/kernel/context/background.py:195-215 | the refs are reported in that order |
| BackgroundEviction.EveryHeapIsGood | tinysoul/kernel/context/background.py:323-431 | every heap reachable by updates, refreshes and reclaims is good |
| BackgroundEviction.BudgetMetExactly | tinysoul/kernel/context/background.py:195-215 | the target is met or nothing evictable is left, exactly unless demoted defaults stand in the way |
| BackgroundEviction.RefreshDemotes | tinysoul/kernel/context/background.py:456-470 | a refresh demotes exactly the loaded entries of default origin that are no longer defaults |
| BackgroundEviction.DemotedDefaultIsSkipped | tinysoul/kernel/context/background.py:195-215 | the smallest heap whose only evictable entry no budget evicts |
| HeapSegment.HeapSegment.Prepare | tinysoul/kernel/context/background.py:346-383 | preparing is the fold of the updates, and touches nothing |
| HeapSegment.HeapSegment.EvictSource | tinysoul/kernel/context/background.py:201-208 | one pass evicts the first entries of its source that reach the target |
| HeapSegment.HeapSegment.EvictForBudget | tinysoul/kernel/context/background.py:195-215 | the two passes evict exactly the victims, selected before automatic and older before newer, and report their refs in that order and their exact cost |
| TurnIdentity.DayReadsBack | tinysoul/infra/time.py:23-36 | a written day reads back |
| TurnIdentity.DayWritesBack | tinysoul/infra/time.py:23-36 | a day that can be read has only that text |
| TurnIdentity.IdentityReadsBack | tinysoul/kernel/identity.py:27-41 | a written identity reads back |
| TurnIdentity.IdentityWritesBack | tinysoul/kernel/identity.py:27-45 | an identity that can be read has only that text: no leading zeros, ASCII digits |
| TurnAllocation.MarkReadsBack | tinysoul/agent/lifecycle/day.py:71-85 | the persisted mark reads back as the identity it was written for |
| TurnAllocation.NextIsLater | tinysoul/agent/lifecycle/day.py:65-83 | an allocated identity lies after the mark |
| TurnAllocation.NumberedConsecutively | tinysoul/agent/lifecycle/day.py:65-95 | the identities of one active day are numbered one after the other, from one on a new day |
| TurnAllocation.FailedWrites | tinysoul/agent/lifecycle/day.py:65-95 | a failed write leaves the mark and hands nothing out, one cut off after it uses its identity up |
| TurnAllocation.IdentitiesIncrease | tinysoul/agent/lifecycle/day.py:65-95 | over every history of allocations, failed and cut-off writes and restarts the identities handed out strictly increase |
| TurnAllocation.AgentDayCoordinator.AllocateTurn | tinysoul/agent/lifecycle/day.py:65-95 | the mark is persisted before its identity is handed out |
| KnownTexts.Utf8Examples | tinysoul/infra/continuation.py:104-104 | one character of each length, as bytes |
| KnownTexts.Base64Examples | tinysoul/infra/continuation.py:105-105 | the URL alphabet, unpadded |
| KnownTexts.JsonExamples | tinysoul/infra/json/codec.py:43-46 | lists and tables without spaces, and the escapes |
| KnownTexts.IdentityExample | tinysoul/kernel/identity.py:27-41 | a day and an identity as text |
| KnownTexts.CalendarExamples | tinysoul/infra/time.py:23-36 | leap years and the lengths of months |
| KnownTexts.CostExample | tinysoul/kernel/context/background.py:206-206 | the cost of one entry |

## Left out

- SHA-256 is a function parameter with 64 hexadecimal digits; only the embedding theorems need it free of collisions, and only on the texts in use.
- Lone surrogates in strings, and integers or sequences beyond Python's 4300-digit conversion limit, are not modelled.
- The rounding of a decimal text to a float, `repr`, and whether a NaN read from a token is the object in the binding are parameters.
- JSON objects are kept as key-sorted members, so insertion order of a page's fields is not observable.
- SchedulerRuns.StepExact: handles are values identified by their request identity, one close runs at a time, and the mailbox is its list of entries (its wake-ups are `AsyncMailbox`).
- The scheduler's generation leases, request lock, trap, outcomes and observation emission; activity is the state the scheduler itself sets and reads, without the inbox's waiting state.
- `aclose` and `remove` of a subscription, beyond the discarding close they perform.
- `JoinedOperations` appears only as the rule that a joined caller resumes after the publication it joined is over, and in the embedding index as the points where a cancellation is noticed.
- `AsyncResourceScope`, the Agent start/stop facade, CLI, endpoint, frontends, HTTP clients and process control: plumbing around these cores.
- ConfigSections.SectionSucceeds: writes to an ancestor are excluded, because there the claim is false (`AncestorHidesFailure`); `SectionAgreement` covers them.
- ConfigSections.SectionAgreement: sections with a numeric part are not covered, because a list accepts other spellings of an index that the section's prefix test does not see; plugin sections have none (`SectionsAreNamed`).
- ConfigTree.GetAfterSet: trees are values, so that a source's own table or list is reached into by later child writes is not captured.
- The flattening of the effective tree.
- The digit tables are those of Unicode 15.1, as in Python 3.13.
- Table entry order in configuration trees.
- Parsed settings, model uses, search capabilities, context segments and trap handlers of plugins; a service value always implements its facade.
- EmbeddingIndex.EveryCallIsTransparent: an embedding is a function of provider and text, similarity is any function of two vectors, and identities of different provider spaces are assumed to have different cache files.
- EmbeddingFile.LoadedIsUnique: a file not written by the index may hold an integer too large for a float, where the source raises `OverflowError`; the model loads nothing then.
- Cosine's float arithmetic, and the retry and event reporting of an embedding request.
- BackgroundPatches.CheckPatch: a conflict names some ref in both lists, not the alphabetically first one.
- BackgroundPatches.FirstDuplicate: a doubled empty ref is reported here and not in the source, where "" means no duplicate; the decoder of a patch refuses empty refs.
- Background rendering, sealing, journals and catalog items.
- TurnAllocation.IdentitiesIncrease: one process at a time writes the mark, as the root scheduler's lease ensures.
