# FinClaw: verified core protocols and algorithms

A Dafny model of the parts of FinClaw that are protocols, arithmetic or algorithms rather than
adapters, with proofs about every input, every run or every interleaving.

| file | what it models |
|---|---|
| `Lane.dfy` | keyed concurrency lanes: slot transfer, waiters with timeouts, generations |
| `MessageQueue.dfy`, `Dedupe.dfy`, `Router.dfy` | per-session message dispatch over a queue, a duplicate filter and a lane |
| `Text.dfy`, `Calendar.dfy`, `Cron.dfy` | string operations, the Gregorian calendar, cron parsing, matching and the search for the next run |
| `Scheduler.dfy` | the table of schedules and the service that runs what is due |
| `SlidingWindow.dfy`, `RequestLimit.dfy`, `ProviderLimit.dfy` | the two sliding-window limiters |
| `CircuitBreaker.dfy` | the circuit breaker with overlapping calls |
| `KeyRotator.dfy` | API keys in turn, with cooldowns |
| `Routing.dfy`, `Selection.dfy`, `Fallback.dfy`, `RoutedRequest.dfy` | the choice of a model tier, the models that names stand for, the fallback chain, and all of them together |
| `Conversation.dfy`, `ToolExecutor.dfy`, `AgentRunner.dfy`, `Session.dfy` | paired tool calls in stored history, the agent loop, the life of a session |
| `Markdown.dfy`, `Chunking.dfy` | the two text chunkers |
| `Holdings.dfy`, `Inversions.dfy`, `Rerank.dfy`, `Spans.dfy`, `ConfigMerge.dfy`, `Includes.dfy` | derived data: holdings, reranking, span forests, merged configuration and its includes |

How the model is built: an object whose fields the source updates is a class with those fields.
Each method is proved equal to a step function on a plain value (`DoAcquire`, `DoRoute`, ...),
and the theorems are about that step function; for each main operation some of them say what it does
without naming it, from its inputs or from the run so far. Code with `await`s is cut at the `await`s: each
stretch between two of them is one step, and a run is any sequence of enabled steps, so a
theorem over runs is a theorem over all interleavings. Model calls, tool handlers, callbacks,
clocks and abort signals are arbitrary values of the run.

Some promises of the repository's comments and some expectations of its callers do not hold of its
code. Where that is so the model follows the code; lemmas give a failing input and say exactly when
the promise holds:

- slots held at a generation reset are lost (`Lane.ResetStrandsSlot`, `Lane.RecoveryCondition`);
- the entry that a full queue drops as the old one need not be the oldest
  (`MessageQueue.DropOldMayEvictNewest`, `MessageQueue.EvictsOldestIff`);
- the duplicate filter keeps entries past their time to live (`Dedupe.CheckIgnoresExpiry`,
  `Router.DuplicateWindow`);
- without a time to live, a key that was evicted while its call was on is called twice, and then the
  wrong call ends its sharing (`Dedupe.EvictedCallRunsTwice`, `Dedupe.SharingIsExactIff`);
- a schedule whose expression is edited during a run can store a time that the new expression never
  matches (`Scheduler.EditDuringRun`, `Scheduler.FreshAfterRunIff`, `Scheduler.AlwaysOnSchedule`);
- an open breaker does not recover by the passing of time: callers that look first never let it
  (`CircuitBreaking.LookingFirstNeverRecovers`, `CircuitBreaking.StaysOpenIff`);
- chunking of Markdown loses leading newlines (`Markdown.LosslessIff`), counts them in the lines of
  the first chunk (`Markdown.LineNumbers`), and without an overlap ignores its limit
  (`Markdown.ZeroOverlapBreaksBound`, `Markdown.SizeBoundIff`);
- the fence that closes a cut code block comes on top of the message limit
  (`Chunking.FenceBreaksLimit`, `Chunking.AllFitIff`), and a block that is cut twice loses its
  fences (`Chunking.BlockInThreePieces`, `Chunking.AllBalancedIff`);
- a fallback entry in capitals stands for a model but counts as the lowest tier
  (`RoutedRequest.CapitalsAreDropped`, `RoutedRequest.DroppedIffCapitals`, `Selection.JudgedBelowIff`);
- a run can fail for a tool that was never given its announced retry (`AgentRunner.TwoInOneTurnFail`,
  `AgentRunner.OtherToolFails`, `AgentRunner.FailsUnforcedIff`);
- the schema of a tool is applied to the text after it was cut (`ToolExecutor.LongNumberIsRejected`,
  `ToolExecutor.LongOutputIsViolation`);
- a negative quantity can put an average cost above every price, and buys that sum to nothing put it
  below (`Holdings.NegativeQuantityBreaksAverage`, `Holdings.EmptyBuyBreaksAverage`,
  `Holdings.AverageWithinIff`);
- an including file named without a directory is taken for a directory itself
  (`Includes.BareBaseIsDirectory`);
- a request that is aborted before its first turn is answered with the previous answer
  (`AgentRunner.AbortedRepeatsAnswer`, `AgentRunner.AnswerOfRun`);
- the request limit does not reach across an eviction (`RequestLimit.EvictionForgets`,
  `RequestLimit.BoundSurvivesIff`).

## Model

| member | source | states |
|---|---|---|
| Lane.ConcurrencyLane.Acquire | packages/infra/src/concurrency-lane.ts:51-83 | grants, refuses or queues a call; the whole new state of the lane |
| Lane.ConcurrencyLane.ReleaseIfCurrent | packages/infra/src/concurrency-lane.ts:86-113 | ignores a handle of an old generation, hands the slot to the oldest waiter, or frees it |
| Lane.ConcurrencyLane.OnTimeout | packages/infra/src/concurrency-lane.ts:67-82 | takes exactly the timed-out waiter out of its key's queue |
| Lane.ConcurrencyLane.ResetGeneration | packages/infra/src/concurrency-lane.ts:116-130 | starts a generation and drops every waiter, but leaves the counts |
| Lane.MutualExclusion | packages/infra/src/concurrency-lane.ts:51-147 | in every interleaving, current handles plus slots held at earlier resets are exactly the active count, never above the limit, and callers wait only at the limit |
| Lane.GrantedAtOnce | packages/infra/src/concurrency-lane.ts:51-58 | in every reachable state a call is granted at once if and only if the key is below its limit, lost slots included |
| Lane.OutcomeIff | packages/infra/src/concurrency-lane.ts:51-83 | a call at the limit waits, last in its queue, if and only if the queue has room, and is refused if and only if it holds maxQueueSize waiters; other keys do not notice |
| Lane.GrantsAreFifo | packages/infra/src/concurrency-lane.ts:93-113 | of two calls granted for one key, the earlier call is granted first, whatever timed out in between |
| Lane.EveryCallAccountedFor | packages/infra/src/concurrency-lane.ts:51-147 | every call is either settled (granted once, refused, cleared or timed out) or waits, once, in the queue of exactly one key, the one for which its timer is armed |
| Lane.SettledForGood | packages/infra/src/concurrency-lane.ts:67-130 | the outcome of a call never changes afterwards: each waiter settles once |
| Lane.LostSlotsNeverReturn | packages/infra/src/concurrency-lane.ts:86-91 | no event gives back a slot that was held at a reset |
| Lane.RecoveryCondition | packages/infra/src/concurrency-lane.ts:116-119 | with all current handles released a key is back at zero if and only if no slot of it was held at any reset |
| Lane.DeadKey | packages/infra/src/concurrency-lane.ts:116-119 | a key whose every slot was held at a reset is never granted again |
| Lane.ResetStrandsSlot | packages/infra/src/concurrency-lane.ts:116-119 | acquire, reset, release: the run that leaves a one-slot lane stuck |
| MessageQueue.MessageQueue.Enqueue | packages/server/src/process/message-queue.ts:61-111 | evicts from a full queue, inserts by priority, reports whether the session is idle; the whole new state |
| MessageQueue.MessageQueue.Dequeue | packages/server/src/process/message-queue.ts:114-121 | takes the head of a session's queue and nothing else |
| MessageQueue.MessageQueue.MarkDone | packages/server/src/process/message-queue.ts:162-168 | the session is idle afterwards, and whether messages are left |
| MessageQueue.EnqueueKeepsOrder | packages/server/src/process/message-queue.ts:61-111 | under either policy and for every size the queue stays ordered by priority and then by arrival, and within its bound |
| MessageQueue.EnqueueConserves | packages/server/src/process/message-queue.ts:61-111 | under either policy nothing is lost but the evicted head or the refused entry; a head is evicted exactly from a full queue that has one, under policy 'old' |
| MessageQueue.EvictsOldestIff | packages/server/src/process/message-queue.ts:61-111 | policy 'old' evicts the entry that has waited longest if and only if no waiting entry has a higher priority than that one |
| MessageQueue.DropOldMayEvictNewest | packages/server/src/process/message-queue.ts:61-111 | it does not always: the queue that two calls make, of which the newer entry is evicted |
| Dedupe.Dedupe.Execute | packages/infra/src/dedupe.ts:33-59 | shares an unexpired entry, otherwise registers the key and evicts the oldest beyond the size |
| Dedupe.Dedupe.OnSettled | packages/infra/src/dedupe.ts:39-43 | without a time to live the key of a settled call is forgotten; nothing else changes |
| Dedupe.SharedUntilSettled | packages/infra/src/dedupe.ts:33-43 | without a time to live a cached key is shared at whatever time, and no more once a call of it has settled; other keys do not notice |
| Dedupe.SharedWhileFresh | packages/infra/src/dedupe.ts:33-43 | with a time to live a key is shared if and only if less than that has passed since it was registered, as long as it is cached |
| Dedupe.SharingIsExactIff | packages/infra/src/dedupe.ts:33-59 | without a time to live, over all runs of calls of these keys that start and settle in any order: every key has one call at most and is shared exactly while it is on, if and only if there are no more keys than the cache holds |
| Dedupe.EvictedCallRunsTwice | packages/infra/src/dedupe.ts:38-57 | the failing run for a cache of one: "a", "b", "a" makes two calls of "a", and when the first settles the second is no longer shared though it is still on |
| Dedupe.ExecuteKeepsNewest | packages/infra/src/dedupe.ts:33-59 | the cache is always the newest keys that were registered, up to its size |
| Dedupe.CheckIgnoresExpiry | packages/infra/src/dedupe.ts:62-64 | an entry counts as a duplicate at any later time, however long it has expired |
| Router.MessageRouter.Route | packages/server/src/process/message-router.ts:55-111 | a duplicate is dropped, otherwise the message is queued and an idle session starts; the state of queue, lane, filter and controllers |
| Router.MessageRouter.ProcessNext | packages/server/src/process/message-router.ts:113-128 | from the call up to the wait for the lane |
| Router.MessageRouter.OnProcessed | packages/server/src/process/message-router.ts:129-151 | the `finally` block: release, mark done, and the next message if there is one |
| Router.OneAtATime | packages/server/src/process/message-router.ts:55-151 | in every interleaving at most one call per session is suspended or running, it holds its lane slot, and a session without one has no message waiting |
| Router.ArrivalOrder | packages/server/src/process/message-router.ts:55-151 | the messages of a session are handled, and wait, in the order in which they arrived |
| Router.Conservation | packages/server/src/process/message-router.ts:55-151 | the admitted messages have distinct, growing ids, and every one of them is handled, in flight, pending or evicted, and exactly one of these |
| Router.ArrivalIs | packages/server/src/process/message-router.ts:55-111 | in any run, what an arriving message does: nothing if its id is among the last 1000 admitted; else it starts an idle session, or waits last, and then the oldest waiting one is evicted if there are 50; no other session notices |
| Router.CompletionIs | packages/server/src/process/message-router.ts:129-151 | in any run, what the end of a callback does: its message is handled and the oldest waiting one takes the slot at once; no other session notices |
| Router.AbortableIffRunning | packages/server/src/process/message-router.ts:126-151 | in any run a session has a controller if and only if its callback runs, and it is the one for that message |
| Router.AcquireNeverWaits | packages/server/src/process/message-router.ts:113-128 | wherever the router acquires the lane the slot is granted at once, which is why it may do so outside its `try` |
| Router.DuplicateWindow | packages/server/src/process/message-router.ts:55-70 | a message is a duplicate if and only if its id is among the last 1000 admitted |
| Router.Drains | packages/server/src/process/message-router.ts:113-151 | the callbacks of a session can always settle until the session is empty, handling in order what was in flight and pending |
| Router.AlwaysDrains | packages/server/src/process/message-router.ts:113-151 | and however they settle: after at most two steps for each message none is left to settle, and then everything has been handled in that order: nothing is stranded |
| Calendar.DateOfDayNumber | packages/server/src/automation/cron.ts:117-143 | year, month and day read back from the number of a valid date are that date |
| Calendar.DayNumberOfDate | packages/server/src/automation/cron.ts:117-143 | every day number is the number of the valid date that is read from it |
| Calendar.DaysAreCounted | packages/server/src/automation/cron.ts:117-143 | day 0 is 1 January 1970, valid dates are those of the Gregorian calendar, and each has the number after that of the day before it |
| Calendar.WeekdaysAreCounted | packages/server/src/automation/cron.ts:137-142 | day 0 was a Thursday, and the weekdays follow each other |
| Calendar.DaysSinceSunday | packages/server/src/automation/cron.ts:137-142 | the weekday is the number of days since a Sunday, 4 January 1970, modulo seven |
| Cron.ExpandField | packages/server/src/automation/cron.ts:43-100 | the error of the first bad part, or the strictly increasing in-range list of the union that the parts denote |
| Cron.ParseCron | packages/server/src/automation/cron.ts:102-114 | five fields each meeting its specification, or the count error, or the error of the first bad field |
| Cron.FieldIsDetermined | packages/server/src/automation/cron.ts:43-100 | the specification of a field admits one list only |
| Cron.PartMeans | packages/server/src/automation/cron.ts:43-84 | what `*`, `N`, `M-N`, `*/S`, `N/S` and `M-N/S` select, for all numbers in decimal; only a step of nothing and a reversed range are refused |
| Cron.FieldMeans | packages/server/src/automation/cron.ts:43-100 | a list of such parts is accepted if and only if it selects something and nothing out of range, and then holds exactly what some part selects |
| Cron.CronMeans | packages/server/src/automation/cron.ts:102-114 | five printed fields are accepted if and only if each is in its range (0-59, 0-23, 1-31, 1-12, 0-6), and each list, in the order of the text, holds what its field selects |
| Cron.LengthMeansUnrestricted | packages/server/src/automation/cron.ts:117-143 | a field is as long as its range if and only if it is unrestricted, so the tests for 31 and 7 mean what they should |
| Cron.DayRule | packages/server/src/automation/cron.ts:117-143 | the day rule as coded: the month must always allow the day; with both day fields restricted either suffices, otherwise both must allow it |
| Cron.MatchesOnDate | packages/server/src/automation/cron.ts:117-143 | for every valid date, hour, minute and offset: the expression matches that local time if and only if the minute, hour and month are selected and the day rule holds for the day and the weekday counted from a Sunday |
| Cron.NextRunAt | packages/server/src/automation/cron.ts:146-160 | the minute-stepping loop with its cutoff of 366 days |
| Cron.NextIsLeast | packages/server/src/automation/cron.ts:146-160 | the next run is the least matching whole minute strictly after the given time; none exactly when no minute of the following 366 days matches |
| Cron.MondayAtNine | packages/server/src/automation/cron.ts:146-160 | "0 9 * * 1" from the start of Monday, 1 January 2024, runs next at nine that day |
| Cron.YearlyScheduleRuns | packages/server/src/automation/cron.ts:117-160 | an expression with a weekday rule or a date that exists every year has a next run from every time, at every offset |
| Cron.AlwaysRunsIff | packages/server/src/automation/cron.ts:117-160 | and these are all: such a run always exists if and only if the weekday is restricted or a date of every year is selected |
| Cron.NeverRunsIff | packages/server/src/automation/cron.ts:117-160 | an expression has no run from any time if and only if it selects no date of any year |
| Scheduler.ScheduleTable.UpdateSchedule | packages/storage/src/schedules.ts:148-206 | the row with the patch applied, all other rows unchanged |
| Scheduler.ScheduleTable.MarkScheduleRun | packages/storage/src/schedules.ts:229-241 | the row with its last and next run, all other rows unchanged |
| Scheduler.SchedulerService.Tick | packages/server/src/automation/scheduler.ts:133-167 | the loop over the due rows: starts the idle ones, moves on the running ones |
| Scheduler.SchedulerService.RunOne | packages/server/src/automation/scheduler.ts:169-174 | from the call up to the wait for the lane |
| Scheduler.SchedulerService.TriggerNow | packages/server/src/automation/scheduler.ts:125-131 | a manual start; an unknown schedule starts nothing |
| Scheduler.SchedulerService.OnFinished | packages/server/src/automation/scheduler.ts:316-349 | the row after a run: last run, next run, failures, status, switched off at the limit |
| Scheduler.SchedulerService.OnReleased | packages/server/src/automation/scheduler.ts:378-381 | the outer `finally`: the slot and the mark of activity are given back |
| Scheduler.OneRunPerSchedule | packages/server/src/automation/scheduler.ts:133-174 | over any ticks, triggers, edits and completions at most one run per schedule is in flight and its slot was granted at once |
| Scheduler.FailureTracking | packages/server/src/automation/scheduler.ts:331-349 | the counter is the number of failures since the last success or re-enabling, and the status is active, failing or disabled exactly by that number and the limit |
| Scheduler.TickStartsOnlyDue | packages/storage/src/schedules.ts:214-226 | a tick starts a schedule only if it is enabled, not disabled, and due |
| Scheduler.TickStartsIff | packages/server/src/automation/scheduler.ts:133-174 | in a tick of any run a call of a schedule is started if and only if its row is enabled, not disabled and due, and it is idle; there is one such call, running, with the expression of the row |
| Scheduler.TickKeepsOthers | packages/server/src/automation/scheduler.ts:148-166 | a tick leaves every row alone that is not both due and still running |
| Scheduler.TriggerStartsIff | packages/server/src/automation/scheduler.ts:125-131 | a manual start starts one call if and only if the schedule is known and idle, due or not, enabled or not |
| Scheduler.RowAfterRun | packages/server/src/automation/scheduler.ts:316-349 | in any run, the whole row after a call has ended: failures counted or cleared, disabled exactly when they reach the limit, last run, next run; no other row changes |
| Scheduler.EditSetsColumns | packages/storage/src/schedules.ts:148-206 | an edit sets each column it names and keeps the others, in one row |
| Scheduler.NextRunIsInTheFuture | packages/server/src/automation/scheduler.ts:169-329 | in every run: when a run of a schedule ends and its expression was left alone since it started, the stored time lies in the future and matches the row's own expression, and there is one if that expression runs every year |
| Scheduler.FreshAfterRunIff | packages/server/src/automation/scheduler.ts:316-329 | in every run, edited or not: the time stored at the end of a run is in the future and on the row's own schedule if and only if the row's expression matches the time found for the started one, or none was found |
| Scheduler.SkipMovesOn | packages/server/src/automation/scheduler.ts:148-164 | in a tick of any run a due schedule that still runs is not started again, its stored time becomes the next one of its expression, which lies in the future, and nothing else in the row changes but a last run that was missing; a text that does not parse is left as it is |
| Scheduler.EditDuringRun | packages/server/src/automation/scheduler.ts:316-329 | such a run: "0 * * * *" is edited to "30 * * * *" while it runs, and at its end a full hour is stored, which the new expression never matches |
| Scheduler.AlwaysOnSchedule | packages/server/src/gateway/rpc/methods/schedule.ts:121-352 | as long as expressions are only given to schedules that are not running, with what the handlers compute for them, the time stored in every row matches the row's own expression at every moment of every run |
| Markdown.ChunkMarkdown | packages/storage/src/tables/memories.ts:39-77 | the loop over the lines computes the chunks the theorems speak of |
| Markdown.Reconstructs | packages/storage/src/tables/memories.ts:39-77 | dropping from each later chunk its carry and concatenating gives the text without its leading newlines, for all sizes |
| Markdown.LosslessIff | packages/storage/src/tables/memories.ts:39-77 | the text itself comes back if and only if it does not start with a newline |
| Markdown.ChunksFollowEachOther | packages/storage/src/tables/memories.ts:39-77 | for every text the chunks follow each other without a gap up to the last line, the first is numbered from zero, and there are none if and only if the text holds newlines only |
| Markdown.ChunksAre | packages/storage/src/tables/memories.ts:39-77 | every chunk, exactly: the first holds the lines from the first one that is not empty as long as they fit; each later one begins with the last overlap * 4 characters of the one before (all of it, if shorter or without an overlap) and goes on with the next lines as long as they fit |
| Markdown.LineNumbers | packages/storage/src/tables/memories.ts:39-77 | every chunk ends with exactly the lines it names if and only if the text does not start with a newline or holds nothing else |
| Markdown.SizeBound | packages/storage/src/tables/memories.ts:39-77 | with an overlap no chunk is longer than the limit, or than a carry, a newline and the longest line |
| Markdown.ZeroOverlapIff | packages/storage/src/tables/memories.ts:52-60 | without an overlap any bound holds for the chunks if and only if it holds for the whole text without its leading newlines |
| Markdown.SizeBoundIff | packages/storage/src/tables/memories.ts:39-77 | so the expected bound holds if and only if there is an overlap or the whole text keeps to it |
| Markdown.ZeroOverlapBreaksBound | packages/storage/src/tables/memories.ts:52-60 | without an overlap the carry is the whole chunk: texts of three lines whose last chunk is all of it |
| RequestLimit.RequestRateLimiter.Check | packages/server/src/gateway/rate-limit.ts:28-70 | the decision and the whole new table, eviction included |
| RequestLimit.RequestRateLimiter.Cleanup | packages/server/src/gateway/rate-limit.ts:85-93 | filters every window and drops the empty ones |
| RequestLimit.WindowBound | packages/server/src/gateway/rate-limit.ts:28-93 | over any checks and cleanups, a stretch of time shorter than the window holds at most maxRequests admissions of a key since it was last evicted |
| RequestLimit.BoundSurvivesIff | packages/server/src/gateway/rate-limit.ts:28-93 | counting all admissions, evictions or not: for requests of a set of keys the limit is kept for each key over every stretch shorter than the window, in every run, if and only if there are no more keys than the table holds, or the limit or the window is zero |
| RequestLimit.EvictionForgets | packages/server/src/gateway/rate-limit.ts:33-42 | a run beyond that: two keys in turn with room for one |
| RequestLimit.TableBound | packages/server/src/gateway/rate-limit.ts:33-42 | the table never holds more than maxKeys keys (one, if that is zero) |
| RequestLimit.TableHoldsNewest | packages/server/src/gateway/rate-limit.ts:33-42 | of distinct keys that come in turn, the table holds the newest, in their order |
| RequestLimit.CleanupIsInvisible | packages/server/src/gateway/rate-limit.ts:85-93 | cleanup never forgets an admission that still counts at any later time |
| RequestLimit.CleanupLeaves | packages/server/src/gateway/rate-limit.ts:85-93 | cleanup leaves exactly the keys with an admission that still counts, each with exactly those |
| RequestLimit.WaitingWorks | packages/server/src/gateway/rate-limit.ts:47-59 | a refused caller that waits retryAfterMs is admitted if no other request of its key was admitted meanwhile, whatever other keys did, evictions of the key included |
| RequestLimit.NoSoonerThan | packages/server/src/gateway/rate-limit.ts:47-59 | and the wait is exact: asking again any sooner is refused again |
| RequestLimit.RemainingCountsDown | packages/server/src/gateway/rate-limit.ts:61-70 | `remaining` is exact: so many more requests of the key are admitted at that moment, and then no more |
| RequestLimit.ZeroLimitRefusesAll | packages/server/src/gateway/rate-limit.ts:47-59 | a limit of zero refuses at every time, so there the wait does not help |
| ProviderLimit.RateLimiter.TryAcquire | packages/skills-finance/src/market/cache.ts:130-150 | one turn of the loop between two sleeps, for every limit: the shifted buffer, and an acquisition or the time to sleep, which with a limit of zero is not a number |
| ProviderLimit.WindowBound | packages/skills-finance/src/market/cache.ts:125-152 | any stretch of time up to and including a whole window holds at most maxRequests acquisitions, although old ones are forgotten |
| ProviderLimit.WaitingWorks | packages/skills-finance/src/market/cache.ts:146-150 | a caller that sleeps as told acquires on its next turn unless another did first |
| ProviderLimit.MarginIs100 | packages/skills-finance/src/market/cache.ts:146-150 | as long as no other call acquires, a caller that must wait acquires at a later time if and only if that is after the reported wait less its margin of 100 ms |
| ProviderLimit.ZeroNeverAcquires | packages/skills-finance/src/market/cache.ts:130-150 | with a limit of zero no turn of any run acquires |
| CircuitBreaking.CircuitBreaker.Begin | packages/infra/src/circuit-breaker.ts:30-45 | whether the call is let through, and the state it leaves |
| CircuitBreaking.CircuitBreaker.OnFailure | packages/infra/src/circuit-breaker.ts:74-80 | counts, remembers the time, opens at the threshold |
| CircuitBreaking.ClosedIffBelowThreshold | packages/infra/src/circuit-breaker.ts:30-80 | however calls overlap, the breaker is closed if and only if it has counted fewer failures than the threshold |
| CircuitBreaking.StateIs | packages/infra/src/circuit-breaker.ts:30-80 | the state after any run, from its failures in a row and from whether a call came late enough after the last of them |
| CircuitBreaking.LetThroughIff | packages/infra/src/circuit-breaker.ts:30-45 | in any run a call is let through if and only if the breaker is closed, or open for resetTimeoutMs since the last failure and probes are allowed, or half-open with fewer probes in flight than allowed |
| CircuitBreaking.ThresholdBelowOne | packages/infra/src/circuit-breaker.ts:23-27 | with a threshold below one that is false from the start |
| CircuitBreaking.ProbesPerEpisode | packages/infra/src/circuit-breaker.ts:30-45 | no half-open episode ever admits more than halfOpenMaxAttempts probes |
| CircuitBreaking.HalfOpenHasProbes | packages/infra/src/circuit-breaker.ts:30-80 | while half-open every probe of the episode is in flight, and there is one unless none is allowed: it is never wedged |
| CircuitBreaking.WedgedWithoutProbes | packages/infra/src/circuit-breaker.ts:40-45 | with no probe allowed, a half-open breaker with nothing in flight refuses everything until it is reset |
| CircuitBreaking.QuietWhileOpen | packages/infra/src/circuit-breaker.ts:31-38 | after opening, nothing is let through for resetTimeoutMs whatever else fails, unless a call in flight succeeds |
| CircuitBreaking.StaysOpenIff | packages/agent/src/models/fallback.ts:138-192 | with first calls that look, retries that do not, calls in flight and resets in any order: an open breaker stays open if and only if there is no reset, no call ends well, and no retry comes resetTimeoutMs or more after the last failure |
| CircuitBreaking.LookingFirstNeverRecovers | packages/agent/src/models/fallback.ts:138-144 | in particular first calls alone, and failures of what is in flight, never let it recover, however late |
| CircuitBreaking.ProbeRecovers | packages/infra/src/circuit-breaker.ts:30-71 | a call that does not look first, as a retry of the fallback, is let through once the time is up whatever is in flight, and its success closes the breaker |
| KeyRotation.KeyRotator.Next | packages/skills-finance/src/shared/key-rotator.ts:50-69 | the search around the list, with the least cooldown end when it fails |
| KeyRotation.KeyRotator.MarkFailure | packages/skills-finance/src/shared/key-rotator.ts:71-80 | counts a failure and sets the key aside at the threshold; unknown keys change nothing |
| KeyRotation.KeyRotator.MarkSuccess | packages/skills-finance/src/shared/key-rotator.ts:83-90 | clears the counter and the cooldown of a known key |
| KeyRotation.FailsIffAllCooling | packages/skills-finance/src/shared/key-rotator.ts:50-69 | `next` fails if and only if every key is cooling down |
| KeyRotation.NextIsUsable | packages/skills-finance/src/shared/key-rotator.ts:57-65 | the key that is handed out is one of the keys and is not cooling down |
| KeyRotation.NextInTurn | packages/skills-finance/src/shared/key-rotator.ts:50-69 | it is the first usable one from the cursor on, around the list, and the cursor moves just past it |
| KeyRotation.RetryAfterIsExact | packages/skills-finance/src/shared/key-rotator.ts:66-68 | the reported wait is positive and exact: `next` fails before that time and succeeds from then on |
| KeyRotation.CoolingIffHistory | packages/skills-finance/src/shared/key-rotator.ts:50-90 | in every run the counter of a key is the number of its failures since its last success, and it is set aside if and only if that number is positive and has reached the threshold and less than cooldownMs have passed since its last failure |
| KeyRotation.BelowThresholdIsUsable | packages/skills-finance/src/shared/key-rotator.ts:71-90 | in every run a key that failed fewer times than the threshold since its last success is not set aside |
| KeyRotation.ThresholdSetsAside | packages/skills-finance/src/shared/key-rotator.ts:71-80 | the failure that reaches the threshold, whenever the earlier ones were, sets the key aside for exactly cooldownMs, whatever happens to other keys meanwhile |
| KeyRotation.EveryUsableKeyHasItsTurn | packages/skills-finance/src/shared/key-rotator.ts:50-69 | a key that stays usable is handed out at least once in every n successful requests, n being the number of keys |
| Routing.MaxTier | packages/agent/src/models/routing.ts:30-42 | the least upper bound of the tiers that are present, haiku if there are none |
| Routing.FloorIsHighestNeed | packages/agent/src/models/routing.ts:45-50 | the floor bounds what every tool needs, and some tool needs it (or it is haiku) |
| Routing.DecisionCoversTools | packages/agent/src/models/routing.ts:64-103 | every allowed tool can be served at the floor, and the chosen tier is not below the floor nor below the requested tier |
| Routing.DecisionIs | packages/agent/src/models/routing.ts:64-103 | the whole decision from the tier asked for, the hint if hints are allowed and one is given, else that of the role: with respectMinModel that tier and the tools it serves; without, all tools and the least tier that is not below it and serves them; the least floor; the reason |
| Routing.ForbiddenHintIsIgnored | packages/agent/src/models/routing.ts:66-67 | without allowClientHint the decision is the one for a request without a hint |
| Routing.RespectHidesTools | packages/agent/src/models/routing.ts:70-76 | with respectMinModel exactly the tools that need more are hidden, and tools never raise the tier |
| Routing.DisrespectRaisesTier | packages/agent/src/models/routing.ts:78-94 | without it all tools stay, and the tier is raised, and reported as raised by a tool, if and only if some tool needs more |
| Routing.ReasonIsTrue | packages/agent/src/models/routing.ts:84-102 | the reported reason is the true one: a tool if and only if the tier was raised, else the hint if one was heeded, else the role |
| Routing.TierRoundTrip | packages/agent/src/models/routing.ts:126-146 | the tier read from a chosen model id is the tier it was chosen for |
| Routing.BuildToolMetaIndex | packages/server/src/auto-reply/router-helper.ts:40-52 | the index holds, for every name, the first registration of that name and no others |
| Routing.AllowedNamesFitFloor | packages/server/src/auto-reply/router-helper.ts:13-34 | every allowed name was asked for, and what the index says it needs is at most the floor |
| Routing.AllowedNamesIff | packages/server/src/auto-reply/router-helper.ts:13-34 | a requested name is allowed if and only if it is unknown, or its tool needs no more than the tier asked for, or respectMinModel is off |
| Selection.BuildModelAliasIndex | packages/agent/src/models/alias-index.ts:17-35 | the nested loops give, for every name, the first model that registers it and no others |
| Selection.ResolvesIff | packages/agent/src/models/selection.ts:28-78 | a name stands for a model if and only if, trimmed, it is an id or is registered in some mixture of capitals, and in the second case for the first model that registers it |
| Selection.SameNameIff | packages/agent/src/models/alias-index.ts:17-35 | a name is found under a registered one if and only if the two, trimmed, differ in capitals only |
| Selection.JudgedBelowIff | packages/agent/src/models/routing.ts:138-146 | when the catalog's names show their models' tiers, no entry is judged above the model it resolves to, and it is judged below if and only if the word of the tier does not stand in it in small letters |
| Selection.NeverAboveIff | packages/agent/src/models/routing.ts:138-146 | in a catalog without clashes of ids and aliases, no entry of any chain is judged above its model if and only if no registered name is |
| Selection.BuiltInJudgedIff | packages/agent/src/models/catalog-data.ts:10-107 | for the built-in models: an entry counts as its model's tier, or as the lowest if a capital hides the word of the tier |
| Fallback.RunWithModelFallback | packages/agent/src/models/fallback.ts:96-216 | the filters and the two nested loops: the outcome and the calls that were made |
| Fallback.ChainMeans | packages/agent/src/models/fallback.ts:107-134 | the chain is a subsequence of the configured one, every entry passes the floor, and all are of one provider unless crossing over is allowed |
| Fallback.ChainIff | packages/agent/src/models/fallback.ts:107-134 | exactly which entries of the configured chain are worked through, place by place: those whose tier is the floor or, if allowed, above it, and that share the provider of the first of them unless crossing over is allowed; and exactly when there is an error instead |
| Fallback.CallsAreOrderly | packages/agent/src/models/fallback.ts:138-192 | calls go along the chain and along the retries, never beyond them, and never to a model whose breaker was open |
| Fallback.CallsAre | packages/agent/src/models/fallback.ts:138-192 | exactly which calls are made: first the first model whose breaker is not open; after a failure that allows a fallback the next retry, and after the last retry the next such model; after anything else none |
| Fallback.CallBound | packages/agent/src/models/fallback.ts:138-192 | at most (retries + 1) calls for each model of the configured chain |
| Fallback.CalledModels | packages/agent/src/models/fallback.ts:107-144 | every model that is ever called passes the floor, exactly the floor in strict automation, and shares the provider of every other |
| Fallback.OutcomeExplained | packages/agent/src/models/fallback.ts:155-192 | a success log is failures of kinds that allow a fallback, one per call, and then one success on modelUsed; any other early end is explained by its last call |
| Fallback.ExhaustedIff | packages/agent/src/models/fallback.ts:194-216 | the chain is reported exhausted if and only if every model was skipped or failed on all its retries; the error names the floor exactly when there is one |
| Fallback.CollectedErrors | packages/agent/src/models/fallback.ts:210-216 | when all models failed, the collected errors are those of the calls, one each and in order |
| RoutedRequest.RouterChoiceSurvives | packages/server/src/auto-reply/execution-adapter.ts:453-485 | the router's own choice always survives the floor filter and stays first; the chain is never empty |
| RoutedRequest.CalledModelsServeTools | packages/server/src/auto-reply/execution-adapter.ts:222-224 | end to end, with respectMinModel on or off: every model a request is run on is named after a tier at or above what each tool shown to it needs, and shares the chosen model's provider |
| RoutedRequest.ChosenModelFirst | packages/server/src/auto-reply/execution-adapter.ts:483-484 | unless its breaker is open, the chosen model is called first |
| RoutedRequest.FailureMovesOn | packages/server/src/auto-reply/execution-adapter.ts:253-262 | end to end: a chosen model that fails with a rate limit, a server error, a timeout or as unavailable is called once more, and then the next model of the chain that is let through; if there is none the request ends with the floor; after anything else no other model is called |
| RoutedRequest.CallsPerRequest | packages/server/src/auto-reply/execution-adapter.ts:253-262 | a request costs at most two calls for the chosen model and for each entry of the fallback chain |
| RoutedRequest.ResolvedModelsServeTools | packages/server/src/auto-reply/execution-adapter.ts:222-280 | down to the model itself: with a catalog none of whose names shows a higher tier than the model it is registered for, every model that is called serves every tool shown to it |
| RoutedRequest.BuiltInModelsServeTools | packages/agent/src/models/catalog-data.ts:10-107 | with the built-in catalog that holds for every request |
| RoutedRequest.DroppedIffCapitals | packages/agent/src/models/fallback.ts:107-131 | of the fallback entries that stand for a model of the router's provider at or above the floor, one is dropped if and only if the floor is above haiku and the word of its tier does not stand in it in small letters |
| RoutedRequest.CapitalsAreDropped | packages/agent/src/models/fallback.ts:107-131 | such a request: the tool needs sonnet, the fallback is "OPUS", which resolves to the larger model and is not in the chain |
| Conversation.SliceHistory | packages/server/src/auto-reply/execution-adapter.ts:630-640 | the loop that skips answers at the cut |
| Conversation.SliceKeepsMost | packages/server/src/auto-reply/execution-adapter.ts:630-653 | for any history the slice is an end of it, within the limit, does not begin with an orphaned result, and leaves out nothing more than orphans beyond the limit |
| Conversation.SliceOfPaired | packages/server/src/auto-reply/execution-adapter.ts:630-653 | of a paired history exactly the last messages within the limit are kept, or one fewer if they would begin with an answer |
| Conversation.SlicePlusUserPaired | packages/server/src/auto-reply/execution-adapter.ts:630-653 | the slice of a paired history is paired, also with a new user message |
| Conversation.PlainCutBreaksPairs | packages/server/src/auto-reply/execution-adapter.ts:620-629 | a plain cut would not be: a history whose end starts with an answer |
| Conversation.CollectToolCalls | packages/server/src/auto-reply/execution-adapter.ts:656-686 | the nested loops that collect the audit records |
| Conversation.RecordsMatchResults | packages/server/src/auto-reply/execution-adapter.ts:656-686 | in a paired history the records of a message hold, call by call, the outputs of exactly those calls, if its ids are distinct |
| Conversation.NoCallsNoRecords | packages/server/src/auto-reply/execution-adapter.ts:656-686 | messages without calls add no record |
| Conversation.ExtractAssistantText | packages/server/src/auto-reply/execution-adapter.ts:597-614 | the search from the end for the last message of the assistant |
| Conversation.AnswerIsLast | packages/server/src/auto-reply/execution-adapter.ts:597-614 | the text of the last message of the assistant, whatever follows it, and nothing if there is none |
| Conversation.TextOfTextBlocks | packages/server/src/auto-reply/execution-adapter.ts:597-614 | the text of a list of blocks is that of its text blocks, in order, and of no others |
| ToolExecutor.OneResultPerCall | packages/agent/src/execution/tool-executor.ts:67-114 | every call gets one result, in its place, under its id: an error if and only if the tool is unknown, raises or violates its enforced schema, a violation if and only if that rejects the kept text, and otherwise the output, from 10,001 characters on its first 10,000 and the mark |
| ToolExecutor.VerdictIff | packages/agent/src/execution/tool-executor.ts:80-101 | for an enforced schema that accepts no text ending with the mark, an output is a violation if and only if it is over the limit or the schema rejects the uncut text |
| ToolExecutor.LongOutputIsViolation | packages/agent/src/execution/tool-executor.ts:80-101 | so an output that the schema accepts is reported as a violation if and only if it is over the limit |
| ToolExecutor.LongNumberIsRejected | packages/agent/src/execution/tool-executor.ts:80-101 | such an output: a whole number of 10,001 digits under a schema of whole numbers |
| AgentRunner.AssistantUses | packages/agent/src/execution/runner.ts:275-292 | the tool calls of the built message are the calls that were streamed |
| AgentRunner.Runner.Execute | packages/agent/src/execution/runner.ts:86-190 | the turn loop computes the run the theorems speak of, and the lane handle is released exactly once on every way out of the block, returns and throws alike |
| AgentRunner.ExecutionKeepsPairs | packages/agent/src/execution/runner.ts:86-190 | from a paired conversation, everything sent to the model is paired and so is what is returned, on every status; the conversation is only extended |
| AgentRunner.EachTurnSees | packages/agent/src/execution/runner.ts:86-190 | the first turn is sent the conversation; each later one what the turn before was sent, then the text and the calls of its reply, then the result of every call under its id; and so is what is returned |
| AgentRunner.ExecutionEnds | packages/agent/src/execution/runner.ts:100-186 | at most maxTurns turns; two messages per turn, one less when the model ends the run; which status means what |
| AgentRunner.AnswerOfRun | packages/server/src/auto-reply/execution-adapter.ts:597-614 | a run has no turn if and only if none is allowed or it is aborted before the first, and then hands back the conversation, whose last answer is what is extracted; otherwise the answer is the model's text of the last turn |
| AgentRunner.AbortedRepeatsAnswer | packages/server/src/auto-reply/execution-adapter.ts:597-614 | a second question that is aborted at once is answered with the answer to the first |
| AgentRunner.EachToolForcedOnce | packages/agent/src/execution/runner.ts:95-163 | in a whole run no tool is forced on the model more than once |
| AgentRunner.SecondViolationIff | packages/agent/src/execution/runner.ts:145-163 | a turn ends the run for schema violations if and only if some tool violates its schema that did so in an earlier turn or earlier in this one |
| AgentRunner.TwoInOneTurnFail | packages/agent/src/execution/runner.ts:145-163 | so two violations of one tool in the same turn end the run before any retry |
| AgentRunner.FailsIffRepeat | packages/agent/src/execution/runner.ts:86-190 | a run fails with a structured output error of a tool if and only if that tool is the first of the run to violate its schema twice |
| AgentRunner.FailsUnforcedIff | packages/agent/src/execution/runner.ts:95-163 | and it does so without the tool ever having been forced if and only if, besides, the tool was in no earlier turn the last to violate its schema |
| AgentRunner.OtherToolFails | packages/agent/src/execution/runner.ts:145-163 | such a run without two violations in one turn: "a" and "b" in the first turn, "a" again in the second |
| Session.EverythingSentIsPaired | packages/server/src/auto-reply/execution-adapter.ts:200-336 | over the whole life of a session, through aborts, model failures, model changes and storage failures, all that is ever sent is paired, and the stored history is paired and of bounded length |
| Session.SentFirst | packages/server/src/auto-reply/execution-adapter.ts:200-242 | a request first sends the last stored messages within the limit (one fewer if they would begin with an answer) and then the message of the user |
| Session.StoredIff | packages/server/src/auto-reply/execution-adapter.ts:253-291 | what is stored afterwards is the conversation that the last attempt returned, which continues what was sent first; if it failed, or saving failed, what was stored stays |
| Holdings.TransactionStore.RecomputeHoldings | packages/storage/src/transactions.ts:97-170 | the rows of one portfolio become those of its transactions; all other rows stay |
| Holdings.TransactionStore.AddTransaction | packages/storage/src/transactions.ts:174-207 | both tables after an insert |
| Holdings.TransactionStore.UpdateTransaction | packages/storage/src/transactions.ts:254-328 | both tables after an update, with the portfolios before and after a move recomputed; nothing for an unknown id or an empty patch |
| Holdings.TransactionStore.DeleteTransaction | packages/storage/src/transactions.ts:330-338 | both tables after a delete; false and no change for an unknown id |
| Holdings.HoldingsAreDerived | packages/storage/src/transactions.ts:97-338 | starting consistent, after any adds, updates, moves and deletes the holdings of all portfolios are those of the transactions |
| Holdings.RowIffPositive | packages/storage/src/transactions.ts:149-163 | a row exists if and only if the net quantity of its symbol is positive |
| Holdings.RowsAreSums | packages/storage/src/transactions.ts:118-163 | a symbol has a row if and only if the quantities bought and split off sum to more than those sold, and then it holds the difference, at the sum paid for priced buys divided by their quantities; dividends and fees do not count |
| Holdings.HoldingsIgnoreOrder | packages/storage/src/transactions.ts:104-147 | the holdings do not depend on the order of the transactions, so ties in the query's order do not matter |
| Holdings.AverageBetweenPrices | packages/storage/src/transactions.ts:155-163 | the average cost lies between any bounds of the prices paid, as long as no priced buy has a negative quantity and they sum to more than nothing |
| Holdings.AverageWithinIff | packages/storage/src/transactions.ts:124-163 | given the quantities, the average lies between the prices for all prices that are not negative if and only if no priced buy has a negative quantity and the priced buys sum to more than nothing |
| Holdings.NegativeBuyBreaksAverage | packages/storage/src/transactions.ts:124-163 | with one, buying that at nothing and all else at one puts the average above one |
| Holdings.NegativeQuantityBreaksAverage | packages/storage/src/transactions.ts:155-163 | the storage functions accept negative quantities (the two handlers in finance.ts that call them do not): two buys, one of them negative, whose average is above both prices |
| Holdings.EmptyBuyBreaksAverage | packages/storage/src/transactions.ts:155-163 | a buy of nothing at ten and a split of five make a row with an average of nothing |
| Holdings.OnlyPricedBuysMoveTheAverage | packages/storage/src/transactions.ts:124-146 | selling, splitting, dividends, fees and unpriced buys leave the average alone, wherever they stand |
| Holdings.DeleteUndoesAdd | packages/storage/src/transactions.ts:174-338 | deleting what was just added gives back both tables |
| Holdings.UpdateSetsColumns | packages/storage/src/transactions.ts:254-328 | an update sets exactly the given columns of the row with the id and answers with that row; no other row changes |
| Holdings.DeleteRemovesRow | packages/storage/src/transactions.ts:330-338 | a delete removes the row with the id, if there is one, and keeps all others |
| Inversions.CountInversions | packages/storage/src/search/hybrid.ts:40-52 | the nested loops count the pairs that are out of order |
| Inversions.SwapRemovesOne | packages/storage/src/search/hybrid.ts:39-52 | swapping two neighbours that are out of order removes exactly one inversion |
| Inversions.NoneIffAscending | packages/storage/src/search/hybrid.ts:40-52 | the count is zero if and only if the list is in order |
| Inversions.SwapsToSort | packages/storage/src/search/hybrid.ts:39-52 | every way of sorting by such swaps takes exactly as many as the count |
| Inversions.BubbleSort | packages/storage/src/search/hybrid.ts:39-39 | the reference that the comment names: bubble sort makes exactly that many swaps |
| Rerank.RerankResults | packages/storage/src/search/hybrid.ts:60-92 | sort, cut, look up and count, with and without a reranker |
| Rerank.OrderIsUnique | packages/storage/src/search/hybrid.ts:74-75 | the stable descending order of entries is unique, so the sort is determined by its specification |
| Rerank.TopOfStableSort | packages/storage/src/search/hybrid.ts:73-79 | the answer is the first topK of the stable descending sort: every kept place is ahead of every other |
| Rerank.BestAreKept | packages/storage/src/search/hybrid.ts:60-92 | from the scores alone: the chunks of the topK best places, best first and equal ones in their first order, and the number of neighbour swaps that lead there |
| Rerank.FirstAreKept | packages/storage/src/search/hybrid.ts:65-68 | without a reranker the first topK chunks, and no swaps |
| Rerank.NoSwapsIffInOrder | packages/storage/src/search/hybrid.ts:81-82 | zero swaps are reported if and only if the kept chunks are in their first order |
| Rerank.MockChangesNothing | packages/storage/src/rerank/mock.ts:8-13 | with the mock reranker the chunks are those of a search without one, for every topK |
| Spans.GetSpanTree | packages/storage/src/spans.ts:65-83 | the map and the pushes build the roots and, for every span, its list of children |
| Spans.ChildrenAreRecorded | packages/storage/src/spans.ts:71-79 | what stands under a span is exactly the spans that recorded it as parent, in start order |
| Spans.RootsHaveNoParent | packages/storage/src/spans.ts:72-80 | the roots are exactly the spans without a parent in the trace |
| Spans.OccursOnceOrNever | packages/storage/src/spans.ts:65-83 | flattened to any sufficient depth, a span occurs exactly once if its parents lead to the top, and otherwise never |
| Spans.CompleteIffNoCycle | packages/storage/src/spans.ts:65-83 | the forest holds every span exactly once if and only if the parent references have no cycle |
| ConfigMerge.MergeConfig | packages/config/src/merge-config.ts:11-35 | the loop over the keys computes the merged object, in whatever order they are visited |
| ConfigMerge.DeepMerge | packages/config/src/includes.ts:45-60 | on two objects the same merged object as mergeConfig, so the two functions agree |
| ConfigMerge.SourceWins | packages/config/src/merge-config.ts:17-32 | a plain value of the source is found in the result at its path |
| ConfigMerge.TargetFillsGaps | packages/config/src/merge-config.ts:15-32 | where the source says nothing the target's value stays, at every path |
| ConfigMerge.MergedAt | packages/config/src/merge-config.ts:11-35 | the value at every path without forbidden keys, in all cases: two arrays give the items of the target and then those of the source, values of different kinds give that of the source, one side alone gives its own, unless the source has a plain value on the way |
| ConfigMerge.ForbiddenKeysStay | packages/config/src/merge-config.ts:17-20 | a forbidden key is in the result if and only if it was in the target, with the target's value |
| ConfigMerge.TwiceIsOnceIff | packages/config/src/merge-config.ts:11-35 | merging into a target twice is the same as once, for every source, if and only if the target's arrays are all empty |
| ConfigMerge.DefaultsTwice | packages/config/src/defaults.ts:63-68 | applying the defaults twice is the same as once |
| Includes.ChainIsFolded | packages/config/src/includes.ts:13-42 | a chain of at most ten includes that visits no file twice resolves to the fold of deepMerge along it |
| Includes.ResultIsFold | packages/config/src/includes.ts:13-42 | and nothing else resolves: every result is the fold of such a chain |
| Includes.NearestFileWins | packages/config/src/includes.ts:36-42 | a plain value of any file of the chain is found in the result where it stood, unless a file further out says something else there |
| Includes.CircularIsReal | packages/config/src/includes.ts:19-33 | a reported circle names distinct files followed by one of them again, or eleven distinct files |
| Includes.PathIsBesideIncluder | packages/config/src/includes.ts:68-74 | an absolute path is taken as it is, any other is looked up in the directory of the file that includes it, if that is named with a separator |
| Includes.BareBaseIsDirectory | packages/config/src/includes.ts:68-74 | without a separator the name of the including file itself is taken for the directory |
| Chunking.TrackCodeBlocks | packages/channel-discord/src/chunking.ts:104-126 | the loop over the fences gives the block that is open afterwards |
| Chunking.TrackParity | packages/channel-discord/src/chunking.ts:104-126 | a block is open afterwards according to the parity of the fences |
| Chunking.CutFits | packages/channel-discord/src/chunking.ts:64-101 | the cut is within both limits, and at the very start only if the text starts with a line break |
| Chunking.LongestThatFits | packages/channel-discord/src/chunking.ts:64-78 | what is looked through for a place to cut is the longest beginning of the text that keeps to both limits |
| Chunking.CutPreference | packages/channel-discord/src/chunking.ts:64-101 | the cut is at the last paragraph past the half, else the last line, sentence or space past three tenths, and through a word only if there is none of these |
| Chunking.ChunkText | packages/channel-discord/src/chunking.ts:13-57 | the loop, which ends for every text, code fences or not |
| Chunking.TurnShrinks | packages/channel-discord/src/chunking.ts:22-53 | why it ends: a turn uses up backticks, or enters a block, or shortens the text |
| Chunking.TurnAddsOnlyFences | packages/channel-discord/src/chunking.ts:33-53 | for every text a turn keeps all characters but white space, in order, in the chunk and in what remains; only an open block adds a fence to the one, and a fence with the language to the other |
| Chunking.BlockIsReopened | packages/channel-discord/src/chunking.ts:33-53 | a piece that ends in a block it opens is closed with a fence, and what remains begins with a fence and the language of that block |
| Chunking.NearlyFits | packages/channel-discord/src/chunking.ts:13-57 | for every text a chunk exceeds the limits by no more than the closing fence (four characters, one line) |
| Chunking.PlainTextFitsAndIsKept | packages/channel-discord/src/chunking.ts:13-57 | for text without fences every chunk keeps to both limits, and the characters in order, white space aside, are those of the text |
| Chunking.TurnFitsIff | packages/channel-discord/src/chunking.ts:33-46 | a turn's chunk passes a limit if and only if its piece leaves a block open and, without leading white space and with the closing fence, is over one |
| Chunking.AllFitIff | packages/channel-discord/src/chunking.ts:13-57 | for every text: all chunks keep to the limits if and only if every cut through a block leaves room for the closing fence |
| Chunking.FenceBreaksLimit | packages/channel-discord/src/chunking.ts:40-46 | a text of four characters whose first chunk has seven, with a limit of three |
| Chunking.TurnBalanced | packages/channel-discord/src/chunking.ts:33-53 | a turn's chunk has the fences of its own blocks if and only if the turn began outside a block |
| Chunking.AllBalancedIff | packages/channel-discord/src/chunking.ts:13-57 | for every text: all chunks have the fences of their blocks if and only if no cut but the last goes through a block and what is left after the last is itself balanced |
| Chunking.BlockInThreePieces | packages/channel-discord/src/chunking.ts:33-53 | for every limit of ten characters or more, blocks of one long line that take three pieces: the first is over the limit, the second is never closed, the third has no fence |

## Left out

- Real time: timers, jitter and backoff times are steps of a monotone clock; daylight saving is a fixed offset of whole minutes.
- `ConcurrencyLane.dispose`, releasing a handle twice, and the lane manager that holds three lanes: `dispose` ends the life of a lane, and handles are single-use in all callers.
- Queue modes other than 'queue', `dequeueAll`, `purgeIdle`: the router builds mode 'queue' only.
- Cron numbers of 309 digits and more, which JavaScript reads as Infinity; ranges that reach past 2^53, where the counting loop of the source no longer advances and never ends; and ranges with more values than a JavaScript Set can hold, for which it throws.
- Cron text in the table of schedules: a row keeps the parsed expression, or none for a text that does not parse.
- A scheduled run whose error has an empty message counts as a success in the code (packages/server/src/automation/scheduler.ts:336); in the model `failed` means a message that is not empty.
- The start and stop of the poller of the schedules.
- SQLite: failing statements, transactions and rollback; tables are maps and sequences with the WHERE and ORDER BY of the queries used.
- Rounding: quantities, prices and scores are reals, and the thresholds 0.5 and 0.3 of `findSplitPoint` are exact fractions.
- Transaction ids are taken to be new, as `randomUUID` makes them.
- Rate limit headers, and the fields of the decision that only repeat the configuration.
- Events and log lines, tracing spans of the agent loop, token counting, and the text of error messages.
- `Selection.Lower` changes ASCII letters only: names in other scripts, some of which `toLowerCase` maps to ASCII letters, resolve as they stand.
- The default model of `resolveModel`, which no caller gives, and models registered after the alias index was built.
- In `Fallback` names are resolved by an arbitrary partial function; `Selection` is the one the server uses.
- Retries inside one model call (`retry` around `streamLLMCall`): they send the same messages.
- The assembly of streamed tool calls by a single slot (packages/agent/src/execution/tool-input-buffer.ts): tool calls arrive complete.
- `AgentRunner.Runner.Execute` takes an acquired handle; a lane that refuses the call ends it before any turn.
- `mergeHybridResults`, `createRerankerWithFallback`, `readKeyArray`, `availableCount`: no hard property.
- `Spans.GetSpanTree` names nodes by the place of their row and returns the lists of children; the source links node objects.
- Scores that are not numbers, which have no order to sort by.
- Prototype-inherited properties and object identity in configuration values; objects are finite maps.
- The order of keys in merged objects.
- HTTP and WebSocket servers, Discord, model SDKs, MCP, plugins, command line, terminal and web views.
