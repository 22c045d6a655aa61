# A verified model of the note-judging service

The service judges sales notes with paid model calls. This project models, in Dafny, the small
protocols, state machines and integer computations under its HTTP and model plumbing, and proves
what they keep over every run, every interleaving and every input.

`dafny verify dfyconfig.toml` checks the whole project.

| modules | what they model |
|---|---|
| Options, Links, Counters, PromptSlots | the shared store's counters with expiry, and the script that checks and takes three of them at once |
| Idempotency, Reservation | the idempotency key: reserve, confirm, release, take over, and any number of requests interleaving over it |
| Decide | what is decided about a note, asked twice around the one store trip |
| LengthGate | the structural bounds on a note |
| Breaker | the circuit breaker, with any number of calls in flight |
| Tokens, Overspend, Warnings | the token budget: gate, meter, model calls and the in-flight counter; by how much it can be overrun; its warnings |
| Redaction, RedactionLaws, Dates, Runs, Emails, Pattern | the scan that takes contact details out of a text, its laws, which dates, times and digit runs it keeps, what it leaves of emails, and the regular expression it implements |
| Prompting | the assembled prompt and its data section |
| Rounding, Scoring | answers to marks, total, band, action and verdict |
| BodyLimit | the body-size middleware around an arbitrary application |
| Measures, Groups, Brief, BriefLaws, People, Pooling | the per-person measures, the three briefs, and whom their lines are about |
| Eval, Agreement | the evaluation run, its tallies, and what it makes of one note |

How the source's form is kept. What the source updates in place is a class or a method over one
(the store and its commands, the breaker, the in-flight counter, the body guard, outcomes and
tallies); each such method is proved against a function of the old state, and runs are sequences of
those functions. What the source computes is a function. A command or a script is one atomic step;
a reply may be lost after the command was applied; time is a number that never goes back. Model
answers, clocks, request order, kills and cancellations are arbitrary.

Results where the code and what is said about it part:

- The release of a reservation is an unowned delete. Exclusion therefore needs that a holder's last
  command lands before its lease ends, and exactly that (`ClockStepIsSafeExactlyWhenTimely`).
- A judgement whose take was applied but whose reply was lost can report another attempt number than
  the one it claimed (`ALostReplyMisreports`); `AttemptIsTheClaimedNumberExactlyWhen` says when the
  two agree.
- A charge that crosses the warning ratio and is not answered warns of nothing, so a window emits its
  one warning if and only if that charge was answered (`OneWarningPerWindow`).
- The startup check does not guarantee a denominator for no-contact notes
  (`CheckedIsNotEnoughForNoContact`); `NoContactNeedsWeight` says exactly when there is one.
- A note over the length limit passes when it has too few tokens and is recognised
  (`LongNotesPassExactlyWhenRecognised`), and fillers alone are recognised when a phrase is blank
  (`FillersAreRecognisedExactlyWhen`).
- After an overflow, what the application sent before any response start has already gone out
  (`OnlyThe413ExactlyWhenSilent`).
- A declared length is read by the language's own integer reading, so spaces around it, a plus sign
  and single underscores are accepted, which the comment beside it does not say
  (`SpacesSignsAndUnderscoresAreRead`, `ClaimsExactlyWhatIsSpelled`).
- A team brief counts a person the directory lists twice twice
  (`PeopleAddUpExactlyWhenListedOnce`). The improvements of the teams add up to the total line if and
  only if every asked row that has a better later row has one in its own team
  (`ImprovementsConserve`), which can fail when a note changes team.
- An email can survive redaction: the scan may be past its beginning when a date, a time or a short
  run is kept (`AnEmailInAKeptRunStays`). `EmailsSurviveExactlyWhenLeaked` says exactly when, on the
  text as it was before anything was replaced.
- A date or a time is kept when it is plausible, says the redaction module. A time never has enough
  digits to be taken for a telephone number, so it is kept whatever hour it names (`TimesAreKept`), and
  so is any date of fewer than 7 digits (`YearFirstIsKeptExactlyWhen`, `YearLastIsKeptExactlyWhen`).
- An entry of a tenant's code table that ends in a digit is never met, since all trailing digits of a
  word go before the table is asked (`CodesAreStemsWithANumber`).
- README.md:421 and README.md:527 of the repository say that a counter without expiry never gains
  one. A charge always gives it one (`ChargedCounterExpires`); the slot script gives it one if and
  only if it takes, since at a limit it returns before writing
  (`BareCounterIsRepairedExactlyByATake`). From an empty store such a counter is unreachable
  (`EveryCounterExpires`).

## Model

| member | source | states |
|---|---|---|
| Reservation.MutualExclusion | src/dodeal_ai/units/structured_intelligence/pipeline.py:996-1241 | At every point of every run of any number of requests, with kills, cancellations, lost replies and expiry, at most one request is between winning a key (by reservation or take-over) and its confirm or release |
| Reservation.PaidPassesDoNotInterleave | src/dodeal_ai/units/structured_intelligence/pipeline.py:996-1241 | Two requests for one key never interleave their paid passes |
| Reservation.LiveKeyIsNotWon | src/dodeal_ai/units/structured_intelligence/pipeline.py:1001-1030 | No step starts a judgement on a key that holds a live reservation or a live judgement that still validates |
| Reservation.StepKeepsInvariant | src/dodeal_ai/units/structured_intelligence/pipeline.py:996-1241 | Every step of the protocol keeps the invariant: a live holder's key is there with the holder's own expiry, holders of one key are one, and a take-over only ever compares with an unreadable value |
| Reservation.RunKeepsInvariant | src/dodeal_ai/units/structured_intelligence/pipeline.py:996-1241 | The invariant holds at every point of every run |
| Reservation.RequestsOnlyAdvance | src/dodeal_ai/units/structured_intelligence/pipeline.py:996-1241 | A request keeps its key and never goes back a phase |
| Reservation.ConfirmCreatesNothing | src/dodeal_ai/units/structured_intelligence/state.py:232-260 | A confirm never creates a missing key and touches no key but its own |
| Reservation.StoredWasConfirmed | src/dodeal_ai/units/structured_intelligence/state.py:232-327 | A stored judgement was there at the start or was confirmed by an earlier step of the run, under that key |
| Reservation.ReplaysAreFaithful | src/dodeal_ai/units/structured_intelligence/pipeline.py:1296-1337 | A replayed answer equals, but for the request id, a judgement confirmed under the same key for the same note and lead |
| Reservation.ConfirmedStays | src/dodeal_ai/units/structured_intelligence/pipeline.py:1218-1241 | A confirmed judgement stays in the store, with the expiry of the long lifetime, for that whole lifetime, and nobody else holds its key, unless the request that confirmed it was cancelled and its release lands |
| Reservation.ConfirmedIsReplayed | src/dodeal_ai/units/structured_intelligence/pipeline.py:1001-1030 | For the whole long lifetime after a confirm that was not cancelled no request for the key judges, every answered reserve is sent to read, and every answered read gets that judgement under the reader's id if the lead is the same, and a duplicate otherwise |
| Reservation.RetryIsReplayed | src/dodeal_ai/units/structured_intelligence/pipeline.py:1001-1030 | From any such state a new request for the same lead can arrive, ask and read, and ends with the judgement |
| Reservation.ReplaysEnd | src/dodeal_ai/units/structured_intelligence/pipeline.py:1001-1030 | Once that lifetime is over and nobody has written the key, the next request to ask judges the note |
| Reservation.ReservedKeyIsADuplicate | src/dodeal_ai/units/structured_intelligence/pipeline.py:1001-1030 | As long as a winner judges, its reservation stands with the expiry it got when it won, and another request that asks is sent to read and reads that it is a duplicate |
| Reservation.UnreadableIsTakenOver | src/dodeal_ai/units/structured_intelligence/pipeline.py:1312-1334 | A stored value that no longer validates and is unchanged when the reader swaps it is replaced by a full reservation, and the reader judges |
| Reservation.RetryTakesOver | src/dodeal_ai/units/structured_intelligence/pipeline.py:1312-1334 | From any state with such a value a new request can arrive, ask, read, take over and judge |
| Reservation.ReleaseFreesTheKey | src/dodeal_ai/units/structured_intelligence/pipeline.py:1228-1241 | After a release has landed the next request to ask judges the note |
| Reservation.CancelledConfirmIsUndone | src/dodeal_ai/units/structured_intelligence/pipeline.py:1218-1241 | A request cancelled at its confirm is not answered with the judgement but releases, and once its release has landed the store does not hold it either |
| Reservation.OutagesFailClosed | src/dodeal_ai/units/structured_intelligence/pipeline.py:1004-1018 | A request whose reserve, read or take-over is not answered ends as unavailable and is never judged |
| Reservation.PaidForIsAnswered | src/dodeal_ai/units/structured_intelligence/state.py:232-260 | A judgement that was not cancelled is answered whatever the store does with its confirm |
| Reservation.RepliesDoNotMoveTheStore | src/dodeal_ai/units/structured_intelligence/state.py:172-327 | A command whose reply is lost does to the store what the answered one does, and one that never got there does nothing |
| Reservation.ReservationsStayShort | src/dodeal_ai/units/structured_intelligence/pipeline.py:996-1003 | Every reservation in the store ends at most one in-flight lifetime from now |
| Reservation.OrphanFreesItself | src/dodeal_ai/units/structured_intelligence/pipeline.py:996-1030 | A reservation nobody touches again is gone one in-flight lifetime later, and the next request to ask wins the key |
| Reservation.ContinuationKeepsInvariant | src/dodeal_ai/units/structured_intelligence/pipeline.py:996-1241 | However a run goes on from a state that keeps the invariant, it keeps it |
| Reservation.ClockStepIsSafeExactlyWhenTimely | src/dodeal_ai/units/structured_intelligence/pipeline.py:996-1241 | The timing assumption is exactly what exclusion needs: for every configuration and every state that keeps the invariant, a clock step keeps holders exclusive in every continuation if and only if it passes nobody's lease |
| Reservation.LateReleaseBreaksExclusion | src/dodeal_ai/units/structured_intelligence/pipeline.py:1224-1241 | An illustration: one late release, which is an unowned delete, lets two requests with running leases judge one note |
| Reservation.ExistingJudgement | src/dodeal_ai/units/structured_intelligence/pipeline.py:1296-1337 | The loser's two commands over the store object: replay, duplicate, unavailable or take-over, exactly as the protocol step says |
| Idempotency.InflightTtlCovers | src/dodeal_ai/units/structured_intelligence/pipeline.py:996-1002 | The reservation lifetime is at least 1 for every positive deadline and is four deadlines rounded up |
| Idempotency.IdempotencyStore.Reserve | src/dodeal_ai/units/structured_intelligence/state.py:172-205 | SET NX EX: writes only a free key, answers whether it was free, fails closed, and may have been applied when the reply is lost |
| Idempotency.IdempotencyStore.Release | src/dodeal_ai/units/structured_intelligence/state.py:208-229 | An unowned DEL whose failure is swallowed |
| Idempotency.IdempotencyStore.Confirm | src/dodeal_ai/units/structured_intelligence/state.py:232-260 | SET XX EX: writes only a live key and fails open |
| Idempotency.IdempotencyStore.ReadConfirmed | src/dodeal_ai/units/structured_intelligence/state.py:263-290 | A reservation reads as nothing, a failure as unavailable |
| Idempotency.IdempotencyStore.TakeOver | src/dodeal_ai/units/structured_intelligence/state.py:293-327 | Compare-and-swap: only the exact stale value is replaced |
| Counters.Redis.Exists | src/dodeal_ai/units/structured_intelligence/state.py:339-368 | A key is there when it was written and has not expired |
| Counters.Redis.Get | src/dodeal_ai/units/structured_intelligence/state.py:339-368 | A read of a missing or expired counter is 0 |
| Counters.Redis.IncrBy | src/dodeal_ai/core/cost/limiter.py:94-108 | An increment keeps the expiry of a live key and starts a dead one from 0 without any |
| Counters.Redis.HasNoExpiry | src/dodeal_ai/core/cost/limiter.py:94-108 | The -1 reply of TTL: there and without expiry |
| Counters.ChargedCounterExpires | src/dodeal_ai/core/cost/limiter.py:94-108 | A charge always leaves an expiry behind: a counter without one gains the full window, a running one keeps its own |
| Counters.Redis.Expire | src/dodeal_ai/core/cost/limiter.py:94-108 | Sets the expiry and nothing else |
| PromptSlots.TakePromptSlots | src/dodeal_ai/units/structured_intelligence/state.py:339-368 | The script, command by command, is the atomic take: check the three counters, then move all three or none |
| PromptSlots.IncrWithWindow | src/dodeal_ai/units/structured_intelligence/state.py:339-368 | One increment starts a window on a first take or on a key without expiry and never extends a running one |
| PromptSlots.TakeMovesAllOrNothing | src/dodeal_ai/units/structured_intelligence/state.py:339-368 | A refusal writes nothing; a take adds one to exactly its three counters and touches no other key |
| PromptSlots.TakesExactlyBelowAllLimits | src/dodeal_ai/units/structured_intelligence/state.py:339-368 | The script takes if and only if all three counters are below their limits |
| PromptSlots.ReplyCounts | src/dodeal_ai/units/structured_intelligence/state.py:339-368 | The reply's attempt count is the stored one as the script leaves it, taken or refused, and its rate is the hourly count it met, or 0 when the attempt cap refused first |
| PromptSlots.RunningWindowsAreKept | src/dodeal_ai/units/structured_intelligence/state.py:339-368 | No take extends a running window |
| PromptSlots.EveryCounterEnumerates | src/dodeal_ai/units/structured_intelligence/state.py:339-368 | Over every run from the empty store each counter is exactly where its last take left it, lifetimes are disjoint, and each lifetime numbers its takes 1, 2, 3, ... up to the limit |
| PromptSlots.BareCounterIsRepairedExactlyByATake | src/dodeal_ai/units/structured_intelligence/state.py:339-368 | A live counter without expiry gains one if and only if all three counts are below their limits, and then it is the full window; otherwise the script writes nothing |
| PromptSlots.EveryCounterExpires | src/dodeal_ai/units/structured_intelligence/state.py:339-368 | From the empty store every counter always carries an expiry, so a counter without one is unreachable |
| PromptSlots.AttemptNumbersAreAnEnumeration | src/dodeal_ai/units/structured_intelligence/state.py:355-381 | Over all interleavings the attempt numbers of one lifetime have no gap and no repeat and stay within the cap |
| PromptSlots.SlidingWindowBound | src/dodeal_ai/units/structured_intelligence/state.py:339-368 | Any half-open span as long as a counter's window holds at most twice its limit of takes, for the note, hourly and daily counters |
| Decide.RateLimitTrip | src/dodeal_ai/units/structured_intelligence/pipeline.py:1340-1388 | The one store trip: a take when the provisional decision sends, one read when there is nothing to ask, nothing otherwise |
| Decide.TakeSlotsOrBypass | src/dodeal_ai/units/structured_intelligence/state.py:384-433 | An unanswered take reads as an open window, whether or not it was applied |
| Decide.FixedQuestion | src/dodeal_ai/units/structured_intelligence/pipeline.py:535-583 | Only a too-short note gets the fixed question, and any other neither question nor reason; the question takes the same three slots in one trip and reports the guard that refused; on a resubmission it touches nothing; when the take is not answered the count read before decides, and that is 0 when the read was not answered either |
| Decide.ActionsSplitTheTotals | src/dodeal_ai/units/structured_intelligence/decide.py:57-67 | With the flag threshold below the accept threshold, whatever the store holds and answers: silent accept if and only if the total is at the accept threshold or above, accept with a flag if and only if it lies from the flag threshold up to there, clarification if and only if it is below |
| Decide.FlaggedExactlyWhen | src/dodeal_ai/units/structured_intelligence/decide.py:70-129 | A scored note is flagged if and only if enforcement is not off and its total is below the accept threshold, a suppressed one if and only if enforcement is not off and it was too short |
| Decide.FirstHoldingReasonIsReported | src/dodeal_ai/units/structured_intelligence/decide.py:132-163 | The reported reason is the first of the four, in the fixed priority order, that holds, and there is none if and only if none holds |
| Decide.SendsExactlyWhenTaken | src/dodeal_ai/units/structured_intelligence/pipeline.py:1139-1166 | When the store answers, the final decision sends if and only if the script took the slots, and then and only then the table moved |
| Decide.RefusalNamesTheGuard | src/dodeal_ai/units/structured_intelligence/pipeline.py:1340-1388 | A refused take reports exactly the guard that refused |
| Decide.QuietPathsAreUntouched | src/dodeal_ai/units/structured_intelligence/pipeline.py:1139-1166 | A provisional decision that does not send leaves all counters untouched and keeps its reason, except that an exhausted hourly window replaces nothing-to-ask |
| Decide.SilentAcceptIsSilent | src/dodeal_ai/units/structured_intelligence/decide.py:166-222 | A total at the accept threshold carries no reason and never meets the store |
| Decide.UnansweredTripChangesNothing | src/dodeal_ai/units/structured_intelligence/state.py:384-458 | The guards fail open: after a trip that was not answered, the taking one or the reading one, the provisional decision stands as it is, while the counters have moved if the take was applied and found its slots |
| Decide.AttemptIsTheClaimedNumberExactlyWhen | src/dodeal_ai/units/structured_intelligence/pipeline.py:1340-1388 | In every interleaving a judgement that sends reports in `attempt` the number its own take claimed if and only if the store answered, or the take was applied, its reply was lost and the count read early was still the stored one |
| Decide.ReportedAttempt | src/dodeal_ai/units/structured_intelligence/decide.py:215-222 | Every judgement reports as attempt the count the store answered its take with, or else the one read early, plus one exactly if it sends, whether the take was made or refused; and as remaining what is left of the cap, never below 0 |
| Decide.ALostReplyMisreports | src/dodeal_ai/units/structured_intelligence/state.py:384-433 | A run in which a judgement claims attempt 2 and, its reply lost, reports 1 |
| Breaker.CircuitBreaker.constructor | src/dodeal_ai/core/breaker.py:95-122 | A breaker starts closed with nothing counted |
| Breaker.CircuitBreaker.Admit | src/dodeal_ai/core/breaker.py:178-197 | The admission half of a call, on the four fields |
| Breaker.CircuitBreaker.OpenNow | src/dodeal_ai/core/breaker.py:217-220 | Opening stamps the moment |
| Breaker.CircuitBreaker.RecordFailure | src/dodeal_ai/core/breaker.py:199-206 | A counted failure in any state, late ones included |
| Breaker.CircuitBreaker.RecordSuccess | src/dodeal_ai/core/breaker.py:208-215 | A success in any state |
| Breaker.CircuitBreaker.Conclude | src/dodeal_ai/core/breaker.py:134-171 | The completion half of a call: result, counted failure, pool refusal or foreign error |
| Breaker.CircuitBreaker.ResetToClosed | src/dodeal_ai/core/breaker.py:173-176 | The reset closes and clears the count |
| Breaker.StaysGuarded | src/dodeal_ai/core/breaker.py:134-220 | After an admission in a troubled stretch, nothing that happens there can admit a call earlier than one open window later |
| Breaker.AdmissionsAreSpaced | src/dodeal_ai/core/breaker.py:134-220 | In any stretch that is not closed and has no success and no pool-refused probe, admitted calls are at least `open_seconds` apart, whatever left-over calls do and however many probes hang |
| Breaker.AdmissionsAreBounded | src/dodeal_ai/core/breaker.py:134-220 | Such a stretch shorter than m windows admits at most m calls, that is floor(T / open_seconds) + 1 |
| Breaker.StampsHoldThroughout | src/dodeal_ai/core/breaker.py:178-220 | In every run half open implies that the open window has elapsed |
| Breaker.NextCallIsAdmittedAfterTheStamps | src/dodeal_ai/core/breaker.py:178-197 | One window after the later of the two stamps the next call is admitted, whatever never returned; for a half-open breaker not before |
| Breaker.HangingCallsCannotWedge | src/dodeal_ai/core/breaker.py:134-197 | If calls only arrive and none ever returns, one of any two arrivals a window apart, or one between them, is admitted |
| Breaker.HandedBackProbeLetsNextIn | src/dodeal_ai/core/breaker.py:134-171 | A probe the pool refused lets the very next call in |
| Breaker.FailedProbeCostsAWindow | src/dodeal_ai/core/breaker.py:134-220 | After a failed or unanswered probe the next call is admitted if and only if a full window has passed |
| Breaker.ClosedCountsEvidence | src/dodeal_ai/core/breaker.py:199-215 | While closed, the count is the counted failures since the last success or reset, and is below the threshold |
| Breaker.OpensExactlyOnEvidence | src/dodeal_ai/core/breaker.py:199-206 | A closed breaker opens if and only if a counted failure brings that evidence to the threshold |
| Breaker.ClosesExactlyOnProbeSuccess | src/dodeal_ai/core/breaker.py:173-215 | The only ways back to closed are a success in half open and a reset |
| Breaker.FailuresAreAdded | src/dodeal_ai/core/breaker.py:199-215 | In every state the count is the counted failures since the last success or reset, but for those that ended a probe |
| Breaker.LateFinishMovesTheNextAdmission | src/dodeal_ai/core/breaker.py:199-220 | A call that finishes while the breaker is open leaves it open, and moves the next admission, to one window after itself, if and only if it is a counted failure that brings the count to the threshold |
| Tokens.AddWithWindow | src/dodeal_ai/core/cost/limiter.py:94-123 | One charged counter: a new key, or one without expiry, starts a window; a running one is never extended |
| Tokens.EnforceCost | src/dodeal_ai/core/cost/limiter.py:126-170 | Both request counters move before the comparison and the denial names the tenant cap first; a store that does not answer denies nothing, whether or not the counters moved |
| Tokens.EnforceTokenCost | src/dodeal_ai/core/cost/limiter.py:251-327 | The meter moves both counters or neither and warns for exactly the counters this charge carried across the ratio; a charge that is not answered warns of nothing |
| Tokens.TokenPreflight | src/dodeal_ai/core/cost/limiter.py:330-399 | The read-only gate, which names exactly the counters that are near and lets a judgement through undegraded when the store does not answer |
| Tokens.CompleteOnce | src/dodeal_ai/units/structured_intelligence/llm_call.py:104-198 | Every answer is charged once, in full, to its tenant and user and nobody else, whether it parses or not, when the charge is applied |
| Tokens.CallModel | src/dodeal_ai/units/structured_intelligence/llm_call.py:249-346 | A second prompt goes out if and only if the first answer was bad and the judgement is not degraded; never a third; the result is that of the last answer, and both answers are charged |
| Tokens.EveryAnswerIsCharged | src/dodeal_ai/units/structured_intelligence/llm_call.py:189-198 | An applied charge raises exactly the tenant's and the user's counters by exactly the tokens of the answer, good or malformed; without an answer or an applied charge nothing moves |
| Tokens.BothAnswersAreCharged | src/dodeal_ai/units/structured_intelligence/llm_call.py:249-346 | After a reprompt both counters hold the sum of both answers, the discarded one included, on top of what they held, if the window still runs, and the second answer alone if it has ended |
| Tokens.RespondIsBilled | src/dodeal_ai/units/structured_intelligence/llm_call.py:189-198 | A response in the interleaving charges exactly what a model call charges |
| Tokens.TasksPromptLikeModelCalls | src/dodeal_ai/units/structured_intelligence/llm_call.py:249-346 | A task of the interleaving prompts once, and a second time if and only if its first answer was bad and the judgement is not degraded; it is over when it has a good answer or will not prompt again |
| Tokens.TicksEndWindows | src/dodeal_ai/core/cost/limiter.py:94-108 | Time passing moves no counter until its window ends, and then empties it |
| Tokens.InflightCounter.Acquire | src/dodeal_ai/core/inflight.py:37-42 | Admits below the limit and counts, or changes nothing |
| Tokens.InflightCounter.Release | src/dodeal_ai/core/inflight.py:44-45 | Gives one place back |
| Tokens.Handle | src/dodeal_ai/middleware/inflight.py:94-147 | The count balances: after a request that was let in it has changed by what the other requests did and nothing else, whether the application returned or raised, and after a shed one it is what it was |
| Overspend.ClearUpTo | src/dodeal_ai/core/cost/limiter.py:373-384 | A total is near its limit if and only if it is above the largest clear one, which is below the limit |
| Overspend.StepKeepsBound | src/dodeal_ai/core/cost/limiter.py:330-399 | Every step keeps what a counter holds plus what may still be charged under the ceiling |
| Overspend.RunKeepsBound | src/dodeal_ai/core/cost/limiter.py:330-399 | So does every run |
| Overspend.OverspendIsBounded | src/dodeal_ai/units/structured_intelligence/llm_call.py:189-346 | In every interleaving, window expiry included, a token counter is at most its ceiling: with N in flight and C the most one answer costs, the larger of limit - 1 + (6 x (N - 1) + 3) x C and largest clear total + 6 x N x C, plus 6 x C for each judgement let through unread that may still count, which is since the counter last held nothing and since one was last admitted that did read it; and that is at most limit - 1 + 6 x (N + unread) x C |
| Overspend.CeilingIsReached | src/dodeal_ai/units/structured_intelligence/llm_call.py:189-346 | For all settings with a window, every cost of an answer and every number of unread judgements, a run brings a tenant's counter to exactly that ceiling, and a user's when the user's limit is not above the tenant's: no smaller bound holds |
| Warnings.MeterContinues | src/dodeal_ai/core/cost/limiter.py:178-213 | Over every run each lifetime of a counter starts at 0 and continues from its own total |
| Warnings.OneWarningPerWindow | src/dodeal_ai/core/cost/limiter.py:216-248 | For any interleaving of charges exactly one charge of a window crosses the ratio of the limit if its total ever reaches it, and none otherwise; and the window's one warning is emitted if and only if that charge was answered |
| Warnings.DegradedMeansCrossed | src/dodeal_ai/core/cost/limiter.py:330-399 | A preflight degrades if and only if one of its counters is near, and for every counter that is, the crossing charge of its running window has already happened |
| Redaction.RedactText | src/dodeal_ai/core/redaction.py:61-81 | The scan as it runs, left to right, is the function the laws are about |
| Pattern.DateIsPattern | src/dodeal_ai/core/redaction.py:31-37 | The date matcher is the date alternative of the pattern under backtracking semantics |
| Pattern.TimeIsPattern | src/dodeal_ai/core/redaction.py:31-37 | The time matcher is the time alternative, with its optional seconds and its lookahead |
| Pattern.EmailIsPattern | src/dodeal_ai/core/redaction.py:31-37 | The email matcher is the email alternative, with the backtracking over labels |
| Pattern.RunIsPattern | src/dodeal_ai/core/redaction.py:31-37 | The run matcher is the digit-run alternative, with one or two separators before each digit |
| Pattern.MatchersAreThePattern | src/dodeal_ai/core/redaction.py:31-37 | The four matchers tried in order take exactly what the whole pattern takes at every position of every text |
| Pattern.ScanFollowsThePattern | src/dodeal_ai/core/redaction.py:31-81 | The scan moves by the length of the pattern's match, and by one where there is none |
| RedactionLaws.RedactionIsIdempotent | src/dodeal_ai/core/redaction.py:31-81 | For every text, redacting redacted text returns it unchanged with all three counts zero |
| RedactionLaws.RedactionCuts | src/dodeal_ai/core/redaction.py:31-81 | The redacted text agrees with the original up to the first replaced match, where a bracket stands |
| RedactionLaws.CutNext | src/dodeal_ai/core/redaction.py:31-81 | What the scan kept before a replacement it keeps again, and what it passed over it passes over again |
| RedactionLaws.PiecesEndClean | src/dodeal_ai/core/redaction.py:31-37 | A match that may be kept never stops inside a block of digits, and no digit is passed over |
| RedactionLaws.PiecesAreTheText | src/dodeal_ai/core/redaction.py:61-81 | The pieces of the scan are the whole text, in order |
| RedactionLaws.OnlyReplacedPiecesChange | src/dodeal_ai/core/redaction.py:61-81 | The redacted text is the same pieces with only the replaced ones changed |
| RedactionLaws.CountsAreTokens | src/dodeal_ai/core/redaction.py:61-81 | Each count is the number of tokens of its kind inserted |
| RedactionLaws.MatchKeepsItsKind | src/dodeal_ai/core/redaction.py:31-81 | A match that is not an email, cut out of its text, is still a date, a time or neither, as it was |
| RedactionLaws.KeptExactlyWhenHarmless | src/dodeal_ai/core/redaction.py:61-116 | A match that is not an email is kept if and only if it is a whole date or time that is plausible, or has too few digits; otherwise it becomes a phone token if it is formatted and an id token if it is bare |
| Runs.ClassesHoldTheirMembers | src/dodeal_ai/core/redaction.py:31-37 | Each character class holds exactly the characters listed for it, digits of three blocks among them |
| Runs.RunsAreKeptExactlyWhenShort | src/dodeal_ai/core/redaction.py:84-95 | A digit run of digits alone becomes an id token from 8 digits on, one with anything before or between its digits a phone token from 7 on, and any other is kept |
| Dates.YearFirstIsKeptExactlyWhen | src/dodeal_ai/core/redaction.py:98-108 | A date written with a year of four digits first, in any digits, is kept if and only if its second number is 1 to 12 and its third 1 to 31, or month and day have one digit each; otherwise it becomes a phone token |
| Dates.YearLastIsKeptExactlyWhen | src/dodeal_ai/core/redaction.py:98-108 | One with a year of two to four digits last is kept if and only if the other two are a month and a day in either order, or it has fewer than 7 digits; otherwise it becomes a phone token |
| Dates.EveryDateIsInGroups | src/dodeal_ai/core/redaction.py:31-37 | Every date the scan finds is of one of those two forms |
| Dates.ClockIsKept | src/dodeal_ai/core/redaction.py:111-116 | A time of hours and minutes is always kept, and counts as plausible if and only if hours are at most 23 and minutes at most 59 |
| Dates.ClockWithSecondsIsKept | src/dodeal_ai/core/redaction.py:111-116 | The same with seconds, which are at most 59 |
| Dates.TimesAreKept | src/dodeal_ai/core/redaction.py:61-95 | Every time the scan finds is kept, plausible or not |
| RedactionLaws.KeptItemsAreHarmless | src/dodeal_ai/core/redaction.py:84-116 | So is every piece that was kept |
| RedactionLaws.ResidueIsHarmless | src/dodeal_ai/core/redaction.py:31-116 | Whatever the scan still finds in redacted text is a whole plausible date or time, a formatted run of at most 6 digits or a bare one of at most 7 |
| Emails.EmailsSurviveExactlyWhenLeaked | src/dodeal_ai/core/redaction.py:31-81 | For every text, an email is left in the redacted text if and only if somewhere the scan keeps a match that ends with a character of a local part, and behind it come a sign and, before anything else that is replaced, a domain |
| Emails.SurvivingEmailsBeginInKeptMatches | src/dodeal_ai/core/redaction.py:31-81 | In particular one that is left begins inside a kept match that is harmless; when one is left, EmailsSurviveExactlyWhenLeaked says |
| Emails.AnEmailInAKeptRunStays | src/dodeal_ai/core/redaction.py:31-81 | A text in which that happens |
| RedactionLaws.NoLongDigitBlock | src/dodeal_ai/core/redaction.py:31-81 | No block of 8 or more consecutive digits survives |
| Prompting.NeutralisedHoldsNoDelimiter | src/dodeal_ai/core/prompting.py:209-215 | For every caller string neither delimiter is left in the data: the second replacement never recreates an END |
| Prompting.NeutraliseIsIdempotent | src/dodeal_ai/core/prompting.py:209-215 | Neutralising twice is neutralising once, and text without a delimiter is unchanged |
| Prompting.ReplaceRemoves | src/dodeal_ai/core/prompting.py:209-215 | Replacing leaves no occurrence of what was replaced |
| Prompting.ReplaceCreatesNothing | src/dodeal_ai/core/prompting.py:209-215 | Replacing creates no occurrence of another string that the replacement cannot be part of |
| Prompting.ReplaceAtFirstOccurrence | src/dodeal_ai/core/prompting.py:209-215 | The first occurrence is replaced, what stands before it is kept, and the rest is treated in the same way |
| Prompting.DelimitersOccurOnce | src/dodeal_ai/core/prompting.py:168-188 | The data section contains BEGIN at its start and nowhere else, and END at its end and nowhere else |
| Prompting.StrippingReturnsTheData | src/dodeal_ai/core/prompting.py:168-188 | Stripping the delimiters gives back the neutralised data |
| Prompting.TailChangesNothingBeforeIt | src/dodeal_ai/core/prompting.py:53-82 | A tail changes neither part before it, and the trusted part does not depend on the caller |
| Prompting.PartsAreInOrder | src/dodeal_ai/core/prompting.py:53-82 | Templates are joined in the order they are named with one separator between two, and the flat prompt is trusted text, data section and, if there is one, tail |
| Rounding.SpellingsAgree | src/dodeal_ai/units/structured_intelligence/measures.py:159-166 | The two integer spellings of round half up are the nearest integer and never disagree |
| Scoring.DeriveMarks | src/dodeal_ai/units/structured_intelligence/config.py:125-148 | The loop fills one table a component that has a weight |
| Scoring.MarkRow | src/dodeal_ai/units/structured_intelligence/config.py:144-147 | One table, entry by entry |
| Scoring.MarkTableIsAnEvenSplit | src/dodeal_ai/units/structured_intelligence/config.py:125-148 | A table runs from 0 to the weight, never falls, is the weight from the full count on, and is everywhere nearest to an even split |
| Scoring.EveryCheckIsWorthTheSame | src/dodeal_ai/units/structured_intelligence/config.py:125-148 | Entry k of n is the nearest whole number to k/n of the weight, and of the next step's to k/2 of it, up to the whole |
| Scoring.ValidateChecks | src/dodeal_ai/units/structured_intelligence/scoring.py:137-162 | The loop reports the two faults in check order, and none if and only if exactly the asked checks are answered |
| Scoring.ProblemsListed | src/dodeal_ai/units/structured_intelligence/scoring.py:137-162 | A missing answer and a surplus one are reported exactly when they occur |
| Scoring.AskedExactlyWhenItsComponentCounts | src/dodeal_ai/units/structured_intelligence/scoring.py:79-134 | A check is asked if and only if a component it belongs to is not suppressed by the type and is not the deal while the tenant leaves that out |
| Scoring.ShippedAsks | src/dodeal_ai/units/structured_intelligence/config.py:89-169 | Under the rubric shipped a no-contact note is asked about next step and clarity, any other about all but the deal |
| Scoring.ShippedActionsFollowTheBands | src/dodeal_ai/units/structured_intelligence/config.py:316-356 | Under the rubric shipped a total is accepted silently if and only if its band is good or excellent, with a flag if and only if it is fair, and sent back if and only if it is poor |
| Scoring.BandFor | src/dodeal_ai/units/structured_intelligence/config.py:300-313 | The early-return search |
| Scoring.BandsAreIntervals | src/dodeal_ai/units/structured_intelligence/config.py:300-313 | For a checked rubric the band of a total is the one whose interval contains it |
| Scoring.BandsFitExactlyWhen | src/dodeal_ai/units/structured_intelligence/config.py:435-441 | The startup check accepts the bands if and only if they are poor, fair, good and excellent with upper bounds growing from at least 0 to 100 |
| Scoring.CheckedThresholdsSplit | src/dodeal_ai/units/structured_intelligence/config.py:417-448 | Under a checked rubric each of the three actions is taken for some total |
| Scoring.MarksStayWithinWeights | src/dodeal_ai/units/structured_intelligence/scoring.py:178-197 | A mark lies between 0 and the weight, and closure earns the whole next-step weight whatever else was answered |
| Scoring.MarkIsTheShareOfYes | src/dodeal_ai/units/structured_intelligence/scoring.py:178-197 | Under any rubric a mark is the nearest whole number to the share of its weight that the checks answered yes are of its checks; for the next step closure earns it all, and so do two of its checks |
| Scoring.ShippedMarks | src/dodeal_ai/units/structured_intelligence/config.py:89-148 | With the shipped tables each mark is the rounded half or third per yes, and the next step is earned by closure alone or by action and date |
| Scoring.BandsGrow | src/dodeal_ai/units/structured_intelligence/config.py:300-313 | A higher total never has a lower band |
| Scoring.TotalIsTheNearestPercent | src/dodeal_ai/units/structured_intelligence/scoring.py:200-247 | The total lies between 0 and 100 and is within half a point of the exact percentage, over a denominator of at most 100 |
| Scoring.DistinctRawsShowDistinctTotals | src/dodeal_ai/units/structured_intelligence/scoring.py:200-247 | Two answer sets have the same total if and only if they have the same raw sum, and totals are ordered as raw sums are |
| Scoring.HundredMeansEveryMarkIsFull | src/dodeal_ai/units/structured_intelligence/scoring.py:200-247 | A total is 100 if and only if every applicable mark is its full weight, and 0 if and only if every one is 0 |
| Scoring.BreakdownExplainsTheTotal | src/dodeal_ai/units/structured_intelligence/scoring.py:229-247 | All five components are listed in order, a mark is shown exactly where the component counts, and shown marks out of shown weights round to the total |
| Scoring.MoreYesNeverCosts | src/dodeal_ai/units/structured_intelligence/scoring.py:178-247 | Turning any asked check to yes never lowers a mark, the total, the band or the action, and never turns allow into flag |
| Scoring.ScoredExactlyWhenSomethingCounts | src/dodeal_ai/units/structured_intelligence/scoring.py:223-225 | Valid answers are scored if and only if some component that counts for the type has a weight |
| Scoring.CheckedIsEnoughWithoutSuppression | src/dodeal_ai/units/structured_intelligence/config.py:417-436 | What the startup check asks of the weights is enough for every type that suppresses nothing, listed or not |
| Scoring.CheckedRubricsScore | src/dodeal_ai/units/structured_intelligence/config.py:417-448 | Under a checked rubric every check belongs to exactly one component, and the answers to a type that suppresses nothing can be scored |
| Scoring.ShippedQuestionsAreFew | src/dodeal_ai/units/structured_intelligence/config.py:316-356 | With the limits shipped any six hours hold at most two questions about one note, any hour at most six and any day at most twenty to one person, in every run of the slot script |
| Scoring.NoContactNeedsWeight | src/dodeal_ai/units/structured_intelligence/config.py:157-169 | With the shipped tables a checked rubric can score no-contact notes if and only if the next step or clarity has weight |
| Scoring.CheckedIsNotEnoughForNoContact | src/dodeal_ai/units/structured_intelligence/config.py:430-436 | A rubric that passes the startup check and can score no no-contact note |
| LengthGate.IsRecognisedShortNote | src/dodeal_ai/units/structured_intelligence/pipeline.py:440-469 | The phrase loop and the code test |
| LengthGate.SplitTakesAWord | src/dodeal_ai/units/structured_intelligence/pipeline.py:425-431 | A text is split at white space and nowhere else: blanks at the front go, and a word that white space or the end follows is the first word, whole |
| LengthGate.WordsLoseTrailingPunctuation | src/dodeal_ai/units/structured_intelligence/pipeline.py:417-431 | A word loses its trailing punctuation, all of it and nothing else |
| LengthGate.WordsAreTheStems | src/dodeal_ai/units/structured_intelligence/pipeline.py:425-431 | The words of a text are those between its white space, each without its trailing punctuation, and one that is nothing else is no word |
| LengthGate.CodesAreStemsWithANumber | src/dodeal_ai/units/structured_intelligence/pipeline.py:434-437 | A word is a code if and only if it is an entry of the table that does not end in a digit, with any digits behind it |
| LengthGate.RecognisedExactlyWhen | src/dodeal_ai/units/structured_intelligence/pipeline.py:440-469 | A note is recognised if and only if it is a phrase and then fillers, or every word is a code, a number or a filler and one is a code |
| LengthGate.GateSplitsTheNotes | src/dodeal_ai/units/structured_intelligence/pipeline.py:498-532 | For every note which of the three answers it gets, from its characters, its words and whether it is recognised |
| LengthGate.FillersAreRecognisedExactlyWhen | src/dodeal_ai/units/structured_intelligence/pipeline.py:440-469 | A note of fillers only is recognised if and only if a phrase opens it or one of the fillers is itself a code |
| LengthGate.ABlankPhraseRecognisesFillers | src/dodeal_ai/units/structured_intelligence/pipeline.py:458-463 | One blank phrase in a tenant's table recognises every note of fillers |
| LengthGate.LongNotesPassExactlyWhenRecognised | src/dodeal_ai/units/structured_intelligence/pipeline.py:498-532 | A note over the limit is let through if and only if it has too few tokens and is recognised |
| LengthGate.ALongNotePasses | src/dodeal_ai/units/structured_intelligence/pipeline.py:498-532 | Such a note exists for every limit |
| BodyLimit.DeclaredLength | src/dodeal_ai/middleware/body_limit.py:96-112 | The header loop |
| BodyLimit.FirstContentLengthDecides | src/dodeal_ai/middleware/body_limit.py:96-112 | The first content-length decides, whatever follows it |
| BodyLimit.ClaimsExactlyWhatIsSpelled | src/dodeal_ai/middleware/body_limit.py:96-112 | A header claims v if and only if its value is white space, an optional sign, groups of digits with one underscore between two, and white space, of no more digits than the language reads, it spells v and v is not negative |
| BodyLimit.SpacesSignsAndUnderscoresAreRead | src/dodeal_ai/middleware/body_limit.py:96-112 | A value that is not a plain integer and is a claim |
| BodyLimit.PlainLengthsAreRead | src/dodeal_ai/middleware/body_limit.py:96-112 | A plain decimal is read as its value, up to the longest the language reads, and a negative one is no claim |
| BodyLimit.JunkIsNoClaim | src/dodeal_ai/middleware/body_limit.py:96-112 | In particular a value with any stray character, such as two folded lengths, is no claim; the exact statement is ClaimsExactlyWhatIsSpelled |
| BodyLimit.Guard.constructor | src/dodeal_ai/middleware/body_limit.py:165-167 | The three variables of one request |
| BodyLimit.Guard.CountingReceive | src/dodeal_ai/middleware/body_limit.py:169-184 | Counts what goes past and refuses the moment the total passes the cap |
| BodyLimit.Guard.GuardedSend | src/dodeal_ai/middleware/body_limit.py:186-198 | Drops answers after a refusal unless a response has started |
| BodyLimit.Handle | src/dodeal_ai/middleware/body_limit.py:142-211 | One request, for any behaviour of the inner application and any way it ends |
| BodyLimit.DeliveredNeverExceedsTheCap | src/dodeal_ai/middleware/body_limit.py:169-184 | The application never gets more body bytes than the cap, even if it swallows the refusal and reads on |
| BodyLimit.DeclaredOversizeIsRefusedUnread | src/dodeal_ai/middleware/body_limit.py:152-163 | A declared oversize is one 413 with no read |
| BodyLimit.AdmittedRequestsPassOrGetOne413 | src/dodeal_ai/middleware/body_limit.py:200-211 | An overflow before any response start yields one 413, after what had been sent by then, unless the application raises its own error; in every other case the messages pass unchanged and in order |
| BodyLimit.OnlyThe413ExactlyWhenSilent | src/dodeal_ai/middleware/body_limit.py:186-211 | The client sees nothing but the 413 if and only if the application had sent nothing by the overflow |
| BodyLimit.RefusedExactlyOnOverflow | src/dodeal_ai/middleware/body_limit.py:169-198 | A request is refused with nothing started if and only if the body overflowed before any response start |
| BodyLimit.OverflowRefusesForGood | src/dodeal_ai/middleware/body_limit.py:169-198 | Such an overflow refuses for good, and nothing sent after it goes out |
| BodyLimit.TheCapIsTheLargestBody | src/dodeal_ai/middleware/body_limit.py:169-184 | A body of exactly the cap passes and one byte more does not |
| BodyLimit.EveryReadIsPassedOn | src/dodeal_ai/middleware/body_limit.py:169-184 | A request that is let in reads the wire exactly as often as the application asks, refused or not |
| Measures.SharesAreHonest | src/dodeal_ai/units/structured_intelligence/measures.py:150-166 | A share is reported exactly at or above the floor, is the nearest percent and lies in 0 to 100, and is otherwise withheld with the right reason |
| Measures.PercentsStayInRange | src/dodeal_ai/units/structured_intelligence/measures.py:225-298 | Improved never exceeds asked and flagged never exceeds notes |
| Measures.ImprovedCountsPositions | src/dodeal_ai/units/structured_intelligence/measures.py:252-313 | The improved figure counts exactly the positions that were asked about and are followed, after that very ask, by a better band of the same note |
| Measures.DriftIsExcludedAndCounted | src/dodeal_ai/units/structured_intelligence/measures.py:169-222 | Rows under another version pair are counted out, never averaged in, and a band is reported exactly at or above the floor |
| Measures.LatestVersionsAreAveraged | src/dodeal_ai/units/structured_intelligence/measures.py:169-222 | The typical band is that of the nearest whole mean of the totals made under both versions of the latest scored note, notes counts those rows and excluded the other scored ones |
| Measures.NothingScoredIsNothingMeasured | src/dodeal_ai/units/structured_intelligence/measures.py:188-196 | Without a scored note of the person's own there is nothing to measure |
| Measures.SharesCountPositions | src/dodeal_ai/units/structured_intelligence/measures.py:140-298 | By position in the rows: the flagged share is the flagged among all notes but the backend's own entries, the improved share is out of those of them that were asked about |
| Groups.GroupsConserve | src/dodeal_ai/units/structured_intelligence/brief.py:222-266 | Any weight of the rows that have a key is the sum over the groups: no row is lost or counted twice |
| Groups.ImprovementsConserve | src/dodeal_ai/units/structured_intelligence/measures.py:252-298 | Improvements of the groups sum to no more than the pooled figure, and to exactly it if and only if every asked row that has a better later row among all the groups has one in its own |
| Groups.OneGroupIsEnough | src/dodeal_ai/units/structured_intelligence/measures.py:252-298 | That holds when no note id is shared by two groups |
| Groups.ASharedNoteIsLost | src/dodeal_ai/units/structured_intelligence/measures.py:252-298 | Two rows of one note in two groups, whose improvement is in no group |
| Brief.SortedKeeps | src/dodeal_ai/units/structured_intelligence/brief.py:201-204 | The listed people are the members, each once, in name order |
| BriefLaws.TeamsAreListedOnceInOrder | src/dodeal_ai/units/structured_intelligence/brief.py:233-234 | Every team is listed once, in order, and every author with a team is in one of them |
| BriefLaws.TeamsPartitionTheRows | src/dodeal_ai/units/structured_intelligence/brief.py:233-248 | The teams' row sets and the unattributed rows partition all rows, with multiplicity |
| People.LastEntryDecides | src/dodeal_ai/units/structured_intelligence/brief.py:233-234 | A person is in the team of the last directory entry that names one |
| People.NoEntryNoTeam | src/dodeal_ai/units/structured_intelligence/brief.py:233-234 | And in none if no entry does |
| People.MembersAreTheEntries | src/dodeal_ai/units/structured_intelligence/brief.py:198-203 | The members of a team are its entries, each as often as it is listed |
| People.BeforeIsLexicographic | src/dodeal_ai/units/structured_intelligence/brief.py:205-208 | Names are ordered by their first different character, and a beginning comes before the whole |
| People.SortedIsStable | src/dodeal_ai/units/structured_intelligence/brief.py:205-208 | People of one name stay in the order of the directory |
| People.TeamBriefIsAboutItsPeople | src/dodeal_ai/units/structured_intelligence/brief.py:177-219 | A team brief is the team, over the notes of everybody an entry puts into it, and then each entry in name order, over the notes of that person |
| People.OrgBriefIsAboutItsTeams | src/dodeal_ai/units/structured_intelligence/brief.py:222-266 | The org brief is all teams, over the notes of everybody who is in one, then each team in name order, over the notes of the people in it, and the count of the other rows |
| People.RepBriefIsAboutOnePerson | src/dodeal_ai/units/structured_intelligence/brief.py:158-174 | A person's brief is one line, under that person's name, over all rows handed in |
| BriefLaws.BreakdownAddsUp | src/dodeal_ai/units/structured_intelligence/brief.py:222-266 | Note, flag and ask counts of a breakdown add up to the pooled line; improvements to no more, and to exactly it if and only if every asked row that has a better later row has one under its own key |
| BriefLaws.OrgBriefAddsUp | src/dodeal_ai/units/structured_intelligence/brief.py:222-266 | The same for the org brief's lines as sent, and the count of unattributed rows |
| BriefLaws.TeamBriefAddsUp | src/dodeal_ai/units/structured_intelligence/brief.py:177-219 | The people of a team brief add up to the team when nobody is listed twice |
| BriefLaws.ListedTwiceIsCountedTwice | src/dodeal_ai/units/structured_intelligence/brief.py:177-219 | A person the directory lists n times is counted n times in the people and once in the team |
| BriefLaws.PeopleAddUpExactlyWhenListedOnce | src/dodeal_ai/units/structured_intelligence/brief.py:177-219 | The people add up to the team for all rows if and only if nobody of the team is listed twice |
| BriefLaws.AFigureNeedsEnoughNotes | src/dodeal_ai/units/structured_intelligence/brief.py:72-79 | A line has a figure if and only if there are enough notes under it |
| BriefLaws.BriefIsSentExactlyWithEnoughNotes | src/dodeal_ai/units/structured_intelligence/brief.py:269-301 | A brief is sent if and only if the pooled rows it is about hold enough notes, and never without a team |
| Pooling.MeanIsNearest | src/dodeal_ai/units/structured_intelligence/measures.py:215-216 | The mean of totals is the nearest whole number to the exact one |
| Pooling.SomePartIsNoHigher | src/dodeal_ai/units/structured_intelligence/measures.py:169-222 | Under one version pair some group's rounded mean is at most the pooled one |
| Pooling.SomePartIsNoLower | src/dodeal_ai/units/structured_intelligence/measures.py:169-222 | And some group's is at least it |
| Pooling.PooledMeanIsBetweenTeamMeans | src/dodeal_ai/units/structured_intelligence/brief.py:222-266 | The pooled rounded mean and its band lie between the smallest and the largest team's |
| Eval.Tally.Add | scripts/run_eval.py:142-144 | A tally grows by what it is given |
| Eval.NoteOutcome.Record | scripts/run_eval.py:220-224 | One comparison enters a figure, and a disagreement when the sides differ |
| Eval.NoteOutcome.CompareChecks | scripts/run_eval.py:263-288 | One comparison a marked check; a check never asked is a disagreement |
| Eval.CompareNote | scripts/run_eval.py:197-260 | One note, figure by figure |
| Eval.Summary.AddOutcome | scripts/run_eval.py:348-354 | One outcome reaches exactly its three groups of tallies, and the tallies hold what all outcomes so far give |
| Eval.Summarise | scripts/run_eval.py:339-380 | After the loop every tally holds exactly what the outcomes give its group, and a group has tallies exactly when an outcome is in it |
| Eval.TypesAddUp | scripts/run_eval.py:339-354 | For every figure the per-type tallies sum to the overall tally |
| Eval.LanguagesAddUp | scripts/run_eval.py:339-354 | And so do the per-language tallies |
| Eval.EveryDifferenceIsListed | scripts/run_eval.py:197-288 | Every figure is counted exactly when it was marked, and every counted answer that did not match is one disagreement with two different sides |
| Eval.DisagreementRowsAreTheMisses | scripts/run_eval.py:497-510 | The number of disagreement rows is the sum over figures of counted minus matched |
| Agreement.OutcomeIsTheComparison | scripts/run_eval.py:197-260 | One note's outcome, whole: a figure is counted exactly when it was marked and matches exactly when the pass said the same; every difference is listed once, figure by figure, with the human's side and the model's; and the type is the human's, or else the classifier's |
| Agreement.ChecksMatchByPosition | scripts/run_eval.py:263-288 | Matched checks are the marked ones to which the pass gave the marked answer |
| Agreement.ChecksAreListedByPosition | scripts/run_eval.py:263-288 | The listed checks are the other marked ones, each with the mark and the answer given, or nothing where the check was not asked |
| Agreement.BandIsThatOfTheMarks | scripts/run_eval.py:171-194 | With a marked type the band compared with is that of the score of the marks, if they answer exactly what the type asks, and there is none otherwise; it raises exactly where that score has no denominator |
| Agreement.NoBandWithoutTypeAndMarks | scripts/run_eval.py:171-194 | Without a marked type or marks there is no band to compare with |
| Agreement.LanguageIsTheScripts | scripts/run_eval.py:117-130 | A text is mixed if and only if it holds both scripts, and Arabic if and only if it holds that one alone |
| Agreement.OutcomesAreNoteByNote | scripts/run_eval.py:339-380 | The run stops if and only if some note's comparison raises, and otherwise holds the outcome of every note in order |
| Agreement.RowsAreTheDisagreements | scripts/run_eval.py:497-510 | The report's rows are the disagreements of the notes, each under its own note's id |

## Left out

- HTTP, sockets, JSON and schema parsing, token verification, tenancy, logging, metrics, startup and shutdown: plumbing and libraries.
- The model providers and the prompt wording: a model answer is an arbitrary value.
- The note fingerprint: the text itself stands for its digest, that is, the digest is taken to be injective.
- Cancellation machinery: modelled by its effect only, a step that may occur at any wait.
- Reservation.MutualExclusion: assumes that a live holder's last store command lands before its own expiry, because the release is an unowned delete; ClockStepIsSafeExactlyWhenTimely shows that exclusion needs exactly that.
- The three passes between reserving and confirming are one kind of step in Reservation, and two kinds of stage in Tokens; their prompts and answers are not modelled.
- The fingerprint of the first prompt (state.py:481-549) and the original-note reference: written beside the counters and read only for linking.
- PromptSlots: limits are fixed through a run; a tenant whose limits change between requests is not modelled.
- Overspend.OverspendIsBounded: an unread judgement counts until the counter holds nothing or a judgement that read it is admitted, even if it has stopped before paying.
- Overspend.CeilingIsReached: of a user's counter only where the user's limit is not above the tenant's, as the shipped limits are; for a user's limit above the tenant's the ceiling still holds, and the least bound is not worked out.
- Warnings.OneWarningPerWindow: speaks of windows longer than zero; without a window nothing is held and there is no running window to warn in (NoWindowHoldsNothing).
- Retries, profiles, timeouts and the watchdog around a model call: a call that fails in any way is one that gave no answer.
- Time is measured in whole ticks in the store and in reals in the breaker; rounding of clock readings is not modelled.
- Redaction of names in other scripts than the pattern's classes, and the wording of the tokens: the pattern is followed as written.
- Tokens.Handle: the application inside is how it ends, and what other requests do meanwhile is one net change of the count; their interleaving is in the Enter and Leave steps of the machine.
- Prompt templates, their cache and their preloading: a template is an arbitrary string.
- LengthGate.IsRecognisedShortNote: case folding is given with the note, and the set of characters the language calls digits is a parameter.
- Decide: the enforcement block's list of what it applies to, and the wording of the fixed question in two languages.
- Scoring: the prompt that lists the asked checks.
- BodyLimit: scopes other than HTTP pass through untouched, and the request id inside the 413 body is not modelled.
- Brief: the rendered sentences, dates and column widths; a brief is its lines and its count of unattributed rows.
- Measures: timestamps and windows, which the store's read has already applied.
- Eval.Summarise: the nested dictionaries of tallies are one map from a group and a figure; pass latencies, reprompt counts, percentiles and the printed report are not modelled.
- Eval.CompareNote: the shown form of a value in the report; the two sides are kept as values.
