# PRAXIS InterviewOS: a proved model of its algorithms and protocols

The application records practice interviews: a realtime agent talks to a client over a web
socket, an AI gateway routes calls to language-model providers, and a backend keeps study items,
per-topic facts and paginated lists. This project models the parts of it that are algorithms or
protocols and proves what they promise, over all inputs and all runs.

| file | models |
|---|---|
| `WordErrorRate.dfy` | the edit-distance table of the speech benchmark |
| `Chunking.dfy` | assembly of overlapping retrieval chunks |
| `SessionReaper.dfy` | disconnect, reconnect and reaping of a live session |
| `OutboundQueue.dfy` | the bounded outbound queue and its sequence numbers |
| `AudioFrames.dfy` | the binary audio frames, client side and server side |
| `ProviderBreaker.dfy` | the backend's in-process circuit breaker |
| `GatewayResilience.dfy` | the gateway's Redis-backed breaker, one operation a step, and its retry loop |
| `SharedBreaker.dfy` | the same breaker shared by workers, one Redis command a step |
| `GatewayRouter.dfy` | candidate selection and the fallback loop |
| `BudgetGuard.dfy` | the check-then-commit spending guard under concurrency |
| `Pagination.dfy` | keyset pagination and whole walks over a changing table |
| `RankFusion.dfy` | reciprocal rank fusion of two result lists |
| `SpacedRepetition.dfy` | SM-2 scheduling and its two roundings |
| `AdaptiveDifficulty.dfy` | per-answer difficulty adjustment |
| `RateLimiter.dfy` | the per-minute request counter |
| `TopicFacts.dfy` | per-domain running facts |
| `Options.dfy` | the shared option type |

How the model is built. Code that changes state step by step is a class or a method with loops,
and each such method's contract ties the new state to a function of the old one; the lemmas are
about those functions and about every run of them. Concurrency is a state machine whose steps are
separated wherever the source awaits, except where "Left out" says otherwise. Floating-point values are exact reals with the source's own
roundings written out. The clock, the network, the providers and random jitter are arguments.

Where the code and its own words differ, the model follows the code:

- A paid candidate without consent or budget ends the route; the guard's documentation says the
  router moves on to the next candidate (`GatewayRouter.RefusalEndsRoute`).
- `check_and_reserve` reserves nothing: concurrent calls overshoot a cap, unless together they cost
  no more than the least estimate (`BudgetGuard.BoundAttained`, `BudgetGuard.CapRespectedIff`).
- The larger difficulty jump needs a correct answer before the deep one, not a deep one
  (`AdaptiveDifficulty.DoubleStepIff`).
- The half-open probe limit never limits (`ProviderBreaker.HalfOpenNeverFillsUp`), and the Redis
  breaker has no half-open state at all (`SharedBreaker.HalfOpenNeverStored`).
- The average in a topic row is the mean of the scores exactly while every mean fits the column's
  four decimals (`TopicFacts.AverageIsMeanIff`); otherwise it can depend on session order
  (`TopicFacts.OrderMattersWhenRounded`), by a bounded amount (`TopicFacts.AverageNearMean`).
- A client that returns at once can still have its session failed, if its claim falls between the
  reaper's check and its write (`SessionReaper.ClaimBetweenCheckAndFail`). The check itself passes
  over a live socket exactly when that one got past the record before the old socket's save, or
  failed to read it after (`SessionReaper.LiveAtCheckIff`); a client that is back before the save
  can always be missed this way (`SessionReaper.PromptReturnMissedIff`).
- A save whose expiry fails gets no reaper, and only a reaper that had already passed its check can
  still fail the session while that save stands (`SessionReaper.UnscheduledSaveFailedIff`).
- The Redis breaker can refuse without a full run of failures counted, exactly after one of two
  races between workers (`SharedBreaker.ExplainedIff`).
- Sequence numbers repeat exactly after a reconnect that resumes at or below one already delivered
  (`OutboundQueue.ReconnectRepeatsIff`): after a lost record, and also after a stale one, because
  claiming the session leaves the old number in it (`OutboundQueue.StaleRecordRepeatsNumbers`).
- They leave in order exactly until a numbered event that met a full queue is overtaken
  (`OutboundQueue.InOrderIff`, `OutboundQueue.ReorderIff`).

## Model

| member | source | states |
|---|---|---|
| WordErrorRate.Rate | ai-evaluation/runners/benchmark_stt.py:24-48 | the rate is the least number of single-word edits turning reference into hypothesis, over the reference length; 0 exactly on equal lists, never above max(1, hyp/ref); the empty-reference cases |
| WordErrorRate.FillTable | ai-evaluation/runners/benchmark_stt.py:32-46 | every cell of the in-place table is the distance of the two prefixes it stands for |
| WordErrorRate.DistanceIsEditDistance | ai-evaluation/runners/benchmark_stt.py:38-46 | a script of that many edits exists and no script is shorter, although a match skips two neighbours |
| WordErrorRate.Neighbours | ai-evaluation/runners/benchmark_stt.py:40-46 | dropping a last word changes the distance by at most one, which is why skipping is harmless |
| WordErrorRate.Triangle | ai-evaluation/runners/benchmark_stt.py:32-46 | the distance obeys the triangle inequality |
| WordErrorRate.DistanceSymmetric | ai-evaluation/runners/benchmark_stt.py:32-46 | the distance is symmetric |
| WordErrorRate.DistanceZero | ai-evaluation/runners/benchmark_stt.py:32-46 | the distance is zero exactly on equal lists |
| WordErrorRate.DistanceBounds | ai-evaluation/runners/benchmark_stt.py:29-48 | it lies between the length difference and the larger length |
| Chunking.ChunkText | packages/ai-gateway/praxis_ai_gateway/chunking.py:35-80 | terminates for all budgets; chunks are contiguous, cover all units, start strictly later and end no earlier each time, share the longest affordable tail, rebuild the units once overlaps are dropped; at most one chunk per unit, loop passes counted exactly, an oversized chunk is a single unit |
| Chunking.Overlap | packages/ai-gateway/praxis_ai_gateway/chunking.py:49-66 | the repeated units are the longest proper tail of the finished chunk within the overlap budget |
| Chunking.RebuildGivesUnits | packages/ai-gateway/praxis_ai_gateway/chunking.py:36-80 | chunks without their shared openings, joined, are the unit list |
| Chunking.ChunkStartsIncrease | packages/ai-gateway/praxis_ai_gateway/chunking.py:46-70 | each chunk starts at least one unit after its predecessor |
| Chunking.ChunkingUnique | packages/ai-gateway/praxis_ai_gateway/chunking.py:36-80 | the stated conditions determine the chunks: two lists that meet them are equal |
| Chunking.TwoUnits | packages/ai-gateway/praxis_ai_gateway/chunking.py:46-78 | two units are one chunk exactly when together they do not exceed the target, and otherwise two without repetition |
| Chunking.OverlapOfPair | packages/ai-gateway/praxis_ai_gateway/chunking.py:54-60 | of a chunk of two the last is repeated exactly when it does not exceed the overlap budget |
| SessionReaper.ReaperPassesIff | realtime-agent/realtime_agent/app/main.py:848-854 | in every run a waking reaper goes on exactly when its own connection's save is the last write to the record and the key, found by the last setting of its expiry, is younger than the grace period and the extra minute |
| SessionReaper.ReaperPassesAloneIff | realtime-agent/realtime_agent/app/main.py:842-854 | with the expiry set in the second of the save and no other since: exactly while that save is the last write, until a minute after the deadline |
| SessionReaper.ExpiryFrom | realtime-agent/realtime_agent/app/main.py:842-843 | an expiry set after the last write gives the key the grace period and a minute if it finds it, and otherwise there is no key any more |
| SessionReaper.WritesKeepExpiry | realtime-agent/realtime_agent/app/main.py:622-843 | until it is deleted, a key found by the last setting of its expiry expires exactly the grace period and sixty seconds after it, whatever claims and saves come in that time, and is there exactly until then |
| SessionReaper.LateWriteNeverLapses | realtime-agent/realtime_agent/app/main.py:617-622 | a claim or save after that time makes a key that never lapses unless an expiry is set again |
| SessionReaper.LastWriteSays | realtime-agent/realtime_agent/app/main.py:622-863 | the record is active or reconnecting under the connection of its last claim or save, and gone after a deletion |
| SessionReaper.ReadDecides | realtime-agent/realtime_agent/app/main.py:457-464 | a read finds something to claim exactly when the key is there and its record reconnecting |
| SessionReaper.ClaimsOrStarts | realtime-agent/realtime_agent/app/main.py:617-639 | a connection claims only what it read as reconnecting and starts only if it read nothing of the kind or could not read |
| SessionReaper.StatusFromLast | realtime-agent/realtime_agent/app/main.py:635-862 | the status is that of the last start, finish or failing write, so a start after a failure reopens the session |
| SessionReaper.FinishesIfLive | realtime-agent/realtime_agent/app/main.py:794-805 | a closing connection can finish the session exactly when it once claimed or started it |
| SessionReaper.ComesAfter | realtime-agent/realtime_agent/app/main.py:859-863 | only admitted connections have a phase, and only a reaper that failed the session deletes its record |
| SessionReaper.AbandonedIsOver | realtime-agent/realtime_agent/app/main.py:865-866 | a reaper one of whose calls raised does nothing more |
| SessionReaper.StaleReaperNeverFires | realtime-agent/realtime_agent/app/main.py:848-854 | a reaper whose save was overwritten by a claim or a later disconnect never fires |
| SessionReaper.RecordOutlivesReaper | realtime-agent/realtime_agent/app/main.py:842-849 | while a disconnect's save stands, a key that its expiry found lasts at least a full minute past its reaper's deadline |
| SessionReaper.ReapedOnlyAfterGrace | realtime-agent/realtime_agent/app/main.py:848-863 | a session is failed only after such a check, the grace period after the reaper was scheduled; it was claimed since the save exactly when a claim came between check and write |
| SessionReaper.UnscheduledSaveStopsReapers | realtime-agent/realtime_agent/app/main.py:832-846 | a save whose expiry raised never gets a reaper, and while it stands no other connection's reaper passes its check |
| SessionReaper.UnscheduledSaveFailedIff | realtime-agent/realtime_agent/app/main.py:842-862 | while it stands a reaper can come to fail the session exactly if it had passed its check before that save |
| SessionReaper.UnscheduledSaveFailed | realtime-agent/realtime_agent/app/main.py:842-862 | a run in which one does |
| SessionReaper.ClaimBetweenCheckAndFail | realtime-agent/realtime_agent/app/main.py:851-863 | for every grace period, with one socket at a time, a client that reads the record in the second of the disconnect and claims between check and write is failed while live |
| SessionReaper.PassesOverLiveIff | realtime-agent/realtime_agent/app/main.py:457-464 | as long as reads of the record succeed, a disconnect's reaper can pass its check while a socket is live exactly when, at the save, another socket was live or had read the record and found nothing to claim |
| SessionReaper.PassesOverAnyLiveIff | realtime-agent/realtime_agent/app/main.py:457-464 | when reads may fail, exactly when the session is open at the save, or another socket then is admitted and has not read, or is past the record |
| SessionReaper.SecondSocketIsNotSeen | realtime-agent/realtime_agent/app/main.py:457-464 | a run with two sockets in which the check passes over the live one |
| SessionReaper.FailedReadIsNotSeen | realtime-agent/realtime_agent/app/main.py:457-461 | a run with one socket at a time in which a failed read after the save leads to it |
| SessionReaper.LiveAtCheckIff | realtime-agent/realtime_agent/app/main.py:779-854 | with one open socket at a time, a socket is live at a passing check exactly when it has begun and not been lost, and either was admitted and got past the record between the old socket's loss and its save, or failed to read after the save |
| SessionReaper.ReaperSparesLiveSocket | realtime-agent/realtime_agent/app/main.py:779-854 | so no socket is live then if none was admitted between loss and save and no read failed after |
| SessionReaper.PromptReturnMissedIff | realtime-agent/realtime_agent/app/main.py:779-807 | from the loss of the only open socket, with one open at a time and no failing read, the check can pass over a live socket exactly when the session is open at the loss |
| SessionReaper.PromptReturnIsNotSeen | realtime-agent/realtime_agent/app/main.py:779-807 | such a run: the client is back before the save |
| SessionReaper.SessionTasks.SaveForReconnect | realtime-agent/realtime_agent/app/main.py:832-846 | the save rewrites state and owner and keeps the key's time to live; if it raises nothing is written |
| SessionReaper.SessionTasks.ExpireAndSchedule | realtime-agent/realtime_agent/app/main.py:842-868 | a key that is there gets its expiry past the grace period and the reaper is scheduled; if the call raises neither is done |
| SessionReaper.SessionTasks.ReadRecord | realtime-agent/realtime_agent/app/main.py:457-464 | the read decides between claiming and starting, and a read that raises counts as an empty record |
| SessionReaper.SessionTasks.ClaimSession | realtime-agent/realtime_agent/app/main.py:617-622 | the claim rewrites state and owner and keeps the key's time to live |
| SessionReaper.SessionTasks.ReaperWakes | realtime-agent/realtime_agent/app/main.py:849-854 | the reaper's check on the mutable record is the modelled step, and a read that raises ends the reaper |
| OutboundQueue.EveryOfferAccountedFor | realtime-agent/realtime_agent/app/main.py:472-502 | at every step the offers are exactly the delivered, queued, waiting, in-flight, dropped and lost ones, and only non-critical ones are dropped |
| OutboundQueue.OfferOutcome | realtime-agent/realtime_agent/app/main.py:475-485 | an envelope takes the next number and raw audio none; the event is queued below 200, and at 200 waits if critical and is dropped if not |
| OutboundQueue.QueueBounded | realtime-agent/realtime_agent/app/main.py:472 | the queue never holds more than 200 |
| OutboundQueue.ReconnectsFrom | realtime-agent/realtime_agent/app/main.py:473 | a connection opens after the one before has stopped, and starts from 1 or from the number that was next at the last save not lost since |
| OutboundQueue.RecordSays | realtime-agent/realtime_agent/app/main.py:807-846 | the record holds the number that was next when last saved, or nothing once lost |
| OutboundQueue.SilentAfterStop | realtime-agent/realtime_agent/app/main.py:490-502 | after a failed send or a stop nothing more is delivered on that connection |
| OutboundQueue.NoNumberDeliveredTwice | realtime-agent/realtime_agent/app/main.py:471-502 | over any reconnects that each start above what was delivered, no sequence number is delivered twice |
| OutboundQueue.ResumesStartAbove | realtime-agent/realtime_agent/app/main.py:807-836 | reconnects that resume from the number their predecessor saved do start above |
| OutboundQueue.ReconnectRepeatsIff | realtime-agent/realtime_agent/app/main.py:471-502 | with no repeat so far, the next connection can repeat a number, before any further reconnect, exactly when some delivered number is at least the one it resumes from |
| OutboundQueue.ReconnectReassignsIff | realtime-agent/realtime_agent/app/main.py:471-478 | and it can assign a number a second time exactly when some assigned number is at least that |
| OutboundQueue.LostRecordRepeatsNumbers | realtime-agent/realtime_agent/app/main.py:459-473 | a run in which the record is lost, numbering restarts and 1 is delivered twice |
| OutboundQueue.StaleRecordRepeatsNumbers | realtime-agent/realtime_agent/app/main.py:617-622 | a run in which the record stays, but a second connection fails to save its number, and 2 is delivered twice |
| OutboundQueue.NumberAssignedTwice | realtime-agent/realtime_agent/app/main.py:807-831 | the number saved on disconnect is used by the last transition event and again by the next connection |
| OutboundQueue.InOrderIff | realtime-agent/realtime_agent/app/main.py:475-502 | the delivered, in-flight and queued numbers stay increasing through a run, across connections, exactly when no waiting event is admitted behind a larger number |
| OutboundQueue.DeliveredInOrder | realtime-agent/realtime_agent/app/main.py:475-502 | and then the delivered numbers strictly increase |
| OutboundQueue.NoOverflowInOrder | realtime-agent/realtime_agent/app/main.py:475-502 | in particular if no numbered critical event ever meets a full queue |
| OutboundQueue.ReorderIff | realtime-agent/realtime_agent/app/main.py:475-502 | a live connection in order can go on to deliver out of order, with no reconnect and no further numbered overflow, exactly when some waiting event carries a number |
| OutboundQueue.ReconnectClearsWaiting | realtime-agent/realtime_agent/app/main.py:472-483 | a reconnect above what was delivered makes the order safe again, whatever was waiting |
| OutboundQueue.OverflowReorders | realtime-agent/realtime_agent/app/main.py:479-483 | a first connection on which one overflow delivers 202 before 201 |
| OutboundQueue.Outbound.EnqueueEvent | realtime-agent/realtime_agent/app/main.py:475-485 | numbering, bounded put, waiting put and drop, as one step on the mutable queue |
| OutboundQueue.Outbound.OpenConnection | realtime-agent/realtime_agent/app/main.py:471-473 | a new connection starts from the number in the record, or from 1 when there is none or the read fails |
| AudioFrames.HeaderRoundTrip | scripts/clients/praxis_client.py:177-178 | unpacking a packed header gives the header back |
| AudioFrames.BytesRoundTrip | realtime-agent/realtime_agent/app/main.py:671 | packing an unpacked header gives the 18 bytes back |
| AudioFrames.HeaderLayout | realtime-agent/realtime_agent/app/main.py:671 | where each field lies in the 18 bytes, integers most significant byte first |
| AudioFrames.Receiver.Receive | realtime-agent/realtime_agent/app/main.py:664-694 | verdict, error code and remembered number for every frame |
| AudioFrames.VerdictOnBytes | realtime-agent/realtime_agent/app/main.py:664-694 | the verdict, its error code and the remembered number in terms of the bytes of the frame |
| AudioFrames.AcceptedIff | realtime-agent/realtime_agent/app/main.py:664-694 | a frame is accepted exactly when well formed and numbered above every earlier version-1 audio frame, accepted or not |
| AudioFrames.AcceptedFrames | realtime-agent/realtime_agent/app/main.py:681-694 | accepted numbers strictly increase; accepted payloads have the declared, even length of at most a mebibyte |
| AudioFrames.FrameBuffer | scripts/clients/praxis_client.py:168-180 | the client sends the buffer's whole 640-byte frames in order, all of them exactly when they number at most 2^32 |
| AudioFrames.ClientFrameLayout | scripts/clients/praxis_client.py:168-180 | a client frame is 658 bytes: kind and version 1, its place as number, 640 as length, and its 640 bytes of the buffer |
| AudioFrames.ClientFrameAccepted | scripts/clients/praxis_client.py:174-179 | every client frame is accepted with its full payload |
| AudioFrames.ServerHearsClient | realtime-agent/realtime_agent/app/main.py:657-694 | the accepted payloads join up to exactly the framed part of the buffer |
| ProviderBreaker.CounterIsLargestSurplus | backend/app/services/provider_resilience.py:75-97 | while closed the leaky counter is the largest surplus of failures over successes among all suffixes since closing |
| ProviderBreaker.TripsIff | backend/app/services/provider_resilience.py:87-97 | it trips exactly when some window ending in a failure first reaches the threshold |
| ProviderBreaker.ClosesOnlyAfterProbation | backend/app/services/provider_resilience.py:59-97 | it closes again only after the recovery timeout since the last failure and then the exact number of successes with no failure between, and it closes with its counter at zero |
| ProviderBreaker.ProbationOutcome | backend/app/services/provider_resilience.py:75-83 | on probation that many successes close it and fewer do not |
| ProviderBreaker.AllowedUntilThreshold | backend/app/services/provider_resilience.py:59-63 | while no window has reached the threshold every call is allowed |
| ProviderBreaker.AllowedAfterTimeout | backend/app/services/provider_resilience.py:64-71 | once one has, and with no ask since in time, a call is allowed exactly when the recovery timeout has passed since the latest failure |
| ProviderBreaker.ProbationStarts | backend/app/services/provider_resilience.py:64-83 | an ask before that leaves it open; the one after it starts a probation that enough successes close |
| ProviderBreaker.LastFailureIsLatest | backend/app/services/provider_resilience.py:90-91 | the time compared is that of the latest failure |
| ProviderBreaker.ProvidersIndependent | backend/app/services/provider_resilience.py:48-57 | a provider's entry depends on its own events only |
| ProviderBreaker.HalfOpenNeverFillsUp | backend/app/services/provider_resilience.py:64-73 | in every run half-open admits every call, or none if the limit is not positive |
| ProviderBreaker.CircuitBreaker.CanCall | backend/app/services/provider_resilience.py:59-73 | on the provider's own events so far: allowed until the threshold, and while open exactly from the recovery timeout on; answer and new entry on the mutable table |
| ProviderBreaker.CircuitBreaker.RecordSuccess | backend/app/services/provider_resilience.py:75-85 | new entry on the mutable table, other providers untouched |
| ProviderBreaker.CircuitBreaker.RecordFailure | backend/app/services/provider_resilience.py:87-97 | new entry on the mutable table, other providers untouched |
| GatewayResilience.CounterIsStreak | packages/ai-gateway/praxis_ai_gateway/resilience.py:42-64 | when operations do not interleave the Redis failure counter is the current run of failures, and half-open is never stored |
| GatewayResilience.RefusedIff | packages/ai-gateway/praxis_ai_gateway/resilience.py:38-93 | when operations do not interleave a call is refused exactly while some failure that completed or extended a full run, on a breaker not open then, is younger than the cooldown and unanswered by a success |
| GatewayResilience.FullRunOpens | packages/ai-gateway/praxis_ai_gateway/resilience.py:42-47 | each failure in a full run leaves the breaker open, so after a cooldown one more failure suffices |
| GatewayResilience.FifthFailureRefuses | packages/ai-gateway/praxis_ai_gateway/resilience.py:42-47 | five failures in a row turn calls away for thirty seconds after the fifth, fewer never |
| SharedBreaker.FailAlone | packages/ai-gateway/praxis_ai_gateway/resilience.py:42-47 | the commands of an uninterrupted failure come to the one-step operation |
| SharedBreaker.SucceedAlone | packages/ai-gateway/praxis_ai_gateway/resilience.py:49-63 | and so do those of an uninterrupted success |
| SharedBreaker.HalfOpenNeverStored | packages/ai-gateway/praxis_ai_gateway/resilience.py:38-93 | in every interleaving half-open is never stored and nobody claims a probe |
| SharedBreaker.CounterIsIncrements | packages/ai-gateway/praxis_ai_gateway/resilience.py:42-63 | the counter is the number of increments since it was last deleted |
| SharedBreaker.SuccessWrites | packages/ai-gateway/praxis_ai_gateway/resilience.py:49-63 | only a success writes "closed" or deletes the counter, after its read, and writes "closed" only if it read otherwise |
| SharedBreaker.RefusedIff | packages/ai-gateway/praxis_ai_gateway/resilience.py:38-88 | in every interleaving a check is refused exactly while the last write of the state opened it less than the cooldown ago, after an increment that made a full run and a read that found it not open |
| SharedBreaker.ExplainedIff | packages/ai-gateway/praxis_ai_gateway/resilience.py:42-63 | through a run every refusal has a full run of failures counted exactly when no opening comes after the counter fell and no deletion while it is open |
| SharedBreaker.SuccessThenOpen | packages/ai-gateway/praxis_ai_gateway/resilience.py:42-54 | a run with the first race: refused with no failure counted |
| SharedBreaker.OpenThenDelete | packages/ai-gateway/praxis_ai_gateway/resilience.py:42-54 | a run with the second |
| GatewayResilience.WithRetries | packages/ai-gateway/praxis_ai_gateway/resilience.py:95-142 | result, number of calls, breaker effect and exact backoff of the retry loop; at most maxRetries + 1 calls |
| GatewayResilience.RetriedUntilReturned | packages/ai-gateway/praxis_ai_gateway/resilience.py:105-121 | after k failures by rate limit, timeout or server error, uncancelled and within the retries, a returning call is the result of k + 1 calls |
| GatewayResilience.RetriedUntilHopeless | packages/ai-gateway/praxis_ai_gateway/resilience.py:114-142 | an authentication or unknown error there ends the loop with that kind |
| GatewayResilience.RetriedInVain | packages/ai-gateway/praxis_ai_gateway/resilience.py:118-123 | if all maxRetries + 1 calls fail in the three ways the last kind is the result |
| GatewayResilience.RetriedUntilCancelled | packages/ai-gateway/praxis_ai_gateway/resilience.py:103-140 | a cancellation before, in or after the call ends it as cancelled |
| GatewayResilience.BackoffIsGeometric | packages/ai-gateway/praxis_ai_gateway/resilience.py:124-125 | n waits come to base * (2^n - 1) and at most 50 ms of jitter each |
| GatewayResilience.DefaultWaits | packages/ai-gateway/praxis_ai_gateway/resilience.py:100-125 | with the default base the waits are 200 and 400 ms and their jitter |
| GatewayResilience.BackoffBound | packages/ai-gateway/praxis_ai_gateway/resilience.py:124-125 | waits total at most base * (2^retries - 1) + 50 * retries ms |
| GatewayResilience.AftermathCounter | packages/ai-gateway/praxis_ai_gateway/resilience.py:105-142 | every failing call adds exactly one recorded failure; a returning call clears them |
| GatewayRouter.FilterCandidates | packages/ai-gateway/praxis_ai_gateway/registry.py:56-92 | the qualifying configurations, in registry order |
| GatewayRouter.SelectCandidates | packages/ai-gateway/praxis_ai_gateway/router.py:79-102 | the filtered, permitted and ordered candidate list of one request |
| GatewayRouter.SelectedExactly | packages/ai-gateway/praxis_ai_gateway/router.py:79-102 | a candidate is in that list exactly when its provider is known, allowed, and local and free where that is asked for |
| GatewayRouter.RegistryOrder | packages/ai-gateway/praxis_ai_gateway/router.py:79-102 | without a preferred provider the list is in registry order |
| GatewayRouter.PreferredFirstIsStable | packages/ai-gateway/praxis_ai_gateway/router.py:101-102 | the order keeps all candidates, the preferred provider's first, each group in its own order |
| GatewayRouter.Router.Route | packages/ai-gateway/praxis_ai_gateway/router.py:115-216 | the result and the breakers are decided by the first candidate not passed over; a positive cost is added to the day's and the session's counter exactly when the serving provider is outside the free tier |
| GatewayRouter.ServedIff | packages/ai-gateway/praxis_ai_gateway/router.py:118-158 | a reached candidate serves exactly when nothing refuses it, its breaker admits it and some call within the retry budget returns |
| GatewayRouter.DecisionUnique | packages/ai-gateway/praxis_ai_gateway/router.py:118-216 | the conditions determine the result |
| GatewayRouter.RefusalEndsRoute | packages/ai-gateway/praxis_ai_gateway/router.py:120-123 | a paid candidate reached without consent or budget ends the route whatever follows it |
| GatewayRouter.RefusedFor | packages/ai-gateway/praxis_ai_gateway/router.py:118-123 | a reached provider outside the free tier needs consent, and both its prices under the five-dollar day and the one-dollar session; inside it neither is asked |
| GatewayRouter.BrokenPassedOver | packages/ai-gateway/praxis_ai_gateway/router.py:125-131 | a breaker that turns the candidate away sends the loop on |
| GatewayRouter.ReturningServes | packages/ai-gateway/praxis_ai_gateway/router.py:133-158 | an admitted candidate one of whose calls returns within the retries is the result |
| GatewayRouter.FailingPassedOver | packages/ai-gateway/praxis_ai_gateway/router.py:160-216 | a call that fails for good sends the loop on |
| GatewayRouter.FailureNamed | packages/ai-gateway/praxis_ai_gateway/router.py:160-216 | when all failed, the last failure of each provider called is named |
| GatewayRouter.TriedCounter | packages/ai-gateway/praxis_ai_gateway/router.py:125-156 | trying a candidate records its failed calls on its own provider and touches no other |
| BudgetGuard.SpendBounded | packages/ai-gateway/praxis_ai_gateway/budget.py:50-75 | in any interleaving, across midnights and expiries, a counter stays within cap - least estimate + calls in flight on it * greatest cost, whatever calls on other counters do |
| BudgetGuard.BoundAttained | packages/ai-gateway/praxis_ai_gateway/budget.py:50-75 | for every daily counter, every session counter with a non-empty id and every load that lets a call cost something, its least estimate within the cap, some run spends exactly that bound |
| BudgetGuard.CapRespectedIff | packages/ai-gateway/praxis_ai_gateway/budget.py:50-75 | for such counters, every run respects the cap exactly when the calls in flight at once can together cost no more than the least estimate |
| BudgetGuard.SerialSpendWithinCap | packages/ai-gateway/praxis_ai_gateway/budget.py:50-75 | one call at a time, none above its estimate: spend never passes a cap |
| BudgetGuard.Guard.CheckAndReserve | packages/ai-gateway/praxis_ai_gateway/budget.py:50-64 | which cap refuses, and that nothing is changed |
| BudgetGuard.Guard.CommitSpend | packages/ai-gateway/praxis_ai_gateway/budget.py:66-75 | both counters take the cost |
| BudgetGuard.CommittedAdds | packages/ai-gateway/praxis_ai_gateway/budget.py:66-75 | the cost goes to the user's counter of the day and to a named session's, and nowhere else |
| BudgetGuard.OtherSteps | packages/ai-gateway/praxis_ai_gateway/budget.py:66-75 | an expiry empties one counter, giving up ends one call, and midnight leaves all spend |
| BudgetGuard.CheckIsTwoReads | packages/ai-gateway/praxis_ai_gateway/budget.py:50-64 | a call whose two reads are not interrupted is admitted exactly when the guard's check passes |
| BudgetGuard.CommitIsTwoCommits | packages/ai-gateway/praxis_ai_gateway/budget.py:66-75 | and its two commits leave what the guard's commit leaves |
| Pagination.CursorRoundTrip | backend/app/repositories/base.py:30-39 | a cursor decodes to the row it was made from, even if the timestamp's text has underscores |
| Pagination.DecodeIff | backend/app/repositories/base.py:34-39 | a cursor reads as the texts before and after its last underscore, and is invalid otherwise |
| Pagination.CursorCases | backend/app/repositories/base.py:52-53 | an empty cursor asks for the first page and one without underscore is an error |
| Pagination.PageContents | backend/app/repositories/base.py:51-69 | a page holds the greatest visible rows and a next cursor appears exactly when rows were left out |
| Pagination.PageNewestFirst | backend/app/repositories/base.py:62 | a page lists rows by falling time and, within one time, falling id |
| Pagination.PageTakesNewest | backend/app/repositories/base.py:52-64 | a row it leaves out is older than its last, or as old with a smaller id |
| Pagination.PageAfterCursor | backend/app/repositories/base.py:53-61 | after a cursor every row is older than the cursor's, or as old with a smaller id |
| Pagination.PageSize | backend/app/repositories/base.py:51-63 | pages hold 20 rows by default, as many as asked for from 1 to 100, or all there are |
| Pagination.WalkDescends | backend/app/repositories/base.py:52-69 | following cursors over a changing table returns strictly decreasing keys |
| Pagination.WalkNewestFirst | backend/app/repositories/base.py:52-69 | a whole walk lists rows newest first, over whatever tables |
| Pagination.NoRowTwice | backend/app/repositories/base.py:52-69 | so no row comes twice |
| Pagination.WalkMissesNothing | backend/app/repositories/base.py:52-69 | a finished walk returns every row present throughout |
| Pagination.WalkInventsNothing | backend/app/repositories/base.py:62-64 | every returned row was there when its page was read |
| Pagination.FixedTableWalk | backend/app/repositories/base.py:51-69 | on a fixed table with one limit the walk finishes in the stated number of pages |
| Pagination.PagesForIsCeiling | backend/app/repositories/base.py:51-64 | that number is max(1, ceil(rows / limit)) |
| RankFusion.Fuse | packages/ai-gateway/praxis_ai_gateway/retrieval.py:116-143 | min(k, union) distinct chunks with exact totals and ranks, best first, nothing omitted ahead of anything returned, ties by first meeting |
| RankFusion.SortIsStable | packages/ai-gateway/praxis_ai_gateway/retrieval.py:132-133 | the sort is a stable descending permutation |
| RankFusion.ListScore | packages/ai-gateway/praxis_ai_gateway/retrieval.py:120-130 | an id of a repeat-free list scores 1/(60 + its rank) there |
| RankFusion.ScoreOfBoth | packages/ai-gateway/praxis_ai_gateway/retrieval.py:120-130 | a chunk on both lists scores 1/(60 + rank) for each rank, counted from 1 |
| RankFusion.ScoreOfOne | packages/ai-gateway/praxis_ai_gateway/retrieval.py:120-130 | and one on a single list for that one |
| RankFusion.ScoresFall | packages/ai-gateway/praxis_ai_gateway/retrieval.py:132-143 | scores fall through the result, and equal ones are in the order of first meeting, vector list first |
| RankFusion.FusionSize | packages/ai-gateway/praxis_ai_gateway/retrieval.py:132-143 | k results, or all the different chunks there are |
| RankFusion.AgreementComesFirst | packages/ai-gateway/praxis_ai_gateway/retrieval.py:104-133 | for k up to 30 every chunk both searches found precedes every chunk only one found |
| RankFusion.AgreementCanLose | packages/ai-gateway/praxis_ai_gateway/retrieval.py:104-133 | for every k from 31 on that fails |
| SpacedRepetition.StudyItem.ReviewItem | backend/app/services/study.py:42-58 | the stored row after a review, and that a bad quality changes nothing |
| SpacedRepetition.ReviewStep | backend/app/services/sm2.py:16-36 | ease and interval after both roundings, the reset, and growth by at least a quarter |
| SpacedRepetition.EaseMoves | backend/app/services/sm2.py:20-36 | the ease moves by -0.80, -0.54, -0.32, -0.14, 0 or +0.10 for qualities 0 to 5, not below 1.3 |
| SpacedRepetition.IntervalMoves | backend/app/services/sm2.py:22-36 | one day, then six, then interval times ease to the nearest day, halves to even |
| SpacedRepetition.NullsAreDefaults | backend/app/services/study.py:42-50 | a missing ease reads as 2.5 and a missing interval as one day |
| SpacedRepetition.HistoryHealthy | backend/app/services/study.py:46-56 | over every review history: ease at least 1.3 and a multiple of 1/50, interval at least 1, at least 6 from two successes on |
| SpacedRepetition.StreakGrows | backend/app/services/study.py:46-56 | n >= 2 successes in a row give at least 6 * (5/4)^(n-2) whole days |
| SpacedRepetition.EachSuccessLengthens | backend/app/services/study.py:46-56 | from the second success on every success lengthens the interval |
| SpacedRepetition.IntervalExact | backend/app/services/sm2.py:34-36 | rounding to hundredths never changes an interval |
| AdaptiveDifficulty.BetterAnswersNeverEasier | backend/app/services/adaptive_difficulty.py:34-56 | of two histories, the one at least as good turn by turn never has the lower level |
| AdaptiveDifficulty.HigherScoresNeverEasier | backend/app/services/adaptive_difficulty.py:44-56 | raising any scores never lowers the level |
| AdaptiveDifficulty.LevelInRange | backend/app/services/adaptive_difficulty.py:34-56 | the level stays in [0.10, 0.95] and the streaks count the latest answers, one of them zero |
| AdaptiveDifficulty.DeepRun | backend/app/services/adaptive_difficulty.py:47-51 | n deep answers from the start reach exactly 0.5 + 0.08 + 0.15(n-1), up to the ceiling |
| AdaptiveDifficulty.IncorrectRun | backend/app/services/adaptive_difficulty.py:54-56 | n incorrect answers from the start reach exactly 0.5 - 0.12n, down to the floor |
| AdaptiveDifficulty.DoubleStepIff | backend/app/services/adaptive_difficulty.py:47-53 | a deep answer gets the double step, up to the ceiling, exactly when the answer before it was correct, at every level where the two steps differ |
| AdaptiveDifficulty.LevelAfter | backend/app/services/adaptive_difficulty.py:34-56 | the level after one answer in numbers, from its three scores and the answer before |
| AdaptiveDifficulty.SessionDifficulty.RecordTurn | backend/app/services/adaptive_difficulty.py:70-120 | the stored row after a turn, from the first-turn defaults or the row before |
| RateLimiter.AdmittedIff | backend/app/rate_limiter.py:66-82 | a request is admitted exactly when its rank among the identifier's requests of that minute is within its route's limit |
| RateLimiter.AdmittedByRank | backend/app/rate_limiter.py:66-82 | the rank counts exactly the requests of the same identifier in the same sixty seconds of the clock |
| RateLimiter.MinuteBound | backend/app/rate_limiter.py:66-82 | at most L requests of an identifier pass in a clock minute on all routes with limit at most L together |
| RateLimiter.AnySixtySeconds | backend/app/rate_limiter.py:66-82 | at most twice L pass on those routes in any sixty seconds |
| RateLimiter.TwiceTheLimitPasses | backend/app/rate_limiter.py:66-82 | and twice the limit can pass, on every route |
| RateLimiter.Limiter.Dispatch | backend/app/rate_limiter.py:50-87 | counting, comparing and failing open |
| RateLimiter.LimitFor | backend/app/rate_limiter.py:50-57 | the loop finds the first matching prefix's limit, or the default |
| RateLimiter.NoEntryShadowed | backend/app/rate_limiter.py:50-57 | no prefix of the table hides another: a path has the limit of any entry it starts with |
| TopicFacts.Memory.UpdateFromSession | backend/app/services/candidate_memory.py:99-203 | domains met in the session are updated from their scores and all other rows are unchanged |
| TopicFacts.ScoreGoesTo | backend/app/services/candidate_memory.py:99-110 | a score goes to the domain its turn names, and to "general" if it names none |
| TopicFacts.CountsByHalf | backend/app/services/candidate_memory.py:116-142 | scores of a half and more count as correct, the others as weak |
| TopicFacts.RowMoves | backend/app/services/candidate_memory.py:112-203 | a session with scores adds one to the sessions and reviews the row by its own mean times five |
| TopicFacts.ReviewMoves | backend/app/services/candidate_memory.py:43-67 | ease moves by -0.8 + 0.28q - 0.02q^2 within 1.3 and 3.5; one day, six days, then interval times ease |
| TopicFacts.StoredNearest | supabase/migrations/20261005000002_candidate_memory.sql:15 | the column keeps the nearest ten-thousandth |
| TopicFacts.RowAccounts | backend/app/services/candidate_memory.py:112-203 | sessions are counted exactly, correct plus weak is all answers, and average times count is the sum of all scores, up to one storage rounding per session and question |
| TopicFacts.AverageNearMean | backend/app/services/candidate_memory.py:136-145 | the stored average is within one rounding unit per session of the true mean |
| TopicFacts.AverageIsMeanIff | backend/app/services/candidate_memory.py:136-145 | the stored average is the mean of all scores after every session exactly when after every session that mean fits the column (times 10000 an integer, for four decimals) |
| TopicFacts.OrderIrrelevantWhenMeansFit | backend/app/services/candidate_memory.py:141-145 | the counts depend on the scores only, not on sessions or their order; and so does the average, when the means on both ways fit |
| TopicFacts.OrderIrrelevantWhenExact | backend/app/services/candidate_memory.py:141-145 | a column that does not round always gives the same average |
| TopicFacts.OrderMattersWhenRounded | supabase/migrations/20261005000002_candidate_memory.sql:15 | with the four-decimal column two orders of means that do not fit give different averages |
| TopicFacts.ReviewHealthy | backend/app/services/candidate_memory.py:43-67 | over any sessions ease stays in [1.3, 3.5], interval at least 1, at least 6 from two successes on |
| TopicFacts.TableFollowsRows | backend/app/services/candidate_memory.py:112-203 | session by session the table holds every domain's row |

## Left out

- Lower-casing, punctuation stripping and splitting before the word error rate: words are given.
- Splitting text into paragraphs and sentences, token counting, and joining a chunk's units into one string: units are opaque and a chunk is its list of units.
- Authentication, session loading, the interview state machine, transcription and voice detection: a session is only open, completed or failed, and the interview's own states are not part of this model.
- SessionReaper: writes of the session's status to the database succeed, and a process that dies with all its sockets and reapers is not part of this model.
- OutboundQueue: one connection at a time, so a predecessor that saves after its successor has started is not part of it; contents of events, the one-second drain on closing and message order among several waiting critical events are not fixed; any waiting event may get the next slot.
- AudioFrames: the capture timestamp is eight bytes that are carried and never read; what the server does with accepted audio is not part of this model.
- GatewayRouter.Router.Route: streaming fallback, output-safety warnings and telemetry are left out, other requests do not interleave with one route, and which error class is raised when every candidate failed is not modelled beyond the last failure of each provider.
- GatewayResilience.WithRetries: the breaker operations of one retry loop are not interleaved with those of other workers; what interleaving does to the breaker is in `SharedBreaker`.
- Configuration loading and the fallback names of task aliases: the configuration list is given.
- BudgetGuard: the database query behind consent is a given answer; costs are exact reals, and refreshing a key's expiry is covered by letting any key expire at any time.
- Pagination: SQL, the database and the text forms of timestamps and ids are given, the last as functions that read back what they write.
- RankFusion: the two searches; other fields of a chunk than its id and text.
- TopicFacts: grounding and structure averages, mastery labels, review dates and inferences, which add only easy members.
- ProviderBreaker: cost and latency tables, and the asyncio lock, which makes each operation one step.
- RateLimiter: how the identifier is found; times are whole milliseconds.
