# Verified model of better-ccflare

better-ccflare is a proxy that spreads requests over several AI accounts. This project models
its decision and bookkeeping code in Dafny and proves what that code is relied on for. Each
module follows one part of the program; `dafny verify dfyconfig.toml` checks everything.

- `EditDistance`: the two Levenshtein programs, closest match and typo suggestions. Reference:
  edit scripts and their cost.
- `Eligibility`: whether an account may be used, from its status, limits, reserves and usage.
- `LoadBalancer`, `Routing`: the selection of accounts for a request with its four regimes
  (forced, auto-fallback, active session, tier or round-robin), and what every selection and
  every run of selections satisfies. `SessionFeedback`: session restarts with what the program
  writes back to the database.
- `Dashboard`: the independent prediction of the first choice, and exactly when it is right.
- `AsyncWriter`: bounded channel, batches and shutdown sentinel as interleaved atomic steps.
- `RateLimit`: the sliding-window limiter against a log that never forgets.
- `Retention`: batched deletes under a foreign key against single deletes.
- `PathValidator`: the percent-decoder and the decode-until-stable check.
- `TokenManager`: refresh back-off, expiry and eviction of failure records, with refreshes that overlap.
- `Handler`: thinking-block removal on JSON trees, and the failover loop.
- `Pricing`, `AuthCache`: two caches against what they stand in front of, under every
  interleaving of lookups and, for prices, refreshes.
- `Collections`: filtering, mapping and the stable sort that `sort_by` performs, with the place
  of every element.

Code that changes state in the program is a class whose methods state their whole effect by a
function (or, where hash-map order or LIMIT leaves a choice, a relation) of the old state; the
theorems are about those functions and their runs. Times are integers, utilisations are reals
with one value for everything non-finite, and machine integers do not overflow. Clocks, what a
provider or the key verifier answers, and the outcome of trying an account are parameters.

Where code and documentation disagree, the model follows the code:

- The dashboard's prediction is documented as mirroring the selection. It compares recorded
  resets without normalising seconds, counts `claude-oauth` accounts and future sessions,
  ignores unavailable accounts before (not after) picking the latest session, and does not know
  whose turn it is. `Dashboard.PredictionExact` says exactly when it is right all the same.
- The selection clears the recorded reset so that a new usage window restarts a session once. The
  program writes back the new start but not the cleared reset;
  `SessionFeedback.WindowRecursExactly` says exactly when the restart recurs.
- Cached prices are to be dropped when new ones are loaded. A lookup that overlaps the refresh can
  bring an old one back; `Pricing.CoherentExactly` says exactly when the cache fits.
- Concurrent token refreshes are documented to be deduplicated. They wait for each other and then
  each call the provider: `TokenManager.OverlappingRefreshesAllCall`. What alone holds a refresh off
  is a recorded failure, per state by `TokenManager.CleanupKeepsBackoff` and over runs by
  `TokenManager.HeldOffExactly`.
- The request limiter promises a window of sixty seconds. Concurrent calls read the clock before they
  take the lock, and the promise shrinks by how far one lags: `RateLimit.LaggingNeverOver`, and no
  less by `RateLimit.LagIsTight`.
- The comment on the prediction restricts auto-fallback to Anthropic accounts; both implementations take any provider.
- The path check is documented to decode until stable, yet it is capped at eight rounds.
  `PathValidator.VerdictRightExactly` says exactly when that is enough, `CapLetsThrough` what it admits.
- The writer is documented to drain what remains on shutdown; an op accepted after the drain
  found the channel empty is lost. `AsyncWriter.NothingLostIff` says exactly when nothing is.

## Model

| member | source | states |
|---|---|---|
| EditDistance.RollingDistance | crates/cli/src/levenshtein.rs:4-34 | the two-row loop with its buffer swap and early exits returns the distance |
| EditDistance.MatrixDistance | crates/core/src/utils.rs:4-33 | the transposed full-matrix loop returns the same distance |
| EditDistance.ScriptAttains | crates/cli/src/levenshtein.rs:17-31 | for all prefixes there is an edit script from one to the other that costs exactly the distance |
| EditDistance.NoScriptCheaper | crates/cli/src/levenshtein.rs:17-31 | no edit script between prefixes costs less than the distance |
| EditDistance.DistanceIsLeastCost | crates/cli/src/levenshtein.rs:3-34 | the distance is attained by a script and is below the cost of every script |
| EditDistance.DistanceIsMetric | crates/core/src/utils.rs:1-33 | zero exactly for equal sequences, symmetric, triangle inequality |
| EditDistance.LengthBound | crates/cli/src/levenshtein.rs:10-33 | the distance is at least the difference in length and at most the greater length |
| EditDistance.DistRenamed | crates/core/src/utils.rs:5-6 | renaming elements injectively keeps the distance, so bytes and characters agree on ASCII |
| EditDistance.BytesAndCharactersDiffer | crates/cli/src/levenshtein.rs:5-6 | on a non-ASCII letter the byte program and the character program disagree |
| EditDistance.FindClosestMatch | crates/core/src/utils.rs:36-53 | the earliest of the nearest candidates within the bound, or None exactly when none is within it |
| EditDistance.SuggestIsNearest | crates/cli/src/levenshtein.rs:38-59 | at most `max` suggestions, each within the threshold and not equal to the input, ordered by distance |
| EditDistance.SuggestKeepsOrder | crates/cli/src/levenshtein.rs:38-59 | equally distant suggestions come in the order of the candidates, the first of them if the list is cut |
| EditDistance.SuggestLeavesOutFarther | crates/cli/src/levenshtein.rs:38-59 | an eligible candidate is left out only when the list is full of candidates at least as near |
| Eligibility.StatusIgnoresCase | crates/core/src/account_eligibility.rs:20-60 | letter case never changes how an upstream status is classified |
| Eligibility.StatusExactly | crates/core/src/account_eligibility.rs:20-60 | which texts count as missing, ok, a warning, and one of the five failures of authentication, in which order |
| Eligibility.TrimTakesEnds | crates/core/src/account_eligibility.rs:20-30 | trimming takes exactly the white space off both ends |
| Eligibility.TextExactly | crates/core/src/account_eligibility.rs:20-30 | what white space is and what lower-casing does |
| Eligibility.NormalizeTwice | crates/core/src/account_eligibility.rs:65-71 | normalising a timestamp twice is harmless exactly outside the first billion seconds around the epoch, or at zero |
| Eligibility.NormalizeExactly | crates/core/src/account_eligibility.rs:65-71 | below ten to the twelfth a timestamp counts as seconds and is brought to milliseconds, from there on it is left alone |
| Eligibility.AnthropicOverage | crates/core/src/account_eligibility.rs:160-202 | for Anthropic accounts the extra budget blocks only when the five-hour window is unknown |
| Eligibility.AnthropicReserve | crates/core/src/account_eligibility.rs:205-245 | for Anthropic accounts the extra budget never decides on the reserve |
| Eligibility.OverageExactly | crates/core/src/account_eligibility.rs:167-202 | the overage test in terms of windows, kinds and numbers, for both families and without windows |
| Eligibility.ReserveExactly | crates/core/src/account_eligibility.rs:205-245 | the reserve test in those terms: each kind of window against its own reserve, the greater one against the total |
| Eligibility.FindWindowAtReserve | crates/core/src/account_eligibility.rs:215-239 | the loop over windows finds a five-hour or other window at the five-hour reserve or a weekly one at the weekly reserve, if and only if there is one that counts |
| Eligibility.CheckReserve | crates/core/src/account_eligibility.rs:205-245 | the check with that loop, and with the total where there are no windows, computes the reserve test that ReserveExactly describes |
| Eligibility.BlockedExactly | crates/core/src/account_eligibility.rs:101-158 | when each of the five reasons blocks, and that an account is routable when none does |
| Eligibility.CollectIsComplete | crates/core/src/account_eligibility.rs:129-144 | the pushed reasons are exactly those that apply, each once, in a fixed order |
| Eligibility.CollectReasons | crates/core/src/account_eligibility.rs:129-147 | the list is empty exactly when nothing blocks |
| Eligibility.EvaluateAccountEligibility | crates/core/src/account_eligibility.rs:101-158 | reports every reason that blocks, is routable exactly when there is none, and gives every detail of the report: unknown usage opens the overage check, and closes the hard reserve exactly when nothing else does |
| Eligibility.OverageMonotone | crates/core/src/account_eligibility.rs:167-202 | raising utilisations never clears an overage |
| Eligibility.ReserveMonotone | crates/core/src/account_eligibility.rs:205-245 | raising utilisations or reserves never clears a reserve |
| Eligibility.EligibilityMonotone | crates/core/src/account_eligibility.rs:101-158 | raising utilisations (non-finite as top) or reserves, of any size, keeps every reason that blocked |
| Eligibility.EligibilityOverTime | crates/core/src/account_eligibility.rs:110-112 | time alone never blocks a routable account |
| LoadBalancer.UsageOrderIsPreorder | crates/load-balancer/src/lib.rs:354-381 | the comparator is a total preorder that respects priority |
| LoadBalancer.OrderExactly | crates/load-balancer/src/lib.rs:354-381 | one account comes before another for its better priority, else for not being at its reserve, else for the sooner reset, a known one before an unknown one |
| LoadBalancer.RestartExactly | crates/load-balancer/src/lib.rs:236-268 | a session restarts exactly if it is an Anthropic one that has not begun, has lasted its duration, or whose reset lies more than fifteen seconds back; only the last clears the reset |
| LoadBalancer.ActiveExactly | crates/load-balancer/src/lib.rs:270-284 | an active session is an Anthropic one that has begun and not lasted its duration; it restarts only for its usage window |
| LoadBalancer.LatestSession | crates/load-balancer/src/lib.rs:154-157 | the account picked among active sessions is one of them and none started later |
| LoadBalancer.SessionStrategy.MaybeResetSession | crates/load-balancer/src/lib.rs:236-268 | restarts the session when its duration or its usage window is over, and only then clears the recorded reset |
| LoadBalancer.SessionStrategy.Select | crates/load-balancer/src/lib.rs:82-232 | answer, persisted resets and counter are those of the selection function for the old counter, which ForceExactly, ChoiceOnFields, TriedInOrder and RestartedExactly describe |
| LoadBalancer.SessionStrategy.SelectIn | crates/load-balancer/src/lib.rs:94-128 | forced accounts: first, alone if strict, skipped if unavailable |
| LoadBalancer.SessionStrategy.SelectUnforced | crates/load-balancer/src/lib.rs:130-179 | auto-fallback before the latest active session before the tiers |
| LoadBalancer.SessionStrategy.SelectFromTier | crates/load-balancer/src/lib.rs:181-231 | draws a ticket only for a tier of several pay-as-you-go accounts, and ranks the others without sorting again |
| LoadBalancer.OthersOfRanked | crates/load-balancer/src/lib.rs:223-230 | dropping the chosen account from the sorted list is sorting the others |
| Routing.ChosenIsAvailable | crates/load-balancer/src/lib.rs:94-192 | whoever is chosen is an available account; nobody is chosen only if none is available or a strict one is not |
| Routing.HeadRule | crates/load-balancer/src/lib.rs:130-216 | who is first: a recovered fallback account of best priority, else the latest session, else the best tier and within it nobody it should yield to |
| Routing.SelectionIsPermutation | crates/load-balancer/src/lib.rs:82-232 | with distinct ids the answer is a permutation of the available accounts, the head up to its session fields |
| Routing.StrictForceIsAlone | crates/load-balancer/src/lib.rs:94-113 | a strictly forced account is the whole answer, or there is none if it is not available |
| Routing.TailIsStablySorted | crates/load-balancer/src/lib.rs:348-381 | everything after the head is in routing order and ties keep their input order |
| Routing.ResetsDescribeHead | crates/load-balancer/src/lib.rs:46-51 | what is to be persisted is the restart of the head, now, or nothing and an unchanged head |
| Routing.SelectRanksRoutable | crates/load-balancer/src/lib.rs:71-88 | for the accounts, usage and clock the program is given: a permutation of the routable accounts, behind the head by priority, reserve and reset with ties in input order, and resets that describe the head |
| Routing.TriedInOrder | crates/load-balancer/src/lib.rs:348-381 | behind the head better priorities come first, then accounts not at their reserve, then sooner resets |
| Routing.HeadInOrder | crates/load-balancer/src/lib.rs:181-231 | so does the head itself when nobody is forced and routing goes by tiers without turns |
| Routing.ChoiceOnFields | crates/load-balancer/src/lib.rs:130-216 | who is chosen when nobody is forced, on the fields of accounts: the first recovered fallback account, else the latest active session if usable, else the best priority; a ticket is drawn exactly when payers take turns |
| Routing.ForceExactly | crates/load-balancer/src/lib.rs:94-128 | a usable forced account goes first, an unknown one or an unusable one that is not strict makes no difference |
| Routing.RestartedExactly | crates/load-balancer/src/lib.rs:230-268 | a restart is to be persisted exactly if sessions are not bypassed and the chosen account's is due |
| Routing.TierOnFields | crates/load-balancer/src/lib.rs:181-216 | the tier holds the usable accounts of the best priority, and they take turns exactly if there are several and none has sessions |
| Routing.TurnHead | crates/load-balancer/src/lib.rs:194-216 | one default selection among payers: the ticket decides, nothing is reset, the counter grows by one |
| Routing.RoundRobinIsFair | crates/load-balancer/src/lib.rs:194-216 | selections that hold k rounds of consecutive tickets, drawn in any order by concurrent callers, make each member first exactly k times |
| Routing.RoundRobinRunIsFair | crates/load-balancer/src/lib.rs:194-216 | selections one after the other, each with the counter the one before left, draw such tickets and are fair from any starting counter |
| Routing.AfterRestart | crates/load-balancer/src/lib.rs:252-265 | where each selection is given back the account as the one before returned it, cleared reset included: after a restart the session never again starts earlier, and a window trigger is used up |
| Routing.RestartsAreSpaced | crates/load-balancer/src/lib.rs:234-268 | under the same feedback the window triggers at most one restart, and any other restart is at least the duration after each earlier one |
| SessionFeedback.WindowRecursExactly | crates/proxy/src/proxy.rs:246-266 | with the feedback the program persists, a window restart recurs on a later version of the row if and only if no reset was recorded in between, or last one that is past too |
| SessionFeedback.EverySelectionRestarts | crates/proxy/src/proxy.rs:234-256 | so until a reset is recorded every selection that chooses the account restarts its session and says so |
| SessionFeedback.WriteBackForgetsTheWindow | crates/proxy/src/proxy.rs:252-255 | the write-back alone restarts again at every later time, and leaves another row than the account the selection returned |
| SessionFeedback.ExpiryIsSpacedOnceWritten | crates/database/src/repositories/account.rs:134-162 | once a restart is in the row, whatever requests are counted, the session does not expire before its duration is over |
| SessionFeedback.ExpiryRecursUntilWritten | crates/proxy/src/proxy.rs:51-83 | a selection on a row without the write-back, such as a cached one, repeats the restart |
| SessionFeedback.CountedIsCurrent | crates/database/src/repositories/account.rs:134-162 | counting a request begins a session that is missing or over, and else adds to it |
| SessionFeedback.WrittenExactly | crates/proxy/src/proxy.rs:252-255 | what the other writes change |
| Dashboard.HeadIdIsHead | crates/load-balancer/src/lib.rs:130-231 | what the prediction is compared with is the head of an unforced selection |
| Dashboard.PredictionOnFields | crates/dashboard/src/routes.rs:1180-1249 | who is predicted, on the fields of accounts: the first guessed fallback account of the best priority, else the latest guessed session, else the first in routing order, and nobody exactly if none is usable |
| Dashboard.FallbackAgrees | crates/dashboard/src/routes.rs:1195-1207 | the guessed fallback account is the selected one as soon as it has recovered in milliseconds too |
| Dashboard.SessionAgrees | crates/dashboard/src/routes.rs:1209-1221 | the guessed session is the selected one exactly if the load balancer counts it as active |
| Dashboard.TurnAgrees | crates/dashboard/src/routes.rs:1223-1248 | the guessed top account is the tier's choice exactly if it is its turn |
| Dashboard.TurnIsTierChoice | crates/load-balancer/src/lib.rs:181-216 | the tier's choice is the account of the best priority that as many available accounts precede as turns come before its own |
| Dashboard.ActiveIsLatest | crates/load-balancer/src/lib.rs:145-163 | routing goes by sessions exactly if the active session that no other starts after, the last listed on ties, is of an available account, and then chooses that one |
| Dashboard.PredictionExact | crates/dashboard/src/routes.rs:1173-1249 | the prediction is right if and only if the predicted account passes tests of its own: its reset has passed in milliseconds, or nobody's has and its session is the latest active one, or it is its turn |
| Dashboard.PredictNextAccountExact | crates/dashboard/src/routes.rs:1180-1249 | the same for the accounts, usage and clock the program is given, against the head of its selection |
| Dashboard.PredictionRightWhenClean | crates/dashboard/src/routes.rs:1180-1249 | plain conditions on accounts, clock and counter under which the prediction is right |
| Dashboard.WrongForSeconds | crates/dashboard/src/routes.rs:1198-1202 | among any accounts it is wrong for a reset stored in seconds that is still to come, of an account that another outranks |
| Dashboard.WrongForForeignSession | crates/dashboard/src/routes.rs:1212-1218 | among any accounts it is wrong for a `claude-oauth` session or one in the future, of an account that another outranks |
| Dashboard.WrongForHiddenSession | crates/dashboard/src/routes.rs:1210-1221 | among any accounts it is wrong for an available session behind the later one of an unavailable account |
| Dashboard.WrongForTurns | crates/dashboard/src/routes.rs:1223-1248 | among any accounts it is wrong whenever it is another payer's turn |
| Dashboard.WrongOnRealAccounts | crates/dashboard/src/routes.rs:1180-1249 | five concrete account lists, one for each difference, on which it says "a" and the selection puts "b" first |
| AsyncWriter.Writer.TrySend | crates/database/src/async_writer.rs:107-126 | accepts, or counts a drop when the channel is full, or does nothing when the loop is gone |
| AsyncWriter.Writer.AwaitSentinel | crates/database/src/async_writer.rs:164-173 | the awaited sentinel enters at once or waits for room |
| AsyncWriter.Writer.SendSentinel | crates/database/src/async_writer.rs:164-173 | a waiting sentinel takes the place promised to it |
| AsyncWriter.Writer.FlushBatch | crates/database/src/async_writer.rs:234-246 | hands over the batch unless it is empty, and clears it |
| AsyncWriter.Writer.Step | crates/database/src/async_writer.rs:224-297 | one step of filling, flushing, draining or the last flush |
| AsyncWriter.Writer.Play | crates/database/src/async_writer.rs:224-297 | plays any interleaving of senders, timer and loop; what its tick does is TickFlushes |
| AsyncWriter.ChannelIsFifo | crates/database/src/async_writer.rs:107-126 | what comes out of the channel, then what is in it, is what was accepted, in order |
| AsyncWriter.CollectedIsTakenOut | crates/database/src/async_writer.rs:271-297 | batches handed over and the current batch are what was taken out, sentinels apart |
| AsyncWriter.Conservation | crates/database/src/async_writer.rs:224-297 | in every interleaving the accepted ops are those handed over, then the batch, then the channel: none lost, repeated or overtaken |
| AsyncWriter.DroppedIsRejections | crates/database/src/async_writer.rs:107-126 | the drop counter counts exactly the sends that met a full channel |
| AsyncWriter.RunValid | crates/database/src/async_writer.rs:20-24 | channel and regular batches stay within their capacities in every run |
| AsyncWriter.BatchesStayBounded | crates/database/src/async_writer.rs:269-297 | no empty batch is handed over and only the final one may exceed 100 ops |
| AsyncWriter.TickFlushes | crates/database/src/async_writer.rs:284-297 | the interval hands over whatever has been collected, as one batch, and filling goes on |
| AsyncWriter.FullBatchIsFlushed | crates/database/src/async_writer.rs:271-283 | ops that fill the batch up to a hundred leave with it as one batch, none before |
| AsyncWriter.EverythingLeaves | crates/database/src/async_writer.rs:224-297 | from every state before the last flush, a bounded number of loop steps and at most one tick hand over every data op in batch and channel, in order |
| AsyncWriter.SentinelGetsIn | crates/database/src/async_writer.rs:164-173 | a shutdown that waits for room can send its sentinel after at most three steps of the loop |
| AsyncWriter.ShutdownEndsLoop | crates/database/src/async_writer.rs:155-185 | in every run a shutdown that is called gets its sentinel in and makes the loop exit within a bound |
| AsyncWriter.DroppedSendersEndLoop | crates/database/src/async_writer.rs:284-289 | dropping the last sender makes the loop exit within a bound |
| AsyncWriter.WhyLeaving | crates/database/src/async_writer.rs:284-289 | the loop leaves only for a sentinel it took out or a closed and empty channel |
| AsyncWriter.HandedOverBeforeSentinel | crates/database/src/async_writer.rs:248-265 | when the loop is gone every op accepted before the first sentinel has been handed over, once and in order |
| AsyncWriter.LeftoverIsLate | crates/database/src/async_writer.rs:248-265 | what is left in the channel is exactly what was accepted after the drain ended |
| AsyncWriter.NothingLostIff | crates/database/src/async_writer.rs:248-265 | everything accepted is handed over if and only if no data op came after the drain ended |
| AsyncWriter.QuietShutdownLosesNothing | crates/database/src/async_writer.rs:151-152 | if callers send nothing once a shutdown has begun, everything accepted is handed over |
| AsyncWriter.LostOp | crates/database/src/async_writer.rs:250-264 | a concrete run in which an accepted op is never handed over |
| AsyncWriter.LoopExits | crates/database/src/async_writer.rs:224-267 | with a sentinel in the channel or all senders gone, the loop left to itself exits within a bound |
| RateLimit.RpmTracker.CheckAndRecord | crates/core/src/rate_limit.rs:34-56 | the pruning loop, the decision and the new queue of one key |
| RateLimit.QueueCountsWindow | crates/core/src/rate_limit.rs:41-48 | the pruned queue counts exactly the admissions of the last sixty seconds |
| RateLimit.TrackerIsExact | crates/core/src/rate_limit.rs:34-56 | when clocks do not go back in the order in which calls take the lock, a request is rejected exactly when the full history holds its limit of admissions in the last sixty seconds |
| RateLimit.WindowNeverOver | crates/core/src/rate_limit.rs:50-55 | under such clocks, admissions decided on the full history never put more than the limit into a closed window |
| RateLimit.TrackerNeverOver | crates/core/src/rate_limit.rs:30-56 | under such clocks, no closed interval of sixty seconds holds more admissions of a key than its limit |
| RateLimit.LaggingNeverOver | crates/core/src/rate_limit.rs:34-56 | concurrent callers read the clock before the lock: if no call of the key is more than a lag behind an earlier one, no closed interval of sixty seconds less the lag holds more than its limit |
| RateLimit.LagIsTight | crates/core/src/rate_limit.rs:35-38 | for every lag, one nanosecond included, a run that admits three under a limit of two within an interval one nanosecond longer, where the full history would not |
| RateLimit.KeysIndependent | crates/core/src/rate_limit.rs:38-39 | the decisions on a key are those it would get alone, whatever the clock does |
| Retention.PickVictims | crates/database/src/retention.rs:123-128 | any rows LIMIT may pick: as many as there are, up to 1000 |
| Retention.Database.ExecDeleteRequests | crates/database/src/schema.rs:164-169 | a batch that holds a request with a payload fails as a whole |
| Retention.Database.BatchedDeletePayloads | crates/database/src/retention.rs:119-142 | terminates; whichever rows each batch takes, leaves what one delete would and returns the rows removed |
| Retention.Database.BatchedDeleteRequests | crates/database/src/retention.rs:145-166 | likewise if no expired request has a payload; a request with a payload never goes |
| Retention.Database.BatchedDeleteObservations | crates/database/src/retention.rs:169-190 | likewise for observations |
| Retention.Database.DeleteOrphanedPayloadsBatched | crates/database/src/retention.rs:193-216 | likewise for payloads without a request |
| Retention.Database.RunCleanup | crates/database/src/retention.rs:81-116 | one pass with any failures: only expired rows go, no reference is left dangling, the counts add up |
| Retention.PassOutcome | crates/database/src/retention.rs:92-101 | an undisturbed pass leaves exactly the live payloads, and no expired request if and only if no payload straddles the cutoffs |
| Retention.PassLeavesNothingExpired | crates/proxy/src/api.rs:276-288 | with payloads kept no longer than requests, the pass ends as the single deletes would: nothing expired, no orphan |
| PathValidator.SimplePercentDecode | crates/core/src/path_validator.rs:174-190 | the index loop computes the decoder |
| PathValidator.DecodeExactly | crates/core/src/path_validator.rs:174-199 | a percent sign and two hexadecimal digits stand for one byte, every other byte, a lone percent sign included, for itself |
| PathValidator.DecodeShrinks | crates/core/src/path_validator.rs:174-190 | decoding never lengthens, and drops at least two bytes unless it changes nothing |
| PathValidator.DecodingComesToRest | crates/core/src/path_validator.rs:152-166 | repeated decoding reaches a fixpoint |
| PathValidator.DigitRoundTrip | crates/core/src/path_validator.rs:192-199 | reading a hexadecimal digit undoes writing it, in either case |
| PathValidator.DecodeUndoesEncode | crates/core/src/path_validator.rs:174-190 | one decode undoes any percent-encoding that writes out the percent signs |
| PathValidator.DecodeOfSkeleton | crates/core/src/path_validator.rs:174-190 | what decoding does to the ASCII part depends on the ASCII part only |
| PathValidator.IsSafeRequestPath | crates/core/src/path_validator.rs:146-168 | accepts exactly the paths with no bad level up to the eighth, whatever the text repair does beyond ASCII |
| PathValidator.SafeExactly | crates/core/src/path_validator.rs:146-166 | safe means no zero byte and no two dots in a row, from the path itself to its eighth level |
| PathValidator.BadPersists | crates/core/src/path_validator.rs:146-166 | decoding never hides two dots or a NUL byte |
| PathValidator.SafeIsEighthLevel | crates/core/src/path_validator.rs:146-168 | the verdict is that of the eighth level |
| PathValidator.HiddenPathIsCaught | crates/core/src/path_validator.rs:137-168 | under up to eight layers in any style a bad path is rejected; the verdict is that of the path's own later levels |
| PathValidator.AtRestMeansAllLevels | crates/core/src/path_validator.rs:161-164 | accepted and at rest within eight rounds means that no level at all is bad |
| PathValidator.AllLevelsHarmlessIff | crates/core/src/path_validator.rs:137-145 | no level at all is bad if and only if the one after as many rounds as the path has bytes is harmless |
| PathValidator.VerdictRightExactly | crates/core/src/path_validator.rs:146-168 | the verdict is the documented one if and only if a path that turns bad within as many rounds as it has bytes does so by the eighth |
| PathValidator.VerdictRightAtRest | crates/core/src/path_validator.rs:152-156 | so it is right for every path at rest by the eighth round, and for every path of at most 18 bytes |
| PathValidator.CapLetsThrough | crates/core/src/path_validator.rs:152-156 | past eight full layers every path is accepted |
| PathValidator.NineLayersGetThrough | crates/core/src/path_validator.rs:152-156 | two dots under nine layers are accepted, under eight rejected |
| TokenManager.TokenManager.GetValidToken | crates/providers/src/token_manager.rs:87-122 | the key of a key provider, else an access token with more than thirty minutes left, without touching the records; otherwise a refresh enters |
| TokenManager.RefreshedExactly | crates/providers/src/token_manager.rs:95-116 | a refresh enters exactly if there is no key to return and the token is missing, of unknown expiry, or within thirty minutes of it |
| TokenManager.TokenManager.RefreshTokenSafe | crates/providers/src/token_manager.rs:125-171 | up to the lock: clean-up and back-off as one step, and the call goes on to the provider exactly if nothing holds it off |
| TokenManager.TokenManager.FinishRefresh | crates/providers/src/token_manager.rs:173-203 | from the provider's answer on: success clears the records, failure records the clock of the request and evicts |
| TokenManager.TokenManager.CleanupExpiredFailures | crates/providers/src/token_manager.rs:206-219 | removes the failures older than five minutes with their counters |
| TokenManager.TokenManager.EnforceMaxFailures | crates/providers/src/token_manager.rs:222-239 | evicts just enough records, none of them younger than one that stays, whatever order the map yields |
| TokenManager.TokenManager.ClearAccount | crates/providers/src/token_manager.rs:242-247 | forgets one account and nothing else |
| TokenManager.RunValid | crates/providers/src/token_manager.rs:125-247 | in every run of overlapping refreshes a counter belongs to a recorded failure and at most 1000 failures are kept |
| TokenManager.AttemptsAreCounted | crates/providers/src/token_manager.rs:136-158 | in every run the attempts reported to a refresh that is held off are those since the record was made, dropped or got past |
| TokenManager.CleanupKeepsBackoff | crates/providers/src/token_manager.rs:132-158 | forgetting old failures never ends a back-off: in every state a refresh calls the provider if and only if no recorded failure of its account is less than sixty seconds old |
| TokenManager.RecordStands | crates/providers/src/token_manager.rs:188-191 | in every such run the record of a failed refresh stands until an event clears, evicts or expires it or another refresh of the account replaces it by an older one |
| TokenManager.BackoffHolds | crates/providers/src/token_manager.rs:125-203 | in every run of overlapping refreshes, after a failed refresh the provider is not called for that account until sixty seconds after the failed one's clock, barring clear or eviction; only a refresh already under way at the failure can end the back-off early, by succeeding or by failing with an older clock |
| TokenManager.BackoffHoldsAlone | crates/providers/src/token_manager.rs:125-203 | with no other refresh of the account under way at the failure, that needs nothing but that no earlier request carries a later clock |
| TokenManager.StandingRecordHolds | crates/providers/src/token_manager.rs:132-158 | and whatever the clocks, the back-off holds while the record of the failure stands |
| TokenManager.HeldOffExactly | crates/providers/src/token_manager.rs:132-158 | in every run a refresh is held off if and only if a failure of its account that still stands began less than sixty seconds before it |
| TokenManager.NewRecordEvictedOnlyInTies | crates/providers/src/token_manager.rs:222-239 | a fresh record is evicted at once only if every record kept is just as fresh |
| TokenManager.OverlappingRefreshesAllCall | crates/providers/src/token_manager.rs:159-177 | refreshes are not brought down to one: once one has gone on to the provider, so does every later one of the account until a failure is recorded |
| TokenManager.TwoRefreshesCall | crates/providers/src/token_manager.rs:3-5 | a concrete run with two refreshes of one account under way at once, each to call the provider |
| Handler.Retain | crates/proxy/src/handler.rs:134-139 | keeps the other blocks in order, and the length tells whether a thinking block was there |
| Handler.FilterMessages | crates/proxy/src/handler.rs:115-156 | stripping in place and then removing by reverse index leaves the messages that SurvivorsExactly describes |
| Handler.RemoveBackwards | crates/proxy/src/handler.rs:153-156 | removing the noted positions from the back removes exactly the blank messages |
| Handler.FilterThinkingBlocks | crates/proxy/src/handler.rs:103-169 | the new body, or None, as FilterExactly describes them |
| Handler.SurvivorsExactly | crates/proxy/src/handler.rs:115-156 | which messages come through, on JSON fields: all but the assistant lists left with no block or one empty text, in order; those lists without thinking blocks, the others unchanged |
| Handler.SurvivesExactly | crates/proxy/src/handler.rs:134-151 | what one message becomes, and when it goes |
| Handler.FilterExactly | crates/proxy/src/handler.rs:103-169 | there is a new body exactly if some assistant list holds a thinking block; it has the surviving messages and every other field but thinking |
| Handler.FilterIsIdempotent | crates/proxy/src/handler.rs:94-102 | no thinking block and no thinking field is left, other fields are kept, and filtering again returns None |
| Handler.OtherRolesUntouched | crates/proxy/src/handler.rs:119-126 | messages of other roles come through unchanged and in order |
| Handler.TryAccountsInOrder | crates/proxy/src/handler.rs:378-454 | the loop over growing lists refines the recursive failover |
| Handler.FailoverTriesExactly | crates/proxy/src/handler.rs:366-454 | at most five accounts; tried in order are exactly those whose provider no earlier attempt found limited, up to the first success; None if and only if all tried failed |
| Pricing.Scan | crates/proxy/src/pricing.rs:403-420 | finds a matching key's price, in any table order, unless none matches |
| Pricing.MatchesExactly | crates/proxy/src/pricing.rs:403-406 | a key matches if it occurs in the lower-cased model or that in it |
| Pricing.ScanExactly | crates/proxy/src/pricing.rs:403-429 | a scan answers with a matching remote price, else with a matching bundled one, else nothing |
| Pricing.AnswerExactly | crates/proxy/src/pricing.rs:382-393 | an exact remote price goes before an exact bundled one, and that before a scan |
| Pricing.PriceStore.LoadPrices | crates/proxy/src/pricing.rs:382-393 | answers the remote price of the model, else the bundled one, else takes the snapshot and looks on |
| Pricing.PriceStore.ReadCache | crates/proxy/src/pricing.rs:395-401 | answers from the cache or goes on to scan |
| Pricing.PriceStore.ScanAndWrite | crates/proxy/src/pricing.rs:403-429 | scans the snapshot, then the bundled prices, and writes the answer, a miss too |
| Pricing.PriceStore.StoreRemotePricing | crates/proxy/src/pricing.rs:360-361 | a refresh stores its prices |
| Pricing.PriceStore.ClearCache | crates/proxy/src/pricing.rs:362-365 | and clears the cache in a later step |
| Pricing.LoadAnswersLastStore | crates/proxy/src/pricing.rs:360-393 | in every run a load is answered from the prices of the last store whenever they hold the model, and else from the bundled ones |
| Pricing.StepCoherent | crates/proxy/src/pricing.rs:360-429 | a coherent cache stays coherent in every step but a store, exactly if a write's answer is one a scan of the prices in use could give |
| Pricing.WriteFitsItsLoad | crates/proxy/src/pricing.rs:382-429 | in every interleaving a written answer is one a lookup could give without a cache on the prices in use when it began |
| Pricing.EntryHasWrite | crates/proxy/src/pricing.rs:395-412 | every cached answer was written by a lookup of that model, with no clear and no other such write since |
| Pricing.CoherentExactly | crates/proxy/src/pricing.rs:360-429 | at every moment of every interleaving the cache fits the prices in use if and only if no surviving write of a lookup begun before a later store has an answer they cannot give |
| Pricing.SettledStaleWriteIsLate | crates/proxy/src/pricing.rs:360-365 | once all refreshes have cleared, only a write after a store that its lookup had not seen can be such a write |
| Pricing.ReadAnswersWrite | crates/proxy/src/pricing.rs:395-401 | a lookup that reads the cache is answered by the last surviving write, rightly for its own prices if and only if they can give that answer, and so if no refresh came between the two loads |
| Pricing.CacheIsTransparent | crates/proxy/src/pricing.rs:379-429 | if refreshes do not overlap lookups, which may overlap each other, every answer is one an uncached lookup could give, as AnswerExactly and ScanExactly describe it, and a miss means no key matches |
| Pricing.PriceIsStable | crates/proxy/src/pricing.rs:395-412 | in every interleaving, once a model is answered and no other lookup scans for it, every lookup that reaches the cache before it is cleared has the same answer |
| Pricing.LateWriteIsStale | crates/proxy/src/pricing.rs:403-412 | a run in which a lookup writes after a refresh that it overlaps: later lookups get the old answer, and the cache is coherent only if the new prices can give it |
| Pricing.EarlyReadIsStale | crates/proxy/src/pricing.rs:361-365 | a run in which a lookup begins after the store and reads before the clear, and gets the old answer |
| Pricing.DroppedKeyIsStale | crates/proxy/src/pricing.rs:403-412 | prices for which the old answer of both runs is wrong |
| AuthCache.KeyVerifier.Lookup | crates/proxy/src/auth.rs:357-373 | up to the await: answers from a fresh entry, or leaves the call waiting |
| AuthCache.KeyVerifier.StoreAnswer | crates/proxy/src/auth.rs:376-401 | after the await: empties a full cache and stores the answer at that moment |
| AuthCache.FreshMeansRecent | crates/proxy/src/auth.rs:364-371 | the whole-second comparison is the exact time limit |
| AuthCache.CacheBounded | crates/proxy/src/auth.rs:386-397 | in every interleaving the cache never exceeds 1000 entries |
| AuthCache.EntryHasSource | crates/proxy/src/auth.rs:383-397 | in every interleaving each entry is the last answer stored for a key of that hash, and the cache was not emptied since |
| AuthCache.StandingIsCached | crates/proxy/src/auth.rs:386-397 | and conversely an answer stored last, with no emptying since, is in the cache |
| AuthCache.StoreHasLook | crates/proxy/src/auth.rs:375-381 | a waiting call has looked its key up before, in vain |
| AuthCache.HitExactly | crates/proxy/src/auth.rs:360-373 | a lookup is answered from the cache if and only if the answer that stands for its key was stored less than 300 s (positive) or 30 s (negative) ago |
| AuthCache.ToldIsRecent | crates/proxy/src/auth.rs:348-401 | in every interleaving, what a lookup is told is the verifier's answer about that very key, stored that recently and not superseded |
| AuthCache.WaitingIsToldItsOwn | crates/proxy/src/auth.rs:375-401 | a call that waited is told, and stores, the verifier's answer about the key it had looked up |
| AuthCache.StaleIsAskedAgain | crates/proxy/src/auth.rs:363-373 | once every answer stored for the key is that old, the verifier is asked again |

## Left out

- RateLimit.TrackerIsExact: asks for clocks that do not go back in lock order, because otherwise it fails (`RateLimit.LagIsTight`).
- RateLimit.TrackerNeverOver: asks for the same; `RateLimit.LaggingNeverOver` has what holds without.
- TokenManager.BackoffHolds: takes the code between two awaits as one step, so single map operations of different threads are not interleaved; that the account's lock lets one provider call run at a time is not modelled. It asks that no request before the one held off carries a later clock, since such a request may find the back-off over.
- Pricing.CacheIsTransparent: asks that refreshes do not overlap lookups, because otherwise it fails (`Pricing.LateWriteIsStale`, `Pricing.EarlyReadIsStale`).
- AuthCache.ToldIsRecent: takes the hash to be injective, and the age of an answer to count from its store, as the program does, not from the verifier's read; a verifier that crashes counts as the answer None.
- Routing.RestartsAreSpaced: supposes that the cleared reset is fed back, which the program does only in memory; `SessionFeedback` has what it persists.
- SessionFeedback.ExpiryIsSpacedOnceWritten: does not cover an older restart written over a newer one, or a reset of the statistics, in between; both can shorten the interval.
- Dashboard.PredictionExact: assumes distinct ids and a clock at least fifteen seconds after the epoch.
- EditDistance.SuggestIsNearest: lower-casing and taking bytes is a parameter; Unicode case mapping is not modelled.
- Handler.FilterThinkingBlocks: bodies are JSON trees; whether the bytes mention "thinking" is a parameter, and parsing and printing are not modelled.
- PathValidator.IsSafeRequestPath: turning decoded bytes back into text is a parameter that may only change runs of bytes beyond ASCII, which is what replacing invalid UTF-8 does.
- Machine integers: overflow of 64-bit values, counter wrap-around and floating-point rounding are not modelled.
- Logging, metrics, warnings and the SQL text of statements; a statement is its effect on the tables, or a failure.
- The writer's execution of ops against SQLite, its shutdown timeout, and aborting the task by dropping its handle.
- Filesystem path validation, which depends on the file system.
- Fetching and parsing remote prices, cost arithmetic and the once-per-model warning.
- The check whether any API key exists, path exemptions and the password comparison of the auth middleware.
- The dashboard's display helpers, usage polling, OAuth, configuration, migrations and the HTTP layer.
