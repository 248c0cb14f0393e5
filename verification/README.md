# Verified models of agent-bakery's state machines

agent-bakery is a small platform of Python agents: a shared toolkit (`agentkit`), a
monitoring agent, a dashboard and a CLI. Several of its parts are state machines whose
promises are about whole runs: a rate limiter, a spending ledger, an index kept beside
a pruned log, a pager that must not forget. This project models those parts in Dafny
4.11 and proves the promises for every input and every run.

`dafny verify dfyconfig.toml` checks everything.

## How it is organised

| file | models |
|---|---|
| `TokenBucket.dfy` | the per-IP rate limiter: local dictionary, Redis script with key expiry, fallback |
| `CircuitBreaker.dfy` | the breaker shared by chat and embedding calls, with calls in flight |
| `JobCap.dfy` | the per-job spending cap, with calls in flight |
| `LlmClient.dfy`, `LlmRuns.dfy` | usage ledger, prices, the chat paths and the corrective-retry loop; then any interleaving of tasks on one client |
| `CostRollup.dfy`, `CostRollupRuns.dfy` | the daily cost index: its SQL statements, then every interleaving with crashes |
| `CostChart.dfy`, `CostChartLaws.dfy` | the stacked cost chart |
| `Triage.dfy`, `TriageHistory.dfy` | the triage pipeline and incidents table, then what paging means over a history |
| `ProbeState.dfy` | cross-sweep probe memory and the signals built from it |
| `RollingCounter.dfy` | the rolling event counter |
| `RefreshTokens.dfy` | refresh-token rotation |
| `AuditPages.dfy` | keyset pagination of the audit log |
| `Dotenv.dfy`, `AgentRegistry.dfy` | the single-key dotenv reader and writer, and the registry kept in it |
| `Sums.dfy`, `Text.dfy`, `Wrappers.dfy` | helpers: sums of dictionary values, trimming of strings, optional values |

Objects the Python code updates in place are classes here, and each method is proved
equal to a function on the old state; the lemmas then speak about histories of those
functions. Time, random tokens, publish outcomes, LLM answers and gateway replies are
inputs. Floats are reals, and each SQL statement is one atomic step. Tasks of one event
loop interleave only where they wait, so what other tasks do during a wait is an input too.

## Where the code and its documentation part

- The breaker is documented to let one half-open trial through. The code lets through
  every call that starts after the cooldown, until the first success or counted failure
  (`HalfOpenAdmitsAll`, `HalfOpenEnds`, `HalfOpenExactly`); a 4xx decides nothing. The
  outage bound is therefore proved for any number of calls in flight.
- An answer over the per-call ceiling is raised and never recorded, so the job cap
  bounds recorded spend only (`LedgerIsTheBill` says exactly when that is the bill).
- "The rollup already captures their history" holds exactly when a stamp's lag plus the
  delay from rollup to delete fits in the retention span (`NoSpendLostExactly`).
- Paging the audit log loses rows exactly when equal timestamps straddle a page
  boundary (`CompleteExactly`).
- A dotenv value already wrapped in quotes is written as it is and read back without
  them (`RoundTripExactly`).
- A container that cannot be inspected, or is missing, is recorded with restart count 0,
  so its next good inspection can raise a crash loop though it did not restart:
  `FalseAlarmExactly` says when.
- A dotenv write is documented to leave every other line and key untouched. It leaves the
  lines, but a value with line breaks adds lines of its own, which can define another key
  (`OtherKeysExactly`, `BrokenValueSetsAnotherKey`) and survive the next write
  (`LastWriteWinsExactly`).
- A malformed price override is documented to be ignored; the entries before the
  malformed one stay (`MalformedOverrideIgnoredExactly`).
- The rolling counter reads the clock before it takes the lock, so two threads can go
  through in the wrong order. `RollingCounter.Count` says exactly when its answer is still
  right, and how far off it is otherwise.
- An exchanged refresh token always gets the default seven-day lifetime, whatever
  lifetime the login asked for (`LiveTokensWereDrawn`).

## Model

| member | source | states |
|---|---|---|
| TokenBucket.AllowedExactly | packages/agentkit/src/agentkit/server.py:138-147 | in whatever order the clock readings come, a request is allowed if and only if, from every earlier request of its IP, the allowed ones plus this one fit in rate + rate/60 per second since then |
| TokenBucket.Envelope | packages/agentkit/src/agentkit/server.py:138-147 | stored tokens are at most rate and are the least allowance left over all earlier requests of the IP, attained by one of them |
| TokenBucket.TokensInRangeAndFramed | packages/agentkit/src/agentkit/server.py:138-147 | a request keeps every bucket's tokens at most rate, and at least 0 while readings come in order, and touches no other IP's bucket |
| TokenBucket.WindowBound | packages/agentkit/src/agentkit/server.py:138-147 | one store allows an IP at most rate + rate/60 per second of any interval, whatever the order of the readings |
| TokenBucket.WindowBoundAttained | packages/agentkit/src/agentkit/server.py:138-147 | for every rate and every whole number of full refills a run is allowed exactly that many |
| TokenBucket.NoDebt | packages/agentkit/src/agentkit/server.py:138-147 | brought up to any time not before its requests, a bucket is never below zero, even when one request overtook another |
| TokenBucket.ForgettingIsInvisible | packages/agentkit/src/agentkit/server.py:121-134 | forgetting a bucket changes neither the decision nor the new bucket, whatever it held, exactly when it was idle for at least 60 seconds |
| TokenBucket.ExpiryChangesNoDecision | packages/agentkit/src/agentkit/server.py:116-136 | the expiring Redis hash decides and stores exactly as one that never forgets, as long as a request reaches Redis within 120 - 60 seconds of reading the clock |
| TokenBucket.DelayBoundExactly | packages/agentkit/src/agentkit/server.py:116-136 | for every rate, the expiry is invisible to all requests delayed by at most d seconds if and only if d is at most 120 - 60 |
| TokenBucket.RemembersStep | packages/agentkit/src/agentkit/server.py:121-136 | running the script keeps the expiring hash standing for the full history |
| TokenBucket.FallbackBound | packages/agentkit/src/agentkit/server.py:105-114 | however requests switch between Redis and the dictionary, lost replies included, an IP gets at most twice the allowance of an interval, and at most the allowance when one store answers everything |
| TokenBucket.FallbackBoundAttained | packages/agentkit/src/agentkit/server.py:105-114 | for every rate and every whole number of full refills a run alternating between the stores is given exactly twice the allowance |
| TokenBucket.GainIsProduct | packages/agentkit/src/agentkit/server.py:141-143 | the refill used in the proofs is elapsed seconds times rate/60 |
| TokenBucket.AllowanceIs | packages/agentkit/src/agentkit/server.py:141-143 | the allowance of a span is rate plus rate/60 for every second |
| TokenBucket.TakeToken | packages/agentkit/src/agentkit/server.py:127-130 | refill, cap and take compute the specified bucket and decision |
| TokenBucket.TokenBucketLimiter.constructor | packages/agentkit/src/agentkit/server.py:83-89 | starts with no buckets, no connection and rate max(0, setting) |
| TokenBucket.TokenBucketLimiter.RedisClient | packages/agentkit/src/agentkit/server.py:91-103 | connects once, and a failed ping is never retried |
| TokenBucket.TokenBucketLimiter.AllowLocal | packages/agentkit/src/agentkit/server.py:138-147 | the dictionary path appends one genuine decision to the history and keeps the dictionary equal to its replay |
| TokenBucket.TokenBucketLimiter.RunScript | packages/agentkit/src/agentkit/server.py:116-136 | the Lua script refills, caps and takes from the hash as specified, whatever reading it was sent; while every request has reached Redis in time, its answers are those of a hash that never forgets, whether or not they arrive |
| TokenBucket.TokenBucketLimiter.Expire | packages/agentkit/src/agentkit/server.py:132-132 | a key may go 120 seconds after the script last ran for it and the hash still stands for the full history |
| TokenBucket.TokenBucketLimiter.Allow | packages/agentkit/src/agentkit/server.py:105-114 | which store answers, for each state of the connection and each way a call can fail; a rate of 0 allows everything and changes nothing |
| CircuitBreaker.OutageBound | packages/agentkit/src/agentkit/llm.py:216-259 | from any state, with at most n calls in flight and no success, an interval of length T sees at most threshold - 1 + n(1 + floor(T/cooldown)) counted failures; threshold + floor(T/cooldown) one at a time |
| CircuitBreaker.OutageCount | packages/agentkit/src/agentkit/llm.py:216-259 | the same bound without division: an interval shorter than q + 1 cooldowns sees at most the failures missing to the threshold, less one, plus n(q + 1) |
| CircuitBreaker.OutageAttained | packages/agentkit/src/agentkit/llm.py:216-259 | the bound is attained for every number n of calls in flight and every number of cooldowns, so threshold + floor(T/cooldown) is exceeded exactly when n is at least 2 |
| CircuitBreaker.CountIsHistory | packages/agentkit/src/agentkit/llm.py:245-259 | the failure count is the number of counted failures since the last success, and the breaker is open exactly when it has reached the threshold |
| CircuitBreaker.RefusedExactly | packages/agentkit/src/agentkit/llm.py:233-243 | a call is refused exactly when that number has reached the threshold and the latest counted failure is less than a cooldown old |
| CircuitBreaker.DisabledAdmitsAll | packages/agentkit/src/agentkit/llm.py:233-259 | a threshold of 0 or less lets every call through and nothing changes the breaker |
| CircuitBreaker.HalfOpenAdmitsAll | packages/agentkit/src/agentkit/llm.py:237-243 | after the cooldown every call that starts is let through and the breaker does not change, however many calls end with a 4xx meanwhile |
| CircuitBreaker.HalfOpenEnds | packages/agentkit/src/agentkit/llm.py:245-259 | the first success closes the breaker, and the first counted failure shuts it for exactly a fresh cooldown |
| CircuitBreaker.HalfOpenExactly | packages/agentkit/src/agentkit/llm.py:237-259 | the breaker is as the half-open window found it if and only if no call has ended with a success or a counted failure |
| CircuitBreaker.Breaker.Check | packages/agentkit/src/agentkit/llm.py:233-243 | whether a call may start |
| CircuitBreaker.Breaker.RecordSuccess | packages/agentkit/src/agentkit/llm.py:245-251 | a success closes the breaker; a disabled breaker keeps no state |
| CircuitBreaker.Breaker.RecordFailure | packages/agentkit/src/agentkit/llm.py:253-259 | a counted failure bumps the count and, at the threshold, opens or re-opens the breaker |
| CircuitBreaker.Breaker.Record | packages/agentkit/src/agentkit/llm.py:393-403 | only a success or a counted failure reaches the breaker |
| JobCap.OvershootBound | packages/agentkit/src/agentkit/llm.py:387-403 | with at most n calls in flight recorded spend stays strictly below cap + n times the ceiling |
| JobCap.OvershootAttained | packages/agentkit/src/agentkit/llm.py:387-403 | for every n, some run comes within any positive amount of cap + n times the ceiling |
| JobCap.CapIsFinal | packages/agentkit/src/agentkit/llm.py:388-392 | once recorded spend has reached the cap no call ever starts again |
| JobCap.UncappedStartsAll | packages/agentkit/src/agentkit/llm.py:388-392 | a cap of 0 or less stops no call |
| JobCap.LedgerIsTheBill | packages/agentkit/src/agentkit/llm.py:460-469 | recorded spend is what the gateway charged if and only if no answer was over the ceiling |
| JobCap.BillExceedsLedger | packages/agentkit/src/agentkit/llm.py:460-469 | one answer over the ceiling is charged and never recorded |
| LlmClient.LedgerBalances | packages/agentkit/src/agentkit/llm.py:93-108 | however calls accumulate, the per-model amounts sum to the cost, and the cost is the sum of the calls' costs |
| LlmClient.AddEntries | packages/agentkit/src/agentkit/llm.py:107-108 | the merge loop adds the per-model amounts pointwise |
| LlmClient.Usage.Add | packages/agentkit/src/agentkit/llm.py:103-108 | adds tokens, cost and per-model amounts |
| LlmClient.CostMonotone | packages/agentkit/src/agentkit/llm.py:111-133 | with non-negative prices a cost is non-negative and never falls as the prompt grows |
| LlmClient.PricesArePerMillion | packages/agentkit/src/agentkit/llm.py:111-133 | a million prompt tokens of a listed model cost the first price of its pair, a million completion tokens the second, and costs of token amounts add up |
| LlmClient.DefaultPrices | packages/agentkit/src/agentkit/llm.py:48-60 | which models the default table lists, and each one's two prices |
| LlmClient.AnswerIsBilled | packages/agentkit/src/agentkit/llm.py:456-470 | an answer is recorded if and only if its dollars, at the listed prices or those of an unknown model, are within the ceiling, and then with its tokens, those dollars and that model; else nothing is |
| LlmClient.LoadPrices | packages/agentkit/src/agentkit/llm.py:69-90 | the default table with the override entries up to the first malformed one read over it |
| LlmClient.MalformedOverrideIgnoredExactly | packages/agentkit/src/agentkit/llm.py:69-90 | a malformed override leaves the table alone if and only if every entry before the malformed one repeats the price already there |
| LlmClient.MalformedOverrideChangesPrices | packages/agentkit/src/agentkit/llm.py:69-90 | an entry with another price before the malformed one changes the table |
| LlmClient.UnpricedFailsClosed | packages/agentkit/src/agentkit/llm.py:125-133 | a call on an unknown model exceeds the ceiling exactly when it has more than 1000 tokens per dollar of it; when unpriced models are allowed it is free |
| LlmClient.EstimateGrows | packages/agentkit/src/agentkit/llm.py:136-144 | appending messages never lowers the token estimate |
| LlmClient.EstimateIsQuarter | packages/agentkit/src/agentkit/llm.py:136-144 | the estimate is a quarter of the characters of roles and contents, rounded down, and four tokens a message |
| LlmClient.CorrectionsGrow | packages/agentkit/src/agentkit/llm.py:625-635 | attempt k sends the original messages as a prefix plus exactly 2k more, each answer as an assistant turn followed by the corrective text as a user turn, and neither the token estimate nor the projected cost ever falls |
| LlmClient.ObstaclesInOrder | packages/agentkit/src/agentkit/llm.py:387-392 | a call is stopped by the ceiling, else by an open breaker, else by a set cap that is spent |
| LlmClient.LlmClient.Begin | packages/agentkit/src/agentkit/llm.py:424-448 | what stops a call before the gateway, in order: ceiling, breaker, job cap; otherwise one more call waits |
| LlmClient.LlmClient.Finish | packages/agentkit/src/agentkit/llm.py:393-478 | an ended call updates breaker and ledger; its answer is returned and recorded if and only if it arrived and its cost is within the ceiling, else which error is raised |
| LlmClient.LlmClient.Complete | packages/agentkit/src/agentkit/llm.py:405-478 | when the gateway is reached, what is returned or raised, in dollars, and the whole new state, whatever other tasks do with the client while the call waits |
| LlmClient.LlmClient.EmbedTexts | packages/agentkit/src/agentkit/llm.py:652-666 | embeddings use the same breaker and leave cap and ledger alone, whatever other tasks do meanwhile |
| LlmClient.LlmClient.CompleteJson | packages/agentkit/src/agentkit/llm.py:575-650 | how the loop ends (`Ends`), the conversations it sends, and the whole state it leaves, whatever other tasks do while its calls wait: every attempt but the last was recorded and did not parse; it succeeds with the first answer that parses and the total of all attempts, raises what stopped or failed the last attempt, or gives up when all allowed attempts failed to parse |
| LlmClient.EndsOneWay | packages/agentkit/src/agentkit/llm.py:600-650 | the replies decide the result, the number of attempts and the number of gateway calls |
| LlmRuns.RetriesAreCharged | packages/agentkit/src/agentkit/llm.py:600-650 | on every exit there were at most max(0, retries + 1) gateway calls, and the ledger is balanced and grew by what these calls recorded plus what other tasks recorded meanwhile, in tokens, cost and per-model amounts; on success these calls recorded exactly the returned total |
| LlmRuns.CallsLedger | packages/agentkit/src/agentkit/llm.py:460-469 | the ledger after any calls is what it was, plus what they added, plus what others added while they waited |
| LlmRuns.RunLedger | packages/agentkit/src/agentkit/llm.py:93-108 | over any interleaving of tasks the ledger grows by what the ended chat calls add, and by nothing else, and stays balanced |
| LlmRuns.LedgerInFields | packages/agentkit/src/agentkit/llm.py:103-108 | the ledger holds the tokens of all recorded answers, and under each model the dollars of its own |
| LlmRuns.ClientIsJob | packages/agentkit/src/agentkit/llm.py:387-403 | every run of the client is a run of the cap machine |
| LlmRuns.SpendStaysBelow | packages/agentkit/src/agentkit/llm.py:387-469 | over any interleaving with at most n chat calls waiting, a client with an empty ledger records less than cap + n times the ceiling |
| LlmRuns.CappedForGood | packages/agentkit/src/agentkit/llm.py:388-392 | once the recorded spend has reached the cap, every later chat call is stopped before the gateway |
| LlmRuns.ClientIsBreaker | packages/agentkit/src/agentkit/llm.py:387-403 | every run of the client is a run of the breaker, chat and embedding calls together |
| LlmRuns.OutageOnClient | packages/agentkit/src/agentkit/llm.py:216-259 | while nothing is answered, n chat and m embedding calls waiting at most see no more than threshold - 1 + (n + m)(1 + floor(T/cooldown)) counted failures in an interval of length T |
| CostRollup.GroupMaxIsGreatest | apps/dashboard/src/dashboard/store.py:465-480 | the grouped maximum is at least every row of its key and is one of them |
| CostRollup.PruneKeeps | apps/dashboard/src/dashboard/store.py:493-498 | a prune keeps exactly the rows not older than the cutoff, as often as they were there |
| CostRollup.Label | apps/dashboard/src/dashboard/store.py:194-216 | a per-model label is the upstream key without the space around it, or "unknown" when nothing else is left, and so never the agent-total sentinel |
| CostRollup.RollupCovers | apps/dashboard/src/dashboard/store.py:466-480 | a rollup statement covers every row of its table, lowers no index row, invents no value and touches no other key |
| CostRollup.CostStore.RecordCost | apps/dashboard/src/dashboard/store.py:176-186 | one raw row; the index row of the agent and of the 86400 seconds the stamp falls in gets the greater amount, and no other index row changes |
| CostRollup.CostStore.RecordCostByModel | apps/dashboard/src/dashboard/store.py:197-222 | one raw row and one upsert per model, covering each, and no agent-total row touched whatever the upstream keys are |
| CostRollup.ModelRowsAre | apps/dashboard/src/dashboard/store.py:210-222 | the rows inserted: agent, trimmed label, stamp and amount of each entry, a null amount counting 0 |
| CostRollup.UpsertAllCovers | apps/dashboard/src/dashboard/store.py:164-173 | the upserts cover every row, lower nothing and invent nothing |
| CostRollup.KeyIsDay | apps/dashboard/src/dashboard/store.py:164-173 | a snapshot belongs to the index row of its agent, its model and the 86400 seconds of its day, and to no other |
| CostRollup.CoveredMeans | apps/dashboard/src/dashboard/store.py:164-173 | a snapshot is covered when the row of its agent, model and day shows at least as much |
| CostRollup.CostStore.RollupCostDaily | apps/dashboard/src/dashboard/store.py:457-480 | afterwards every raw row is covered by the index, no index row fell, each shows its old value or that of a raw row of its key, and keys without raw rows are untouched |
| CostRollup.CostStore.PruneOldData | apps/dashboard/src/dashboard/store.py:483-500 | the raw rows within the retention horizon stay, as often as they were there, all older ones go, and the index is not touched |
| CostRollup.CostStore.PruneTurn | apps/dashboard/src/dashboard/api.py:320-323 | after an uninterrupted turn every row that was in a raw table is covered by the index |
| CostRollupRuns.NoSpendLostExactly | apps/dashboard/src/dashboard/api.py:309-328 | under every interleaving and crash, every snapshot stays in its raw table or bounded by its index row, if and only if stamp lag plus rollup-to-delete delay fit in the retention span |
| CostRollupRuns.RunKeepsInv | apps/dashboard/src/dashboard/store.py:168-222 | the invariant of every run: nothing lost, no invented index value, uncovered snapshots are only those of half-done writes |
| CostRollupRuns.LosingRunLoses | apps/dashboard/src/dashboard/store.py:483-498 | otherwise a concrete run of six statements loses a snapshot |
| CostRollupRuns.IndexAgrees | apps/dashboard/src/dashboard/store.py:164-186 | once no write is half done, the index has a row for exactly the agents, models and days (spans of 86400 seconds) ever recorded, holding the greatest snapshot taken in it |
| CostRollupRuns.RollupRepairs | apps/dashboard/src/dashboard/store.py:457-480 | after a rollup statement the index is right for its table again, even with writes torn or in flight |
| CostRollupRuns.StepGrows | apps/dashboard/src/dashboard/store.py:164-173 | no step ever lowers or removes an index row |
| CostRollupRuns.SeriesMatchesHistory | apps/dashboard/src/dashboard/store.py:366-378 | once no write is half done, the series over the index is the series of the never-pruned history |
| CostRollupRuns.WindowsMatchHistory | apps/dashboard/src/dashboard/store.py:381-417 | once no write is half done, a window is the sum, over the days after the cutoff on which the agent has a snapshot, pruned or not, of that day's greatest one |
| CostRollupRuns.ModelReadsMatchHistory | apps/dashboard/src/dashboard/store.py:420-434 | once no write is half done, a model's spend on a day is the sum, over the agents with a snapshot of it, pruned or not, of each one's greatest |
| CostRollupRuns.SeriesIsHistory | apps/dashboard/src/dashboard/store.py:366-378 | the series has a row for each agent and day with a snapshot after the cutoff, holding the greatest one |
| CostRollupRuns.TablesDoNotMix | apps/dashboard/src/dashboard/store.py:189-222 | whatever the timing, per-model statements never change agent-total rows, nor the other way round |
| CostChartLaws.SpendIsConserved | apps/dashboard/src/dashboard/views.py:35-73 | segments add up to their day; days, legend and grand total all equal the sum of the rows |
| CostChartLaws.EveryRowIsCharted | apps/dashboard/src/dashboard/views.py:41-58 | every row's day has a bar with a segment for its series, and that segment is the sum of the matching rows |
| CostChartLaws.TallestDayIsFull | apps/dashboard/src/dashboard/views.py:47-65 | if some day is positive the tallest day has height 100 and none is higher |
| CostChartLaws.HeightsAreShares | apps/dashboard/src/dashboard/views.py:59-65 | every bar is as high as its share of the tallest day, in percent, and flat when that is 0 |
| CostChartLaws.SegmentsAreShares | apps/dashboard/src/dashboard/views.py:52-58 | every segment is its share of its day, in percent, and 0 on a day that adds up to 0 |
| CostChartLaws.ColoursAgree | apps/dashboard/src/dashboard/views.py:46-72 | a segment has its legend entry's colour, which is the entry's rank mod 6 |
| CostChartLaws.ChartIsOrdered | apps/dashboard/src/dashboard/views.py:45-72 | bars in calendar order, legend by falling total with ties by name |
| CostChartLaws.OrderDoesNotMatter | apps/dashboard/src/dashboard/graph.py:21-69 | the chart depends only on the multiset of rows |
| CostChart.BuildersAgree | apps/dashboard/src/dashboard/graph.py:35-40 | both builders see the same cells exactly when every row has a model, and the per-agent chart may use the legacy mirror |
| CostChart.CellsAre | apps/dashboard/src/dashboard/graph.py:35-37 | a row is charted on its day under the field asked for, else its model, else "None", a null amount counting 0 |
| CostChart.SumsAddUp | apps/dashboard/src/dashboard/graph.py:38-40 | a sum counts a row when its day and series are those selected, and sums add up |
| CostChart.LexExactly | apps/dashboard/src/dashboard/graph.py:41-41 | names are compared at the first character where they differ, a prefix first |
| CostChart.SeriesAddUp | apps/dashboard/src/dashboard/views.py:41-44 | the per-series sums of a day, or of all days, add up to the rows picked |
| CostChart.DaysAddUp | apps/dashboard/src/dashboard/views.py:41-47 | the day sums add up to all rows |
| CostChart.Pivot | apps/dashboard/src/dashboard/views.py:39-44 | the accumulation loop leaves exactly the sums per day and series and per series |
| CostChart.SortSeries | apps/dashboard/src/dashboard/views.py:45-45 | keys sorted by falling total, then name |
| CostChart.DayTotals | apps/dashboard/src/dashboard/views.py:51-51 | a day's total computed from its segments is the sum of its rows |
| CostChart.BuildSegments | apps/dashboard/src/dashboard/views.py:52-58 | the segments of a day are the sums of its series, ranked and coloured |
| CostChart.BuildCostChart | apps/dashboard/src/dashboard/graph.py:21-69 | the loops build the chart that is specified by sums over the rows |
| Triage.Classify | agents/monitoring/src/monitoring_agent/graph.py:150-154 | a valid answer, else the suggested severity if that is valid, else "warning"; critical only if the answer or the signal says so |
| Triage.SameProblem | agents/monitoring/src/monitoring_agent/store.py:41-44 | two signals share a key if and only if both their source and their fingerprint agree |
| Triage.Body | agents/monitoring/src/monitoring_agent/graph.py:165-167 | the stored text is the signal's, with the hypothesis, if any, two lines below |
| Triage.IncidentStore.Upsert | agents/monitoring/src/monitoring_agent/store.py:83-144 | inserts or bumps the row, re-opens a resolved one, and reports newness and the gap since the previous occurrence |
| Triage.IncidentStore.MarkAlertFailed | agents/monitoring/src/monitoring_agent/store.py:170-182 | flags the row, if there is one |
| Triage.IncidentStore.ClearAlertFailed | agents/monitoring/src/monitoring_agent/store.py:184-191 | re-opens a flagged row and no other |
| Triage.IncidentStore.PruneResolved | agents/monitoring/src/monitoring_agent/store.py:193-210 | deletes exactly the resolved rows not seen within the retention span |
| Triage.Notify | agents/monitoring/src/monitoring_agent/graph.py:207-262 | at most max(1, n) publish calls, at most one success and only as the last call; the flag is set when all fail and cleared on delivery |
| Triage.RunTriage | agents/monitoring/src/monitoring_agent/graph.py:162-262 | one run writes the row of its source and fingerprint and no other, publishes if and only if the occurrence pages, at most max(1, n) times, and alerts if and only if a publish succeeded |
| TriageHistory.PagingMeaning | agents/monitoring/src/monitoring_agent/graph.py:162-205 | an occurrence tries to page if and only if it is the first of its source and fingerprint since their row was created, or critical, or a window or more after their previous occurrence, or their latest attempt exhausted its retries |
| TriageHistory.FailedPageIsRemembered | agents/monitoring/src/monitoring_agent/graph.py:252-262 | a row is alert_failed if and only if the latest run that tried to page used up its attempts and nobody resolved it since; prunes never remove such a row |
| TriageHistory.PagingIsHistory | agents/monitoring/src/monitoring_agent/graph.py:162-205 | the runs that try to page are exactly those the events alone, without the table, say should |
| TriageHistory.OwedIsHistory | agents/monitoring/src/monitoring_agent/graph.py:252-262 | a row is alert_failed if and only if the events alone say a page is unpaid |
| TriageHistory.OwedUntilRetried | agents/monitoring/src/monitoring_agent/graph.py:193-199 | an undelivered page stays owed through other keys' runs and prunes, and the next occurrence retries it |
| TriageHistory.BurstPagesOnce | agents/monitoring/src/monitoring_agent/graph.py:177-205 | a non-critical burst with all gaps under the window sends exactly one page when the first is delivered, whatever other keys do |
| TriageHistory.RowIsHistory | agents/monitoring/src/monitoring_agent/store.py:105-122 | when a row exists, and its first_seen, last_seen, severity, text, count and status, read off the history alone |
| ProbeState.StreakIsHistory | agents/monitoring/src/monitoring_agent/store.py:310-332 | the stored streak is the length of the trailing run of failed probes since the row was last pruned |
| ProbeState.StreakMeansLastFailed | agents/monitoring/src/monitoring_agent/collectors.py:552-553 | a streak of at least n means the last n probes all failed, and the other way round |
| ProbeState.CrashLoopBound | agents/monitoring/src/monitoring_agent/collectors.py:723-742 | crash-loop signals times the threshold are at most last count minus first count plus every drop |
| ProbeState.SteadyCrashLoopBound | agents/monitoring/src/monitoring_agent/collectors.py:723-742 | over sweeps whose counts never fall, at most last minus first |
| ProbeState.FalseAlarmExactly | agents/monitoring/src/monitoring_agent/collectors.py:650-742 | after any history, a sweep reports a crash loop although the count rose by less than the threshold since the last good inspection if and only if the latest live record was left by a failed inspection and last good + threshold > count >= threshold |
| ProbeState.FalseAlarmHappens | agents/monitoring/src/monitoring_agent/collectors.py:668-679 | one failed inspection between two equal counts that have reached the threshold raises such an alarm |
| ProbeState.MissedAlarmExactly | agents/monitoring/src/monitoring_agent/collectors.py:723-727 | a real rise by the threshold goes unreported if and only if no live record is left to compare it with |
| ProbeState.AlarmedExactly | agents/monitoring/src/monitoring_agent/scheduler.py:122-138 | a sweep reports a crash loop if and only if its count exceeds the latest live record, 0 for a failed inspection, by the threshold |
| ProbeState.RestartIsLatest | agents/monitoring/src/monitoring_agent/store.py:334-361 | the stored count is the latest one recorded since the target's row was last pruned, if any |
| ProbeState.EndpointToSignals | agents/monitoring/src/monitoring_agent/collectors.py:536-611 | down only at the streak threshold and alone, one signal per failed check, slow only when healthy and ready |
| ProbeState.ContainerToSignals | agents/monitoring/src/monitoring_agent/collectors.py:697-767 | exactly when each container signal is raised |
| ProbeState.ProbeStateStore.RecordEndpoint | agents/monitoring/src/monitoring_agent/store.py:310-332 | returns the length of the trailing run of failures, this probe included |
| ProbeState.ProbeStateStore.RecordRestart | agents/monitoring/src/monitoring_agent/store.py:334-361 | stores the count and returns the previous one |
| ProbeState.ProbeStateStore.PruneStale | agents/monitoring/src/monitoring_agent/store.py:290-308 | deletes exactly the rows not updated within the retention span |
| ProbeState.ProbeStateStore.SweepEndpoint | agents/monitoring/src/monitoring_agent/scheduler.py:105-118 | record then signal: the agent is reported down exactly when its last max(1, n) probes all failed |
| ProbeState.ProbeStateStore.SweepContainer | agents/monitoring/src/monitoring_agent/scheduler.py:130-138 | record then signal: a crash loop exactly when the count rose by the threshold since the previous record; down when the container is missing or has stopped, and nothing but that rise for one that could not be inspected |
| RollingCounter.DroppedDoNotCount | packages/agentkit/src/agentkit/metrics.py:62-66 | when all dropped events are older than one cutoff and none of the rest older than another, the rest number between the counts since the two |
| RollingCounter.RollingCounter.Evict | packages/agentkit/src/agentkit/metrics.py:62-66 | the head of the deque goes while it is too old; what is left numbers between the events in the window shortened and lengthened by the skew of the clock readings |
| RollingCounter.RollingCounter.Incr | packages/agentkit/src/agentkit/metrics.py:68-73 | evicts, then records max(0, n) events at the reading |
| RollingCounter.RollingCounter.Count | packages/agentkit/src/agentkit/metrics.py:75-79 | the number of all events ever recorded in the window, evicted ones included: with a reading no other call overtook, if and only if no event was recorded after one younger than the cutoff while being older itself; for any reading, the exact error, and bounds within the skew of the readings |
| RollingCounter.KeptOldExactly | packages/agentkit/src/agentkit/metrics.py:62-79 | after an eviction as many events are left as there are in the window if and only if there is no such straggler |
| RollingCounter.OvertakenEventCounts | packages/agentkit/src/agentkit/metrics.py:62-66 | an old event behind a younger one is not evicted, so the count can be too high |
| RefreshTokens.OneLiveTokenPerLogin | packages/agentkit/src/agentkit/auth.py:93-169 | every login has at most one live refresh token, whose entry carries the login's claims and secret |
| RefreshTokens.PairsKeepTheLogin | packages/agentkit/src/agentkit/auth.py:134-169 | every pair handed out carries the subject, tenant, role, audience, name and secret of the login it descends from, an empty audience or name left out |
| RefreshTokens.AcceptedAtMostOnce | packages/agentkit/src/agentkit/auth.py:147-149 | once presented, accepted or not, a refresh token is rejected ever after |
| RefreshTokens.RejectionEndsTheChain | packages/agentkit/src/agentkit/auth.py:147-159 | a rejected attempt on a live token leaves no token of that login live ever again |
| RefreshTokens.AcceptedExactly | packages/agentkit/src/agentkit/auth.py:147-159 | when an exchange is accepted: live token, the login's secret, not expired, subject, tenant and role present |
| RefreshTokens.RejectedExactly | packages/agentkit/src/agentkit/auth.py:147-159 | which error a rejected exchange gets: invalid token, else expired, else missing claims |
| RefreshTokens.LiveTokensWereDrawn | packages/agentkit/src/agentkit/auth.py:125-130 | a live token was drawn by some event and expires that event's lifetime later |
| RefreshTokens.RefreshStore.RotateTokens | packages/agentkit/src/agentkit/auth.py:96-131 | hands out a pair that carries the claims and secret asked for, and stores the drawn token with them for the lifetime asked for |
| RefreshTokens.RefreshStore.RefreshAccess | packages/agentkit/src/agentkit/auth.py:134-169 | takes the entry out first, then rejects or hands out a pair that carries what the entry did, stored for seven days |
| AuditPages.CompleteExactly | packages/agentkit/src/agentkit/audit.py:113-121 | following the cursors shows every matching row if and only if no equal timestamps straddle a page boundary |
| AuditPages.MatchesExactly | packages/agentkit/src/agentkit/audit.py:102-117 | a query selects the rows of its tenant that equal every filter that is set and not empty and are older than the cursor |
| AuditPages.TieLosesRow | packages/agentkit/src/agentkit/audit.py:113-121 | of two rows with one timestamp, pages of one row show only one |
| AuditPages.DistinctTimesPartition | packages/agentkit/src/agentkit/audit.py:86-136 | with distinct timestamps the pages one after the other are the filtered log, newest first, each row once; a row is shown if and only if it is the tenant's and equals every filter that is set |
| AuditPages.NothingRepeats | packages/agentkit/src/agentkit/audit.py:113-121 | whatever the ties, however the database breaks them, and whatever rows are inserted while paging, no row is ever repeated |
| AuditPages.NewestComeFirst | packages/agentkit/src/agentkit/audit.py:118-121 | whatever the ties and the insertions, the pages run from newest to oldest, and every row shown is in the log, the tenant's, and equal to every filter that is set |
| AuditPages.PresentRowsAreShown | packages/agentkit/src/agentkit/audit.py:113-121 | whatever is inserted while paging, a matching row that was there throughout is shown, unless it ties with the last row of a page that left it out |
| AuditPages.FewPages | apps/dashboard/src/dashboard/views.py:385-386 | there is at most one more page than matching rows |
| AuditPages.PagingEnds | apps/dashboard/src/dashboard/views.py:385-386 | from any cursor the pages come to an end |
| AuditPages.PageExists | packages/agentkit/src/agentkit/audit.py:118-121 | every query has an answer that is a newest-first page |
| AuditPages.FilterOnlyHides | apps/dashboard/src/dashboard/views.py:387-394 | the rows shown are the database rows the text filter accepts, in order |
| AuditPages.KeepsAccepted | apps/dashboard/src/dashboard/views.py:387-394 | the text filter keeps exactly the rows it accepts, in their order |
| AuditPages.FilterNeverEndsPaging | apps/dashboard/src/dashboard/views.py:381-386 | the pages and cursors are the same for every text filter |
| AuditPages.ActivityContext | apps/dashboard/src/dashboard/views.py:378-402 | the filtered events, and the cursor of the unfiltered page |
| Dotenv.RoundTripExactly | apps/platform-cli/src/platform_cli/config.py:37-93 | for a well-formed key, reading after writing gives the value back if and only if it is on one line and not wrapped in matching quotes |
| Dotenv.QuotesAreLost | apps/platform-cli/src/platform_cli/config.py:37-93 | a value in quotes comes back without them, and one ending in a line break does not come back |
| Dotenv.OtherKeysExactly | apps/platform-cli/src/platform_cli/config.py:60-86 | for any value, reading another key is unchanged if and only if an earlier line defines it, or the further lines of the value do not, or they say what the lines behind them say |
| Dotenv.BrokenValueSetsAnotherKey | apps/platform-cli/src/platform_cli/config.py:60-86 | in a new file, a value with a further line that defines another key sets that key |
| Dotenv.LastWriteWinsExactly | apps/platform-cli/src/platform_cli/config.py:60-86 | writing twice is writing the last value if and only if the first value had no line break |
| Dotenv.SecondLineStays | apps/platform-cli/src/platform_cli/config.py:60-86 | a first value on two lines leaves its second line behind |
| Dotenv.SplitJoin | apps/platform-cli/src/platform_cli/config.py:72-86 | joining one-line strings and reading them back is the identity |
| Dotenv.SplitJoinAny | apps/platform-cli/src/platform_cli/config.py:72-86 | joining any strings and reading them back gives the lines of each in turn |
| Dotenv.WrittenLines | apps/platform-cli/src/platform_cli/config.py:70-86 | the file after a write, for any value: the value's lines take the place of the first line named by the key, or go last, and every other line keeps its text and place |
| Dotenv.WrittenPieces | apps/platform-cli/src/platform_cli/config.py:70-93 | the first line of a written value defines the key, and it is the only one exactly when the value has no line break |
| Dotenv.NewLineReads | apps/platform-cli/src/platform_cli/config.py:89-93 | the written line is found under its key, and its value is unchanged exactly when it was not wrapped in quotes |
| Dotenv.HandWrittenLine | apps/platform-cli/src/platform_cli/config.py:45-56 | a line with space around key and value defines the key, and a value in matching quotes is read without them |
| Dotenv.OtherLine | apps/platform-cli/src/platform_cli/config.py:45-50 | blank lines, comments and lines without "=" define nothing |
| Dotenv.NewLineIs | apps/platform-cli/src/platform_cli/config.py:89-93 | a value is written in single quotes unless it starts and ends with the same quote |
| Dotenv.LineEndsRead | apps/platform-cli/src/platform_cli/config.py:45-45 | the three line ends read the same |
| Dotenv.ReadIsFirst | apps/platform-cli/src/platform_cli/config.py:45-57 | the first line that defines a key decides |
| Dotenv.BreakChars | apps/platform-cli/src/platform_cli/config.py:45-45 | the characters `splitlines` breaks at |
| Text.SpaceChars | apps/platform-cli/src/platform_cli/config.py:46-46 | the characters `strip` removes |
| Dotenv.ReadDotenvValue | apps/platform-cli/src/platform_cli/config.py:37-57 | the scan returns the value on the first line that defines the key |
| Dotenv.WriteDotenvValue | apps/platform-cli/src/platform_cli/config.py:60-86 | the loop replaces the first line named by the key, or appends |
| AgentRegistry.LoadAfterSave | apps/platform-cli/src/platform_cli/config.py:124-183 | a save happens exactly when the dashboard builds the same slugs; then loading gives the saved agents and no other key has changed |
| AgentRegistry.UpsertLaws | apps/platform-cli/src/platform_cli/config.py:137-150 | an upsert keeps slugs unique, puts the new entry last and leaves every other entry, in the same order; a later upsert or removal of the slug forgets it |
| AgentRegistry.SaveAgents | apps/platform-cli/src/platform_cli/config.py:171-183 | validates before it writes; a failure writes nothing |
| AgentRegistry.LoadAgents | apps/platform-cli/src/platform_cli/config.py:124-134 | the defaults when no line defines the key, else what its first definition parses to |

## Left out

- HTTP routes, middleware, pages, sessions, CSRF: framework glue around these parts.
- Probes, the docker proxy, RabbitMQ, OpenAI and Redis transport: each is an outcome given to the model.
- JWT signing and SHA-256: a minted token is its claims, a dedup key is the pair it hashes.
- Float rounding, `round(...)` for display and Redis's decimal rendering of numbers: amounts and tokens are reals.
- Concurrent runs of the triage graph for one key, and a crash between a publish and the row update: runs are sequential and complete.
- `complete_with_tools`: it shares `Begin` and `Finish` with `complete`; its tool-call payload is not modelled.
- The published page itself: its title, text, occurrence count and link; only whether it was delivered.
- `_json_substring` and schema validation: one parse function given to the retry loop.
- Queue-depth and heartbeat signals and the heartbeats table: settled by one branch each.
- The text search of the activity page: any predicate on rows; case folding is not modelled.
- AuditPages.CompleteExactly: for a log that does not change while it is paged; `PresentRowsAreShown` covers insertions.
- TokenBucket.TokenBucketLimiter.RunScript: promises the answers of a never-forgetting hash only while every reading comes from one clock and reaches Redis within 60 seconds; the monotonic clocks of different replicas are not one clock.
- CostRollup.CostStore.PruneOldData: the returned delete counts and the heartbeats table are not modelled.
- RefreshTokens.AcceptedExactly: assumes drawn tokens are never drawn or presented before, which the code leaves to 256 random bits.
- AgentRegistry.LoadAfterSave: assumes JSON parsing undoes serialising and the text is one line starting with a bracket; JSON itself is not part of this model.
