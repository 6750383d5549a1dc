# Verification of the OTC RFQ service

A Dafny model of the parts of the service that carry its branching, state and
arithmetic, with proofs of what they guarantee. `dafny verify dfyconfig.toml`
checks all of it.

| file | what it models |
|---|---|
| `Domain.dfy`, `Permutations.dfy` | quotes, allocations, errors; sums over permutations |
| `Ranking.dfy` | scoring strategies, the stable sort behind `rank`, the composite strategy |
| `Aggregation.dfy` | collecting, filtering, ranking and cutting quotes |
| `Fill.dfy`, `FillOptimality.dfy` | best-price and pro-rata allocation, fill modes; optimality and overfill |
| `Clock.dfy`, `RateLimit.dfy` | monotonic time, the fixed-window rate limiter |
| `CircuitBreaker.dfy`, `BreakerConcurrency.dfy` | the breaker called from one thread, and as interleaved atomic steps of N threads |
| `BreakerRefinement.dfy` | an uninterrupted concurrent call does what the sequential breaker does |
| `BreakerRuns.dfy`, `BreakerPhases.dfy`, `BreakerCoolDown.dfy` | runs of the concurrent breaker: tight bounds, the documented state machine, half-open phases, the reset timeout |
| `Retry.dfy` | the retry loop and its delays |
| `Subscriptions.dfy`, `Connection.dfy`, `ConnectionDelivery.dfy` | subscription state, one SBE connection as a step system, and what it delivers |
| `Bytes.dfy`, `SbeFields.dfy`, `SbeLayout.dfy` | integers as bytes, field primitives, message layouts of the binary protocol |
| `SbePrefixes.dfy`, `SbePanics.dfy` | which prefixes of an encoding decode, which messages share bytes; when decoding panics and what it refuses |
| `SbeWire.dfy`, `SbeText.dfy` | the place of every field of every message, in numbers; UTF-8 |
| `SbeProperties.dfy`, `SbeBuffers.dfy`, `SbeMessages.dfy` | codec guarantees, in-place encoding and decoding, the fourteen typed messages |
| `Framing.dfy`, `Transport.dfy` | length-prefixed frames, and requests end to end |

Loops, in-place buffers and shared objects of the service are methods, arrays
and classes here. Each is proved equal to a function of its inputs or of its old
state, and the guarantees are proved about those functions. Every lemma switches
automatic induction off, so a proof is what its body says.

## How to read the model

- Prices, scores, weights and delays are exact: `real` where the service uses
  floating point, and whole numbers of smallest units where it uses decimals.
  Every claim about ranking, filling and delays is about exact arithmetic.
- Prices and quantities are divided by `checked_div` of the decimal library, which
  is not part of this model; it rounds at its last digit. The model divides to
  whole smallest units and keeps three ways of rounding (`Rounding`): down, and to
  nearest with ties up or to even. What pro-rata allocation guarantees is stated
  for all three. A unit is the last digit the quotient keeps. Products are exact,
  so a quantity times a target has to be a number the library can represent, as
  1.0 times 3e-28 is and 1e-28 times 3e-28 is not.
- A rate-limiter call is one atomic step that reads a monotonic clock once. The
  wall clock that only feeds `reset_at` is a separate, unconstrained input.
- The sequential breaker reads a clock that never runs backwards. In the
  concurrent model each load, store and `fetch_add` on the state, the three
  counters and `opened_at` is a step of its own, and counters wrap at 2^32. A step
  that looks at the clock is given the time; results that need a clock that never
  runs backwards say so (`BreakerRuns.Orderly`).
- In the connection model a step is what one task does between two await
  points. Lagging broadcast receivers, full queues, failed writes and encoding
  failures are choices of the schedule.
- An integer conversion wraps or truncates as the cast in the code does. Indexing
  past the end of a buffer and building a decimal of more than 28 places are a
  `Panic` outcome of their own.
- The message codec is written once, over layouts that are data: a list of field
  kinds per message. The code spells the same statements out field by field.
  `SbeMessages.dfy` ties the layouts to the typed messages in both directions.

## Where the code and its documentation part

- `max_retries` is documented as the number of retries after the first call. The
  loop makes `max(1, max_retries)` calls in all, one retry fewer unless it is 0
  (`Retry.RetriesAsDocumented`).
- The breaker's documented state machine has no edge from closed to half-open. One
  caller never takes it; two or more can, under every configuration
  (`BreakerRuns.DocumentedExactly`). N callers can push the half-open counter
  N - 1 over its limit, and get N times the limit and N (N - 1) / 2 more calls
  admitted in one half-open phase (`BreakerPhases.PhaseAdmissionsTight`).
- An open breaker is documented to let calls through after the timeout. A caller
  that found the timeout elapsed and was then overtaken can be admitted right
  after another caller has opened the breaker again; with one caller, or a timeout
  of zero, and only then, this cannot happen (`BreakerCoolDown.CoolDownExactly`).
- The `aggressive` preset needs two successes but admits one half-open request,
  so it does not recover without `reset` (`CircuitBreaker.PresetRecovery`).
- Pro-rata allocation caps every share at its quote except the last one, which
  can exceed it (`FillOptimality.ProRataOverfillWitness`); when it does is
  characterised exactly (`FillOptimality.ProRataOverfill`).
- `calculate_delay` is documented as the smaller of initial_delay *
  multiplier^attempt and the maximum. From attempt 2^31 on the exponent is
  negative: the default policy falls from the maximum to zero
  (`Retry.DelayWrapsToZero`). The parameters for which the delays still grow are
  characterised exactly (`Retry.DelaysGrowExactly`).
- A limit of L per window admits up to 2L - 1 requests within one window length,
  and no more.
- LowestSlippage caps the slippage at one, so expensive quotes tie and keep their
  input order; a Buy book with a cheaper quote behind a dearer one at twice the
  minimum or above is ranked differently from BestPrice.
- Rounding to nearest, the shares before the last quote can use up more than there
  is to fill, and allocation fails with an underflow
  (`FillOptimality.NearestUnderflowWitness`); when is characterised exactly
  (`Fill.ProRataSucceeds`).
- Decimals wider than 64 bits are cut silently when encoded. A negative timestamp
  on a whole second can be decoded but not encoded
  (`SbeMessages.NegativeTimestampDecodes`); which messages bytes can decode to, and
  which of them encode again, is characterised exactly.
- Buffer bounds are said to be validated before indexing in all functions
  (`src/api/sbe/types.rs:8`). The decoders do not validate them before a one-byte
  field, and a decimal with an exponent below -28 panics too: a frame of 24 bytes
  is enough (`SbePanics.ShortRequestPanics`). When decoding panics is characterised
  exactly (`SbePanics.DecodePanicsExactly`).
- The length prefix of a string wraps at 4 GiB, and then a prefix of an encoding
  can decode (`SbePrefixes.LongTextPrefixDecodes`); below that none does.
- A result may hold fewer quotes than `min_quotes` asks for, because the cut to
  `max_quotes` comes after the check.

## Model

| member | source | states |
|---|---|---|
| `Ranking.OrderIsStablySorted` | src/application/services/ranking_strategy.rs:212 | the sorted positions are a permutation of the input positions in which every earlier one has a better score, or the same score and came first in the input |
| `Ranking.PositionCountsBetter` | src/application/services/ranking_strategy.rs:212-222 | the rank of a quote is the number of quotes that beat it, counted without reference to any sorting algorithm |
| `Ranking.StableOrderIsUnique` | src/application/services/ranking_strategy.rs:212 | a stable descending sort has only one possible result |
| `Ranking.OrdersAgree` | src/application/services/ranking_strategy.rs:191-223 | two score lists rank a book alike if and only if they compare every pair of quotes alike |
| `Ranking.RankIsStableSort` | src/application/services/ranking_strategy.rs:191-223 | `rank` returns each quote once, numbered from 1, scores non-increasing, ties in input order; and whatever has these properties is what `rank` returns |
| `Ranking.SlippageMatchesBestPriceBuy` | src/application/services/ranking_strategy.rs:361-410 | for a Buy book LowestSlippage and BestPrice give the same order if and only if no quote is followed by a cheaper one priced at twice the minimum or above |
| `Ranking.SlippageMatchesBestPriceSell` | src/application/services/ranking_strategy.rs:361-410 | for every Sell book the two strategies give the same order |
| `Ranking.BestPriceOrder` | src/application/services/ranking_strategy.rs:180-218 | BestPrice puts the cheaper quote ahead for Buy, the dearer for Sell, ties in input order; the score is the price, negated for Buy |
| `Ranking.CostOrder` | src/application/services/ranking_strategy.rs:488-545 | LowestCost puts the quote of lower total cost ahead for Buy and of higher for Sell, ties in input order; scores lie between 0 and 1 |
| `Ranking.TotalCostAdds` | src/application/services/ranking_strategy.rs:480-485 | the total cost is price times quantity, the commission on that, and the gas |
| `Ranking.CompositeRank` | src/application/services/ranking_strategy.rs:840-885 | the accumulating loops compute the ranking by weighted average score (distinct quote ids); an empty book or an empty member list gives nothing |
| `Ranking.AddMember` | src/application/services/ranking_strategy.rs:849-860 | walking one member's ranking and looking quotes up by id adds to each quote exactly that member's weighted score for it |
| `Ranking.CompositeRespectsDominance` | src/application/services/ranking_strategy.rs:840-885 | a quote no worse under every member and strictly better under one of positive weight is ranked ahead |
| `Ranking.CompositeOfOne` | src/application/services/ranking_strategy.rs:840-885 | a single member of positive weight reproduces that member's scores and hence its order |
| `Ranking.CompositeAverages` | src/application/services/ranking_strategy.rs:840-885 | adding a member averages its scores in by its weight |
| `Ranking.CompositeUnweighted` | src/application/services/ranking_strategy.rs:840-885 | while no weight is positive the combined score is the bare weighted sum |
| `Ranking.CompositeIgnoresMemberOrder` | src/application/services/ranking_strategy.rs:840-885 | permuting the members changes no combined score |
| `Aggregation.CollectFromVenues` | src/application/services/quote_aggregation.rs:389-401 | quotes and errors are the venues' replies, each in venue order, none lost |
| `Aggregation.QuotesPicked` | src/application/services/quote_aggregation.rs:389-401 | the collected quotes are those of all replies that are quotes, each once, in venue order |
| `Aggregation.ErrorsPicked` | src/application/services/quote_aggregation.rs:389-401 | the same for the errors |
| `Aggregation.ValidPicked` | src/application/services/quote_aggregation.rs:291 | what is ranked are the quotes of all replies that are unexpired quotes, each once, in venue order |
| `Aggregation.UnexpiredIsValid` | src/application/services/quote_aggregation.rs:291 | filtering the collected quotes leaves exactly the unexpired replies in venue order |
| `Aggregation.CollectAndRank` | src/application/services/quote_aggregation.rs:272-366 | when each refusal happens and with which error; a success is the cut ranking of the valid quotes and its counts add up; if the venues changed between the two lookups and more failed than were counted, the subtraction underflows |
| `Aggregation.CutKeepsBest` | src/application/services/quote_aggregation.rs:355-357 | the cut leaves the first quotes of the ranking, numbered from 1, and no dropped quote scores better than a kept one |
| `Aggregation.EnoughAfterCut` | src/application/services/quote_aggregation.rs:303-357 | the minimum is checked before the cut: a result still meets it if and only if the cut is not below the minimum |
| `Fill.TotalQuotedQuantity` | src/application/services/fill_strategy.rs:112-118 | the loop returns the sum of the quoted quantities |
| `Fill.EnforceMode` | src/application/services/fill_strategy.rs:128-162 | each mode accepts exactly what it promises to accept, the quantity to fill is then the smaller of target and available, and the error names available and requested amounts |
| `Fill.ValidateAllocationSum` | src/application/services/fill_strategy.rs:170-181 | the loop accepts exactly the allocations that sum to the expected quantity and reports the actual sum otherwise |
| `Fill.LegsCarryFills` | src/application/services/fill_strategy.rs:369-384 | the allocations pushed for given fills have the same total and the same cost as the fills |
| `Fill.LegsNameQuotes` | src/application/services/fill_strategy.rs:279-284 | every allocation carries the venue, id and price of one ranked quote and that quote's fill, in rank order; every quote with a positive fill has one |
| `Fill.OneLegPerQuote` | src/application/services/fill_strategy.rs:279-284 | with distinct ids a quote has an allocation if and only if its fill is positive, and then exactly one |
| `Fill.PushAllocation` | src/application/services/fill_strategy.rs:376-383 | one loop step appends the allocation of a positive amount, nothing for zero, and fails exactly for a quote without a positive price |
| `Fill.BestPriceFill` | src/application/services/fill_strategy.rs:356-390 | the in-order loop fills quote i with min(q_i, what the earlier quotes left), and its final sum check never fails |
| `Fill.FillInOrder` | src/application/services/fill_strategy.rs:366-389 | the loop with its early exit equals the closed form of the greedy fill |
| `Fill.BestPriceFillTotal` | src/application/services/fill_strategy.rs:356-390 | a successful fill totals min(target, available) and is the greedy fill of that total |
| `Fill.BestPriceAllocations` | src/application/services/fill_strategy.rs:356-390 | the allocations of a success: each names its quote, quotes are used up in rank order, and together they cover min(target, available) |
| `Fill.BestPriceRefusals` | src/application/services/fill_strategy.rs:356-390 | which error is returned, and exactly when: nothing to do, the mode with its amounts, or a quote without a price that would be used |
| `Fill.ModesAgree` | src/application/services/fill_strategy.rs:128-162 | whenever all-or-nothing succeeds, fill-or-kill, best-effort and every minimum up to the target return identical allocations |
| `Fill.TruncationHarmless` | src/application/services/fill_strategy.rs:356-390 | filling only the first k ranked quotes gives the same best-effort fill if and only if they cover the target or hold all there is |
| `Fill.ProRataFill` | src/application/services/fill_strategy.rs:239-290 | the loop equals the closed form of the pro-rata shares, including which of its errors comes first |
| `Fill.FillProportionally` | src/application/services/fill_strategy.rs:258-289 | running totals, last-quote remainder and final check agree with the closed form |
| `Fill.ProRataConserves` | src/application/services/fill_strategy.rs:239-290 | whenever it succeeds, however division rounds, the shares sum exactly to min(target, available) |
| `Fill.ProRataAllocations` | src/application/services/fill_strategy.rs:239-290 | the allocations of a success: each names its quote and carries that quote's share |
| `Fill.ProRataRefusals` | src/application/services/fill_strategy.rs:239-262 | the errors before any share is made, and exactly when |
| `Fill.QuotientCapped` | src/application/services/fill_strategy.rs:269-273 | however division rounds, the cap at the quoted quantity never cuts a share |
| `Fill.ProRataRoundingBound` | src/application/services/fill_strategy.rs:265-274 | for each of three roundings: every share but the last is off its exact value by what one quotient may be (less than a unit below when truncating, half a unit either way to nearest), the last by the opposite of what all others may be off together |
| `Fill.RemainderCovers` | src/application/services/fill_strategy.rs:262-264 | the subtraction for the last quote does not underflow when division truncates, nor to nearest when twice the last quote's exact share exceeds the number of quotes less three |
| `Fill.ProRataSucceeds` | src/application/services/fill_strategy.rs:239-290 | on priced quotes, however division rounds, allocation succeeds if and only if the target is positive, something is quoted, the mode allows it and the rounded shares before the last quote do not exceed what there is to fill; truncated shares never do |
| `FillOptimality.GreedyMinimisesCost` | src/application/services/fill_strategy.rs:356-390 | on ascending prices no fill of the same total costs less than the greedy one |
| `FillOptimality.BestPriceFillIsOptimal` | src/application/services/fill_strategy.rs:356-390 | ranking by best price and filling greedily is cheapest for Buy, and earns most for Sell, among all ways of taking the same total from the book |
| `FillOptimality.ProRataOverfill` | src/application/services/fill_strategy.rs:262-274 | however division rounds, no quote but the last gets more than it quoted; the last does not either if and only if what stays unfilled covers what the shares of the others leave unfilled |
| `FillOptimality.UnfilledRoundsUp` | src/application/services/fill_strategy.rs:269-273 | what a truncated share leaves unfilled of its quote is the exact unfilled part rounded up; rounding to nearest leaves no more |
| `FillOptimality.ProRataWithinQuotes` | src/application/services/fill_strategy.rs:262-274 | however division rounds, with at most two quotes or when everything is taken, no quote gets more than it quoted |
| `FillOptimality.ProRataOverfillWitness` | src/application/services/fill_strategy.rs:262-274 | five quotes of one unit and a target of two, under each rounding: the last quote is allocated two units |
| `FillOptimality.NearestUnderflowWitness` | src/application/services/fill_strategy.rs:262-274 | five quotes of any one size and a target of three units: rounding to nearest the fill fails with an underflow |
| `RateLimit.LimitTable` | src/api/middleware/rate_limit.rs:58-133 | the limits of each tier: requests as documented, five times as many quotes, ten times as many calls |
| `RateLimit.InMemoryRateLimiter.constructor` | src/api/middleware/rate_limit.rs:329-335 | a new limiter has no counters |
| `RateLimit.InMemoryRateLimiter.CheckAndIncrement` | src/api/middleware/rate_limit.rs:351-403 | in-place insertion, window reset and increment equal one update of the counter map, with the reply that belongs to it |
| `RateLimit.InMemoryRateLimiter.GetInfo` | src/api/middleware/rate_limit.rs:406-447 | reads the quota of the live window, or a full one, and changes nothing |
| `RateLimit.InMemoryRateLimiter.CleanupExpired` | src/api/middleware/rate_limit.rs:450-456 | drops exactly the expired entries |
| `RateLimit.RepliesExactly` | src/api/middleware/rate_limit.rs:351-403 | in every run a check is allowed if and only if fewer than the limit were accepted since its window opened, and the reply says how many are left and when the window ends |
| `RateLimit.EntryOpened` | src/api/middleware/rate_limit.rs:368-383 | a window was opened by a check on its key, and its reset time is the wall clock then plus the window in whole seconds |
| `RateLimit.DisabledAllows` | src/api/middleware/rate_limit.rs:357-363 | a limiter switched off allows everything and counts nothing |
| `RateLimit.CleanedExactly` | src/api/middleware/rate_limit.rs:450-456 | a cleanup drops an entry if and only if its window is over |
| `RateLimit.InfoPredictsCheck` | src/api/middleware/rate_limit.rs:351-447 | a check is allowed if and only if `get_info` shows something remaining, and then leaves one less |
| `RateLimit.CleanupUnobservable` | src/api/middleware/rate_limit.rs:450-456 | runs that differ only in where and how often they clean up show their clients identical replies |
| `RateLimit.WindowBound` | src/api/middleware/rate_limit.rs:351-403 | in every run a live entry counts exactly the requests accepted since its window opened, and never more than the largest limit L used on the key |
| `RateLimit.SlidingBound` | src/api/middleware/rate_limit.rs:351-403 | in every run at most 2L - 1 requests on one key are accepted within any interval of one window length |
| `RateLimit.SlidingBoundIsTight` | src/api/middleware/rate_limit.rs:351-403 | a run that attains 2L - 1, for every key, tier and window of at least two ticks |
| `CircuitBreaker.SharedBreaker.constructor` | src/application/services/circuit_breaker.rs:210-221 | a new breaker is closed with all counters at zero |
| `CircuitBreaker.SharedBreaker.CanExecute` | src/application/services/circuit_breaker.rs:294-324 | admitted if and only if closed, or open and a full timeout past the opening, or half-open below the quota; and the new state of all fields |
| `CircuitBreaker.SharedBreaker.RecordSuccess` | src/application/services/circuit_breaker.rs:330-348 | the new state of all fields |
| `CircuitBreaker.SharedBreaker.RecordFailure` | src/application/services/circuit_breaker.rs:354-374 | the new state of all fields |
| `CircuitBreaker.SharedBreaker.Reset` | src/application/services/circuit_breaker.rs:378-387 | back to a new breaker, from any state |
| `CircuitBreaker.SharedBreaker.TransitionToOpen` | src/application/services/circuit_breaker.rs:431-437 | keeps the failure count, records the opening time, clears the half-open counters |
| `CircuitBreaker.SharedBreaker.TransitionToHalfOpen` | src/application/services/circuit_breaker.rs:439-444 | clears the half-open counters only |
| `CircuitBreaker.SharedBreaker.TransitionToClosed` | src/application/services/circuit_breaker.rs:446-453 | clears all counters and the opening time |
| `CircuitBreaker.CountersAreHistory` | src/application/services/circuit_breaker.rs:294-387 | in every run `failure_count` is the current failure streak while closed and stays at the threshold while open or half-open; the half-open counters are the admissions and successes since half-opening, within their limits |
| `CircuitBreaker.OpensExactlyAtThreshold` | src/application/services/circuit_breaker.rs:354-366 | a closed breaker opens at exactly the failure that completes a streak of the threshold |
| `CircuitBreaker.OnlyDocumentedEdges` | src/application/services/circuit_breaker.rs:8-24 | called from one thread, every operation but `reset` follows the documented state machine |
| `CircuitBreaker.OpenUntilTimeout` | src/application/services/circuit_breaker.rs:294-316 | from an opening on the breaker stays open with that opening time until a call comes a full timeout later |
| `CircuitBreaker.CoolDown` | src/application/services/circuit_breaker.rs:294-316 | no call is admitted within the reset timeout of an opening, unless `reset` is called |
| `CircuitBreaker.AdmittedExactly` | src/application/services/circuit_breaker.rs:294-324 | in every run: each call is admitted while closed, those a full timeout after the latest opening while open, and while half-open as long as fewer than the quota were admitted; and no others |
| `CircuitBreaker.StateExactly` | src/application/services/circuit_breaker.rs:294-387 | in every run: in which state each operation leaves the breaker, told from the failure streak, the latest opening and the successes since half-opening |
| `CircuitBreaker.WaitAsTold` | src/application/services/circuit_breaker.rs:420-429 | a rejected call is told how long: one millisecond more is enough, and earlier than told is not |
| `CircuitBreaker.LastFailureRecorded` | src/application/services/circuit_breaker.rs:354-387 | `last_failure_time` is the wall clock of the latest failure since the last reset |
| `CircuitBreaker.RecoveryRun` | src/application/services/circuit_breaker.rs:294-348 | while only admitted requests report and all succeed, the counters are plain counts and the breaker closes when the successes reach the threshold |
| `CircuitBreaker.RecoveryCharacterised` | src/application/services/circuit_breaker.rs:294-348 | a half-open breaker whose admitted requests all succeed can close if and only if the success threshold does not exceed the half-open quota |
| `CircuitBreaker.RecoveryStuck` | src/application/services/circuit_breaker.rs:294-348 | otherwise it never closes, and once the quota is used up it rejects every request |
| `CircuitBreaker.PresetRecovery` | src/application/services/circuit_breaker.rs:109-157 | of the presets, `aggressive` is such a configuration; the default and `lenient` are not |
| `BreakerConcurrency.CountersWrap` | src/application/services/circuit_breaker.rs:294-374 | `fetch_add` wraps at 2^32 |
| `BreakerRefinement.UninterruptedCall` | src/application/services/circuit_breaker.rs:294-453 | a call that no other thread interrupts has in the concurrent model exactly the sequential effect, on every field and on the verdict |
| `BreakerConcurrency.StepKeepsBound` | src/application/services/circuit_breaker.rs:294-324 | counter plus threads past the check and not yet counted stays within maximum + N - 1 across every atomic step |
| `BreakerConcurrency.ConcurrentBound` | src/application/services/circuit_breaker.rs:294-324 | with N callers, in every interleaving, the half-open counter exceeds its maximum by at most N - 1 |
| `BreakerRuns.ConcurrentBoundIsTight` | src/application/services/circuit_breaker.rs:294-324 | for every N and configuration (thresholds and counter within 32 bits) some interleaving without a reset and with a monotone clock exceeds it by exactly N - 1, a maximum of zero counting as one |
| `BreakerPhases.StepKeepsExclusive` | src/application/services/circuit_breaker.rs:431-453 | one thread at most holds the state lock, and the state is the one it wrote |
| `BreakerPhases.PhaseStep` | src/application/services/circuit_breaker.rs:294-324 | while half-open, each admission uses up one of a bounded allowance and no other step adds to it |
| `BreakerPhases.PhaseAdmissionsBounded` | src/application/services/circuit_breaker.rs:294-324 | in one half-open phase, however long and in every interleaving, N callers get at most N * maximum + N (N - 1) / 2 calls admitted, calls that had found the breaker closed included: late half-openers clear the counter again |
| `BreakerPhases.PhaseAdmissionsTight` | src/application/services/circuit_breaker.rs:294-324 | for every N and positive maximum some phase admits exactly that many |
| `BreakerPhases.ZeroAdmissionsBounded` | src/application/services/circuit_breaker.rs:294-324 | with a maximum of zero a phase admits at most N calls |
| `BreakerPhases.ZeroAdmissionsTight` | src/application/services/circuit_breaker.rs:294-324 | and for every N some phase admits exactly N |
| `BreakerRuns.UndocumentedEdge` | src/application/services/circuit_breaker.rs:8-24 | with two callers or more, under every configuration, a run without a reset and with a monotone clock takes a closed breaker to half-open in one step |
| `BreakerRuns.DocumentedExactly` | src/application/services/circuit_breaker.rs:8-24 | apart from a reset's own store, every step of every run follows the documented state machine if and only if there is one caller; the same for runs without any reset and with a monotone clock |
| `BreakerCoolDown.CoolDownExactly` | src/application/services/circuit_breaker.rs:294-324 | with N callers no call is admitted within the timeout of an opening, in every run without a reset and with a monotone clock, if and only if there is one caller or the timeout is zero |
| `BreakerCoolDown.AdmittedAtOnce` | src/application/services/circuit_breaker.rs:406-444 | with two callers or more, under every configuration, a run admits a call at the very time the breaker opens again |
| `Subscriptions.SessionSubscriptions.SubscribeQuotes` | src/api/sbe/subscriptions.rs:40-46 | refuses only a new id at the limit, and then changes nothing |
| `Subscriptions.SessionSubscriptions.SubscribeStatus` | src/api/sbe/subscriptions.rs:53-59 | the same for status updates |
| `Subscriptions.SessionSubscriptions.Unsubscribe` | src/api/sbe/subscriptions.rs:65-68 | removes the id from both sets |
| `Subscriptions.OthersUntouched` | src/api/sbe/subscriptions.rs:40-68 | subscribing or unsubscribing one id changes no other id and no other kind; unsubscribing undoes subscribing |
| `Subscriptions.LimitKept` | src/api/sbe/subscriptions.rs:40-88 | no operation takes the two sets together over the limit; an id is in its set afterwards if and only if it was accepted |
| `Connection.RunKeepsSound` | src/api/sbe/server.rs:213-427 | the inductive invariant of the whole connection, for every interleaving of reader, forwarder and writer |
| `Connection.ControlPlane` | src/api/sbe/server.rs:334-427 | one response per request of at least header size, in request order; the control frames on the wire are a gap-free, duplicate-free prefix of them; the control queue never exceeds 32 |
| `Connection.DataPlane` | src/api/sbe/server.rs:239-288 | the updates of either kind on the wire are a subsequence of the published ones; the data queue never exceeds 256 |
| `Connection.OnlySubscribedEnqueued` | src/api/sbe/server.rs:239-288 | an update enters the data queue only while its id is subscribed, and the subscriptions never exceed the limit |
| `Connection.AcknowledgedMeansSubscribed` | src/api/sbe/server.rs:376-398 | a subscribe request is acknowledged if and only if the id is subscribed afterwards, and refused if and only if the limit was reached and the id was new |
| `Connection.SilentWhileUnsubscribed` | src/api/sbe/server.rs:239-407 | from an unsubscribed state nothing is enqueued for the id until the reader takes the next request to subscribe to it |
| `Connection.UnsubscribeSilences` | src/api/sbe/server.rs:399-407 | an unsubscribe request starts that silence for both kinds, until the next such request is taken |
| `Connection.StragglersBounded` | src/api/sbe/server.rs:239-407 | of the updates for that id no more reach the wire after the unsubscribe request is applied, until the next such request is taken, than were queued or being written then: at most 257 |
| `Connection.ControlBypassedAtMostOnce` | src/api/sbe/server.rs:290-322 | while a response waits in the control queue at most one data frame reaches the wire |
| `ConnectionDelivery.UpdatesAccountedFor` | src/api/sbe/server.rs:239-288 | in every interleaving each update the forwarder has come past was enqueued, is in its hands, or was lost to a lag, a missing subscription, an encoding failure, a full queue, or the end of the connection |
| `ConnectionDelivery.QueueReachesWire` | src/api/sbe/server.rs:290-322 | in every interleaving the updates on the wire are a prefix of those enqueued, and while the writer runs the rest is being written or queued, in order |
| `ConnectionDelivery.TasksEndExactly` | src/api/sbe/server.rs:239-367 | when reader, forwarder and writer end: a client with a subscription is never timed out |
| `ConnectionDelivery.SubscribedIsEnqueued` | src/api/sbe/server.rs:246-256 | an update for a subscribed id is enqueued whenever the queue has room and the writer runs |
| `ConnectionDelivery.FrontIsWritten` | src/api/sbe/server.rs:290-322 | with no response waiting the writer puts the front of the data queue on the wire |
| `ConnectionDelivery.WriterComesBack` | src/api/sbe/server.rs:290-322 | the writer always comes back to the control queue, data or not |
| `ConnectionDelivery.BackPressure` | src/api/sbe/server.rs:334-427 | a response waits if and only if 32 others are queued |
| `ConnectionDelivery.AnswerOne` | src/api/sbe/server.rs:334-427 | from any quiet state the next request is answered on the wire: the acknowledgement, the refusal, or the dispatcher's reply |
| `ConnectionDelivery.DeliverAll` | src/api/sbe/server.rs:239-322 | from any quiet state, whatever is published, some run puts exactly the updates for subscribed ids on the wire, each once, in order |
| `ConnectionDelivery.ServedAndStreamed` | src/api/sbe/server.rs:213-427 | whatever the client sends and whatever is published then, some run answers every request in order and after that delivers every update for a subscribed id and nothing else |
| `Framing.Source.ReadExact` | src/api/sbe/server.rs:460-467 | takes exactly the bytes asked for, or reports the end of the stream |
| `Framing.WriteFrame` | src/api/sbe/server.rs:498-512 | appends length prefix and payload; refuses a payload whose length does not fit and then writes nothing |
| `Framing.ReadFrame` | src/api/sbe/server.rs:454-490 | returns the payload and leaves the stream right behind it, or tells a closed connection from a frame over the limit |
| `Framing.ReadFrames` | src/api/sbe/server.rs:343-367 | the reader's loop returns the frames before the first that cannot be read, and why |
| `Framing.WriteFrames` | src/api/sbe/server.rs:296-312 | writing payloads one after the other appends the concatenation of their frames |
| `Framing.FrameOctets` | src/api/sbe/server.rs:498-512 | a frame is four bytes of length, most significant first, and the payload |
| `Framing.FrameRead` | src/api/sbe/server.rs:454-490 | what reading returns, from the four length bytes: an over-long frame is refused before its payload arrives |
| `Framing.FrameRoundTrip` | src/api/sbe/server.rs:454-512 | a frame reads back as its payload, or as too large, whatever follows |
| `Framing.CutFrame` | src/api/sbe/server.rs:454-490 | a frame cut short, in its prefix or its payload, reads as a closed connection |
| `Framing.CutStream` | src/api/sbe/server.rs:454-512 | a stream of frames cut off anywhere yields exactly the frames completely before the cut and then a closed connection; uncut, all of them |
| `Framing.StreamRoundTrip` | src/api/sbe/server.rs:454-512 | what was written is read back up to the first payload over the reader's limit, which ends the reading with its length |
| `Transport.RoutesAreRequests` | src/api/sbe/server.rs:372-418 | the id in the header picks the decoder of that request type, and no decoder for any other type |
| `Transport.OthersRefused` | src/api/sbe/server.rs:372-418 | any other id is refused with that id, and a frame shorter than a header with the header's size |
| `Transport.ReceivedAsSent` | src/api/sbe/server.rs:519-560 | an encoded request is routed by its header alone and decodes to itself |
| `Transport.RequestsArrive` | src/api/sbe/server.rs:334-418 | requests written as frames on a stream that breaks off anywhere: the server receives exactly those that arrived completely, each decoded to the request that was sent |
| `SbeFields.UuidReadBack` | src/infrastructure/sbe/types.rs:23-75 | a UUID keeps its sixteen bytes, in order, through both halves |
| `SbeFields.DecimalReadBack` | src/infrastructure/sbe/types.rs:99-167 | mantissa cut to 64 bits and scale read back from nine bytes |
| `SbeFields.DecimalOctets` | src/infrastructure/sbe/types.rs:99-167 | which decimal nine bytes stand for: the signed mantissa, scaled by a negative exponent or multiplied out by a positive one, or an error, or a panic |
| `SbeFields.FiveHundred` | src/infrastructure/sbe/types.rs:116-132 | mantissa 5 with exponent 2 reads as 500 |
| `SbeText.Utf8Exactly` | src/infrastructure/sbe/types.rs:200-215 | a text is accepted if and only if it is the UTF-8 encoding of a sequence of Unicode scalar values |
| `SbeFields.TextReadBack` | src/infrastructure/sbe/types.rs:180-215 | a string reads back whatever follows, if and only if it is shorter than 4 GiB |
| `SbeFields.FieldRoundTrip` | src/infrastructure/sbe/types.rs:23-215 | every kind of field reads back unchanged, whatever follows it, if and only if the wire can carry its value |
| `SbeFields.ReadIsWellTyped` | src/infrastructure/sbe/types.rs:67-215 | whatever bytes are read, the value is one the field's type can hold and the wire can carry |
| `SbeFields.ReadIgnoresTail` | src/infrastructure/sbe/types.rs:67-215 | bytes behind a field that reads successfully do not change it |
| `SbeLayout.BlockLengthsExact` | src/api/sbe/types.rs:244-2165 | for all fourteen message types the stated block length is the exact size of the fixed block |
| `SbeLayout.MessageBytesExact` | src/api/sbe/types.rs:271-2175 | whatever encodes takes exactly `encoded_size` bytes, with the fixed part exactly the block length |
| `SbeLayout.GroupRoundTrip` | src/api/sbe/types.rs:1089-1527 | the repeating group reads back entry by entry, whatever follows |
| `SbeLayout.MessageRoundTrip` | src/api/sbe/types.rs:244-2296 | the bytes of every message that the wire can carry, followed by anything, decode to it and are used up exactly |
| `SbeProperties.MessageIgnoresTail` | src/api/sbe/types.rs:379-2296 | a decoder that succeeds looks at nothing behind the message |
| `SbePrefixes.MessageUses` | src/api/sbe/types.rs:244-2296 | a decoder that succeeds on an encoding, whatever follows it, uses exactly the encoding, even where decimals were cut to 64 bits |
| `SbePrefixes.NoPrefixDecodes` | src/api/sbe/types.rs:244-2296 | no strict prefix of an encoding decodes, for every message that encodes and has its strings below 4 GiB, decimals of any width included |
| `SbePrefixes.PrefixDecodesExactly` | src/api/sbe/types.rs:244-2296 | for strings of any length: a strict prefix of an encoding decodes if and only if the whole encoding decodes without being used up |
| `SbePrefixes.LongTextPrefixDecodes` | src/api/sbe/types.rs:904-960 | a cancel request with a reason of exactly 2^32 letters encodes, and its first 44 bytes decode, to a request with no reason |
| `SbePrefixes.SharedBytesExactly` | src/api/sbe/types.rs:244-2296 | with strings below 4 GiB, one encoding begins another of the same type if and only if the two messages are alike up to what 64 bits of a decimal cannot tell apart, and the encodings are then equal |
| `SbePrefixes.UniquelyDecodable` | src/api/sbe/types.rs:244-2296 | for messages the wire can carry: only a message's own encoding begins with its encoding |
| `SbeProperties.OtherTypeRejects` | src/api/sbe/types.rs:379-2296 | the decoder of any other type rejects an encoding with the id it found |
| `SbeProperties.MessageYields` | src/api/sbe/types.rs:379-2296 | decoding arbitrary bytes yields only well-typed messages that the wire can carry: decimals, strings and group count fit, and a timestamp fits 64 bits and is a whole second if negative |
| `SbeProperties.DecodableExactly` | src/api/sbe/types.rs:379-2296 | some bytes decode to a message if and only if it is such a message |
| `SbeProperties.DecodedReencodes` | src/api/sbe/types.rs:229-238 | what was decoded can be encoded again, and then survives, if and only if no timestamp in it is negative; the error is otherwise the timestamp error |
| `SbeProperties.SurvivesExactlyWhenRepresentable` | src/api/sbe/types.rs:244-2296 | a message survives encoding and decoding if and only if its decimals fit 64 bits, its timestamps are neither negative nor too late, its strings are below 4 GiB and it has at most 65535 quotes |
| `SbeBuffers.PutFields` | src/api/sbe/types.rs:1089-1315 | in-place writing of fields at a running offset: exact bytes, the rest of the buffer untouched, or the timestamp error |
| `SbeBuffers.PutGroup` | src/api/sbe/types.rs:1205-1275 | the same for the loop over the quotes |
| `SbeBuffers.PutGroupHeader` | src/api/sbe/types.rs:1194-1202 | block length and count, or the error for too many quotes |
| `SbeBuffers.EncodeHead` | src/api/sbe/types.rs:1098-1192 | header and fixed block |
| `SbeBuffers.EncodeGroupInto` | src/api/sbe/types.rs:1194-1275 | the quotes group, for the messages that have one |
| `SbeBuffers.EncodeRest` | src/api/sbe/types.rs:1194-1314 | the group and the trailing strings |
| `SbeBuffers.EncodeInto` | src/api/sbe/types.rs:1089-1315 | `encode` writes exactly the message into the front of the buffer; bytes behind it are never touched, a buffer too small not at all; which error comes first |
| `SbeBuffers.DecodeFields` | src/api/sbe/types.rs:1327-1398 | the running-offset decoder equals reading field after field |
| `SbeBuffers.DecodeGroup` | src/api/sbe/types.rs:1424-1496 | the loop over the quotes equals reading entry after entry |
| `SbeBuffers.DecodeGroupOf` | src/api/sbe/types.rs:1400-1496 | group header checks and the loop |
| `SbeProperties.HeaderIgnored` | src/api/sbe/types.rs:102-112 | of the header decoding depends on the message id only: block length, schema and version are not looked at |
| `SbeBuffers.NeedsItsSize` | src/api/sbe/types.rs:1089-1097 | encoding needs exactly as many bytes as the message has, and reports that number and the buffer's |
| `SbePanics.FieldRefusals` | src/api/sbe/types.rs:122-232 | an enum byte that names nothing is reported with its value; any byte but zero reads as true; text that is not UTF-8 is refused |
| `SbePanics.NegativeRefusals` | src/api/sbe/types.rs:229-242 | a negative amount is refused, a negative commission is not, a negative time only off the whole second |
| `SbePanics.CutFields` | src/api/sbe/types.rs:379-440 | what a field that is cut off reports as needed and available |
| `SbePanics.GroupRefusals` | src/api/sbe/types.rs:1400-1424 | a group with another block length is refused; otherwise it has as many entries as its header says |
| `SbePanics.ReportsHonestly` | src/api/sbe/types.rs:379-2296 | a decoder asks for more bytes only if there are fewer, and reports the id it found |
| `SbePanics.DecodePanicsExactly` | src/api/sbe/types.rs:379-2296 | decoding panics if and only if the header fits, everything before some field reads, and that field has one byte and the buffer ends there, or is a decimal with an exponent below -28 |
| `SbePanics.ShortRequestPanics` | src/api/sbe/types.rs:379-396 | a request to create an RFQ that ends behind its id, 24 bytes in all, makes the decoder panic, for every id |
| `SbeBuffers.DecodeFrom` | src/api/sbe/types.rs:1318-1527 | `decode` equals the layout's reading of the buffer, in results, errors and panics |
| `SbeMessages.PartsInverse` | src/api/sbe/types.rs:244-2165 | taking a typed message apart into wire values and building it again gives it back |
| `SbeMessages.MessageInverse` | src/api/sbe/types.rs:379-2296 | and the other way round, so no field is dropped, swapped or read twice |
| `SbeWire.EncodedOnTheWire` | src/api/sbe/types.rs:83-2243 | every encoded message byte by byte: block length, id, schema 1 and version 1 in the header, every field of the fourteen types at its numbered offset, every quote of the group, every text, and nothing behind |
| `SbeMessages.EncodeRefusals` | src/api/sbe/types.rs:229-238 | encoding fails for a timestamp before the epoch or beyond 64 bits and for more than 65535 quotes, with which error and in which order |
| `SbeMessages.EncodeToVec` | src/api/sbe/types.rs:270-2243 | the bytes of the message, or the first error |
| `SbeMessages.Decode` | src/api/sbe/types.rs:379-2296 | the typed message that the bytes hold, or the error |
| `SbeMessages.TypedRoundTrip` | src/api/sbe/types.rs:244-2296 | `decode` after `encode`, with anything behind, returns the original typed message if and only if it is representable |
| `SbeMessages.DecodedIsValid` | src/api/sbe/types.rs:379-2296 | whatever bytes decode, the result is a valid message of the type asked for |
| `SbeMessages.DecodableExactly` | src/api/sbe/types.rs:379-2296 | some bytes decode to a typed message if and only if it is valid, of that type, and the wire can carry it |
| `SbeMessages.DecodedReencodes` | src/api/sbe/types.rs:229-238 | a decoded typed message encodes again, and then survives, if and only if none of its timestamps is negative |
| `SbeMessages.NegativeTimestampDecodes` | src/api/sbe/types.rs:2094-2145 | bytes of a status update from one second before the epoch decode, and the result does not encode |
| `Retry.NewPolicy` | src/application/services/retry.rs:81-95 | the jitter factor is clamped to the unit interval and otherwise kept |
| `Retry.DelayCapped` | src/application/services/retry.rs:139-144 | no delay exceeds the maximum |
| `Retry.DelaysMultiply` | src/application/services/retry.rs:139-144 | with a multiplier of at least one each delay is the multiplier times the one before, up to the maximum |
| `Retry.DefaultDelays` | src/application/services/retry.rs:139-165 | the default policy waits 100, 200, 400 and so on up to 10000 milliseconds; jitter drawn at one half takes a twentieth off |
| `Retry.ZeroMultiplier` | src/application/services/retry.rs:139-144 | a multiplier of zero: only the first delay, and after the wrap the maximum |
| `Retry.DelaysGrow` | src/application/services/retry.rs:139-144 | with a multiplier of at least one, delays never shrink up to attempt 2^31 - 1 |
| `Retry.DelaysGrowExactly` | src/application/services/retry.rs:139-144 | the delays of such a policy grow up to attempt n if and only if n is below 2^31, or the multiplier is one, or the initial delay zero, or the maximum divided by multiplier^(2^31) at most the initial delay |
| `Retry.WrapHarmlessExactly` | src/application/services/retry.rs:139-144 | the wrapped exponent does not shrink the delay at attempt 2^31 if and only if the parameters meet that condition |
| `Retry.WrappedDelaysGrow` | src/application/services/retry.rs:139-144 | from attempt 2^31 to the last one they never shrink either |
| `Retry.DelayWrapsToZero` | src/application/services/retry.rs:139-144 | beyond it the exponent cast wraps: the default policy's delay falls from the maximum to zero |
| `Retry.JitterBounds` | src/application/services/retry.rs:154-165 | jitter shortens a delay by at most its factor, and never below one millisecond |
| `Retry.JitteredDelayCapped` | src/application/services/retry.rs:154-165 | the maximum also bounds every jittered delay if and only if there is no jitter or the maximum is not zero |
| `Retry.ExecuteWithRetry` | src/application/services/retry.rs:308-342 | the loop goes on past retryable failures only and ends; the result is the verdict on the last call, the reported attempts equal the calls made, and the delays are those of the policy |
| `Retry.StopsAsDocumented` | src/application/services/retry.rs:308-342 | every call but the last is a retryable failure; the last is a success, a failure for good, or at the limit, and the result says which |
| `Retry.CallsAreMinimal` | src/application/services/retry.rs:308-342 | exactly min(k, max(1, max_retries)) calls, where k is the first call that succeeds or fails for good |
| `Retry.RetriesAsDocumented` | src/application/services/retry.rs:54-55 | the documented number of retries is made if and only if `max_retries` is 0; otherwise one fewer |

## Left out

- Sockets, task spawning, real clocks, lock poisoning, logging and metrics: replaced by streams, steps, clock parameters and atomic actions.
- Floating-point rounding, NaN and overflow of decimals and of counters that cannot fill up: arithmetic is exact.
- A read timeout that fires in the middle of a frame: a frame is the reader's unit, so what such a timeout discards is not modelled.
- IO errors other than the end of the stream while reading a frame, and all IO errors while writing one.
- `rank` of WeightedScore and WeightedMultiFactor, every `score_normalized` and the normalized branch of `collect_and_rank`: scoring formulas without a stated meaning beyond the sort, which is proved for all scores.
- Handlers behind the dispatched requests, the RFQ aggregate and its state machine, and the venue adapters: a dispatched response is an arbitrary frame in the connection model.
- REST handlers, WebSocket channels, traceparent parsing, JWT authentication, configuration, compliance, export and the in-memory repositories: plumbing or single-branch facts.
- Display, builders and read-only accessors of the modelled types.
- CompositeRank: says nothing about a book with repeated quote ids, where the code adds the scores of all of them to the first.
- CostOrder: the floor of one under the cost range is counted in smallest units; it does not affect the order.
- CollectAndRank: the two lookups of the venue registry, the venues' replies, their expiry and the overall timeout are parameters.
- CheckAndIncrement: a call reads the clock before and again inside the lock; the model reads it once.
- CoolDownExactly: reading the clock and storing or comparing the time are one step, and `last_failure_time`, which nothing reads, is not part of the concurrent state.
- ExecuteWithRetry: the operation is a given list of outcomes and the random numbers are parameters; waiting itself takes no time.
- EncodeInto: one loop over the field list stands for the straight-line code of each message, and each field is written as one piece.
