# Verified model of the GIWater DEX

A Dafny model of the self-contained logic of the exchange, with proofs about it:

- the bigint arithmetic of concentrated liquidity in the web app: the tick ladder, the sqrt price of a ratio, paired amounts, decimal rounding;
- the route search over the pool list, and the fee reads batched for a route;
- the broker's consumer: at-least-once delivery of indexer messages, the SQL statements each message runs, the read models they build, and the ve-lock escrow those rows should mirror;
- the exchange bucket rollups, alone and side by side with the wall-clock tick, the backfill of running totals, the replay command and the indexer's RPC rate limiter.

Code that works by steps (loops, queues, tables, closures over state) is a method or a class proved against a function of its inputs or of its old state; the properties are lemmas about those functions. bigints are `int`, doubles are `real`, SQL tables are maps, and addresses are already in lower case. `dafny verify dfyconfig.toml` checks the project.

How the main arguments go:

- **Tick prices.** Going from `t` to `t + 1` clears a run of low ones and sets one bit. The product of the low constants and the next constant differ by at most three units per bit, because each constant is the square root of the next; every later shared multiplication adds one unit. So two neighbouring ladder values stay within 80 units of the exact factor, which is far below their distance, and this survives the reciprocal and the round-up shift. The price ratio of any two neighbouring ticks is 1.0001 to nine digits, and the price is strictly increasing.
- **Delivery.** The queue is a state machine with one message outstanding, requeues to the head, and crashes between any two statements. Each projection absorbs the repetition of any prefix of its own statements, but for one case: a lock increase that was requeued with its value already added. So an acked message leaves one atomic application, for such an increase one more for each complete attempt, and only in the lock tables. All other tables of a drained run are therefore the fold of the log, increases in it or not; the lock tables are too after every ack exactly if no increase of an existing lock was requeued complete. The handler's method is tied to the machine: whatever its contract allows is a run, with the same tables, queue, verdict and error count. Each statement of a message commits, fails, or commits with its answer lost; the only error that asks for a retry comes from the aggregation of added CL liquidity, an unmapped type here, so a failed statement always drops its message.
- **Route search.** The invariant is that every allowed path not yet excluded goes through a queued node, level by level; a path with a repeated token can be cut to a simple one, so the per-path visited sets lose nothing. A second invariant keeps the queue sorted by length and then by the places of the pools in their lists, so the path found is the earliest of the shortest and the pool list determines it.

Four findings, each with its exact condition below:

- `roundDecimalStr` rounds a negative string wrongly exactly when it has to round up: "-2.7" at no digits gives "-1".
- `nearestUsableTick` is documented as rounding a tick down to a usable one. The code rounds to the nearest multiple, halves up, and clamps to the tick range: 59 at spacing 60 gives 60, and 887272 at spacing 60 gives 887272, which is no multiple. It rounds down exactly when the tick is in the lower half of its spacing (or clamped), and is the multiple below the tick exactly when that multiple is also in range, or is 887272; its result is a multiple of the spacing exactly when nothing was clamped or the spacing divides 887272.
- A deposit that increases a lock is the only modelled message whose redelivery shows: exactly when a non-zero amount was already added to an existing row when it was requeued. Every such deposit has a run without error or crash, one refused publication, after which the lock carries its value twice.
- The rollup's `bumpBucket` reads a bucket row, adds in memory and saves absolute values, and the minute cron's tick runs beside the consumer. A tick that finds a row before a swap saves it, and saves after, puts the old row back: the day stream loses the swap's volume, fee and trade while the week has them. A save moves its bucket by its delta exactly when the row is still the found one; the buckets are exact after every step exactly when that holds of every save, and it does whenever no save changes a row that another call has found and not saved yet.

## Model

| member | source | states |
|---|---|---|
| TickMath.RatioOf | apps/web/lib/tickMath.ts:115-152 | the chain of twenty conditional products computes the bitwise ladder of the tick's magnitude |
| TickMath.TickToSqrtPriceX96 | apps/web/lib/tickMath.ts:109-164 | the method returns the ladder, its reciprocal above zero and the rounded-up shift, and 0 outside the tick range |
| TickMath.MagicConstants | apps/web/lib/tickMath.ts:115-152 | the first constant is the floor of 2^128 / sqrt(1.0001), and each next one is the square of the one before, up to two units |
| TickMath.MagicIsNearest | apps/web/lib/tickMath.ts:115-152 | each constant but the first is 2^128 * 1.0001^(-2^(k-1)) rounded to the nearest integer |
| TickMath.AllOnesNextToMagic | apps/web/lib/tickMath.ts:115-152 | the truncated product of the constants of bits 0 to k-1 is the constant of bit k, less one tick, up to 3k units |
| Arith.TruncatedProducts | apps/web/lib/tickMath.ts:115-152 | a shared truncating multiplication adds at most one unit to the error between neighbours |
| TickMath.NeighboursAll | apps/web/lib/tickMath.ts:115-152 | after any number of bits, the ladders of t and t+1 are one factor apart, or the carry is still running |
| TickMath.LadderStep | apps/web/lib/tickMath.ts:115-152 | neighbouring ladder values never increase and are the factor 1/sqrt(1.0001) apart, up to 80 units |
| TickMath.LadderAtMaxTick | apps/web/lib/tickMath.ts:115-152 | the ladder of the extreme tick, to the last digit |
| TickMath.LadderRange | apps/web/lib/tickMath.ts:109-164 | every intermediate product fits in 256 bits and the ratio stays above 2^64, so the reciprocal is defined |
| TickMath.PriceIsRoundedUp | apps/web/lib/tickMath.ts:154-163 | the price is the ladder, or above zero its reciprocal, divided by 2^32 and rounded up, in exact bounds for every tick |
| TickMath.SqrtPriceStep | apps/web/lib/tickMath.ts:109-164 | neighbouring prices are one sqrt(1.0001) apart up to the rounding, on both sides of zero |
| TickMath.PriceFactor | apps/web/lib/tickMath.ts:109-164 | the squared prices of neighbouring ticks have ratio 1.0001, to a relative 1e-9, over the whole range |
| TickMath.StrictlyIncreasing | apps/web/lib/tickMath.ts:109-164 | a higher tick always has a strictly higher sqrt price |
| TickMath.Endpoints | apps/web/lib/admin-add-pair-liquidity.ts:12-13 | ticks -887272, 0 and 887272 map to 4295128739, 2^96 and 1461446703485210103287273052203988822378723970342 |
| TickMath.SqrtPriceRange | apps/web/lib/tickMath.ts:109-164 | the result is non-zero exactly for valid ticks, and then lies between MIN_SQRT and MAX_SQRT |
| TickMath.OppositeTicks | apps/web/lib/tickMath.ts:109-164 | the prices of t and -t multiply to 2^192, up to their sum and 2^64 |
| TickMath.RoundedTickIsNearest | apps/web/lib/tickMath.ts:83-86 | before clamping, no multiple of the spacing is closer to the tick |
| TickMath.RoundedTickGoesDown | apps/web/lib/tickMath.ts:83-86 | before clamping the result is the multiple below the tick in the lower half of a spacing and the one above it from the middle on; it is not above the tick if and only if the former |
| TickMath.NearestUsableTickRoundsDown | apps/web/lib/tickMath.ts:80-86 | the documented rounding down: exact conditions for the result not to be above the tick, and to be the multiple of the spacing below it |
| TickMath.NearestUsableTickExamples | apps/web/lib/tickMath.ts:80-86 | two inputs on which the documentation fails: 59 at spacing 60 goes up to 60, and 887272 at spacing 60 stays, no multiple |
| TickMath.NearestUsableTickIsMultiple | apps/web/lib/tickMath.ts:83-86 | the result is a valid tick, and a multiple of the spacing if and only if nothing was clamped or the spacing divides 887272 |
| TickMath.NearestUsableTickIsClosest | apps/web/lib/tickMath.ts:83-86 | no tick from -887272 to 887272 is closer to the rounded one than the result |
| SqrtPrice.FloorSqrt | apps/web/lib/admin-add-pair-liquidity.ts:16-26 | reference root by base-4 digits: r*r <= n < (r+1)*(r+1) |
| SqrtPrice.FloorSqrtUnique | apps/web/lib/admin-add-pair-liquidity.ts:16-26 | no other integer brackets n |
| SqrtPrice.NewtonStep | apps/web/lib/admin-add-pair-liquidity.ts:21-24 | a Newton step from any positive x never falls below the root |
| SqrtPrice.NewtonSqrt | apps/web/lib/basicPoolInitialLp.ts:4-14 | the loop both files spell out ends with the floor root for every n >= 0, and fails for negative n |
| SqrtPrice.SqrtPriceX96FromRatio | apps/web/lib/admin-add-pair-liquidity.ts:52-58 | the method returns the clamped root of num * 2^192 over den, or the error it throws |
| SqrtPrice.RootOfQuotient | apps/web/lib/admin-add-pair-liquidity.ts:52-58 | s is the root of the truncated quotient if and only if s*s*den <= n < (s+1)*(s+1)*den |
| SqrtPrice.RatioPriceIsRoot | apps/web/lib/admin-add-pair-liquidity.ts:52-58 | the price is the root of num * 2^192 / den if and only if the ratio lies between the squares of MIN_SQRT and MAX_SQRT; below it is MIN_SQRT, above MAX_SQRT - 1 |
| SqrtPrice.RatioPriceBrackets | apps/web/lib/admin-add-pair-liquidity.ts:52-58 | a price s that was not clamped obeys s*s*den <= num * 2^192 < (s+1)*(s+1)*den |
| SqrtPrice.RatioPriceOfOne | apps/web/lib/admin-add-pair-liquidity.ts:52-58 | the ratio one has the price 2^96 |
| SqrtPrice.RatioPriceSigns | apps/web/lib/admin-add-pair-liquidity.ts:52-58 | two negative numbers have the price of their absolute values |
| SqrtPrice.RatioPriceInRange | apps/web/lib/admin-add-pair-liquidity.ts:52-58 | every price returned is in [MIN_SQRT, MAX_SQRT), and every non-negative ratio with a positive denominator gets one |
| SqrtPrice.RatioPriceMonotone | apps/web/lib/admin-add-pair-liquidity.ts:52-58 | a larger ratio never gets a smaller price, whatever the numerators and denominators |
| SqrtPrice.RatioPriceFails | apps/web/lib/admin-add-pair-liquidity.ts:52-58 | it throws if and only if den is zero or the truncated quotient is negative |
| SqrtPrice.RatioOfSquaredPrice | apps/web/lib/admin-add-pair-liquidity.ts:52-58 | the ratio f*f over 2^192 gets back exactly f, up to clamping |
| SqrtPrice.TickPriceAsRatio | apps/web/lib/admin-add-pair-liquidity.ts:52-58 | every tick price, passed as a ratio, comes back exactly, but for one unit at the top tick |
| SqrtPrice.AcceptedRatioHasPrice | apps/web/lib/admin-add-pair-liquidity.ts:32-50 | a typed price is accepted if and only if it does not vanish at token1's precision; the ratio is the price at that precision, rounded down, over 10^decimals0, and has a price in range |
| SqrtPrice.EstimateVolatileInitialLp | apps/web/lib/basicPoolInitialLp.ts:21-36 | an estimate exists if and only if both amounts are positive and the root exceeds the minimum; it is then the floor root less that minimum |
| LiquidityAmounts.BoundsCommute | apps/web/lib/liquidityAmounts.ts:62-108 | swapping the two bounds changes neither conversion |
| LiquidityAmounts.PairedAmountsMonotone | apps/web/lib/liquidityAmounts.ts:62-108 | both conversions are monotone in the amount, for all prices and bounds |
| LiquidityAmounts.PairedAmountsOdd | apps/web/lib/liquidityAmounts.ts:15-108 | truncated division makes both conversions odd: a negated amount gives the negated result |
| LiquidityAmounts.RoundTrips | apps/web/lib/liquidityAmounts.ts:62-108 | converting an amount to the other token and back never yields more than the start, in either direction |
| LiquidityAmounts.NothingOutOfRange | apps/web/lib/liquidityAmounts.ts:62-108 | with the price at or outside the bounds both conversions are zero |
| LiquidityAmounts.Amount1IsFloors | apps/web/lib/liquidityAmounts.ts:15-82 | in range amount1 is three divisions rounded down, by 2^96, B - P and 2^96, each in exact bounds |
| LiquidityAmounts.Amount0IsFloors | apps/web/lib/liquidityAmounts.ts:15-108 | in range amount0 is three divisions rounded down, by P - A, B and P, each in exact bounds |
| LiquidityAmounts.Amount1Accuracy | apps/web/lib/liquidityAmounts.ts:62-82 | amount1 is below the exact real quotient by less than the loss of the three floors |
| LiquidityAmounts.Amount0Accuracy | apps/web/lib/liquidityAmounts.ts:88-108 | amount0 is below the exact real quotient by less than the loss of the three floors |
| LiquidityAmounts.PairedWeiIsShown | apps/web/lib/liquidityAmounts.ts:158-195 | an amount is shown if and only if the ticks are valid and ordered, the price is strictly between theirs and the conversion is not zero: of token1 for an edited token0, of token0 for an edited token1 |
| LiquidityAmounts.PairedWeiAccuracy | apps/web/lib/liquidityAmounts.ts:158-195 | the shown amount is below the exact quotient of its own direction, at the prices of the two ticks, by less than the three roundings |
| LiquidityAmounts.PairedWeiIsConservative | apps/web/lib/liquidityAmounts.ts:158-195 | a paired amount is shown only for ordered valid ticks with the price strictly between theirs, and pairing it back stays within what was typed |
| DecimalStrings.TrimTrailingZerosKeepsValue | apps/web/lib/liquidityAmounts.ts:113-117 | trimming drops all trailing zeros and a bare point, and nothing else: the value is the same |
| DecimalStrings.HalfUpByDigit | apps/web/lib/liquidityAmounts.ts:123-144 | half-up rounding of a decimal is decided by its first dropped digit |
| DecimalStrings.CarriedValue | apps/web/lib/liquidityAmounts.ts:123-144 | splitting the carried integer back into parts, padding and trimming keeps its value |
| DecimalStrings.RoundDecimalStrIsHalfUp | apps/web/lib/liquidityAmounts.ts:123-144 | the result has at most d digits, no trailing zero and no leading zero after a carry, and is the exact half-up rounding, if and only if the string is not negative or its first dropped digit is below 5 |
| DecimalStrings.NegativeRoundsWrong | apps/web/lib/liquidityAmounts.ts:123-144 | every negative string with a first dropped digit of 5 or more is rounded to a wrong value |
| DecimalStrings.NegativeRoundsTo | apps/web/lib/liquidityAmounts.ts:123-144 | what such a string gives: the kept digits count as positive and one unit is added to the negative integer part; a result that is whole or not negative is written out right, any other has a second minus inside |
| DecimalStrings.NegativeExample | apps/web/lib/liquidityAmounts.ts:123-144 | "-2.7" rounded to no digits is "-1" |
| SwapPath.CutLoop | apps/web/hooks/useSwapPath.ts:46-90 | a route that comes back to a token can be cut there and stays an allowed route |
| SwapPath.SimpleWalkExists | apps/web/hooks/useSwapPath.ts:46-90 | any allowed route has one no longer with no repeated token, so visited sets exclude no answer |
| SwapPath.TargetLeavesNode | apps/web/hooks/useSwapPath.ts:52-89 | a route that extends a queued node leaves it by a hop the loop offers to an unvisited token |
| SwapPath.BfsFind | apps/web/hooks/useSwapPath.ts:28-93 | the queue loop ends; a path is returned if and only if an allowed one exists within the hop bound, none has fewer hops, and of those with as many it takes the earliest entries, leg by leg |
| SwapPath.ShortestPath | apps/web/hooks/useSwapPath.ts:158-164 | the same over the pool list itself: a shortest chain of real pools of the allowed type, without repeats, earliest in pool-list order, or none exists |
| SwapPath.EarliestIsUnique | apps/web/hooks/useSwapPath.ts:28-93 | two earliest chains of one length are equal, so the pool list determines what each search returns |
| SwapPath.BuildIndex | apps/web/hooks/useSwapPath.ts:114-128 | the index lists, for every token, exactly the pools with that token, in pool-list order |
| SwapPath.PoolsWithAppend | apps/web/hooks/useSwapPath.ts:114-128 | the pools under a token are those of the first part of the list, then those of the second |
| SwapPath.PoolsWithOne | apps/web/hooks/useSwapPath.ts:117-126 | one pool is listed under its two tokens, twice if they are the same, and under no other |
| SwapPath.HopsAreRealPools | apps/web/hooks/useSwapPath.ts:50-76 | the hops offered from the index are exactly the legs through pools of the list, from one of the pool's tokens to the other |
| SwapPath.BfsIsShortest | apps/web/hooks/useSwapPath.ts:28-93 | a shortest path over the index is a shortest chain over the pool list |
| SwapPath.DirectRoutesFromIndex | apps/web/hooks/useSwapPath.ts:133-154 | scanning only the pools indexed under tokenIn finds every direct pool of the list, in order |
| SwapPath.DirectRoutesAppend | apps/web/hooks/useSwapPath.ts:133-154 | the direct candidates follow the order of the pools |
| SwapPath.DirectRoutesOfOne | apps/web/hooks/useSwapPath.ts:136-153 | a pool gives one leg to tokenOut if its tokens are the two sought, in either order, and no candidate otherwise |
| SwapPath.DirectRoutesAreChains | apps/web/hooks/useSwapPath.ts:144-152 | each direct candidate is a one-leg chain of a real pool |
| SwapPath.CollectDirect | apps/web/hooks/useSwapPath.ts:133-154 | the loop collects exactly the direct routes, in order |
| SwapPath.Search | apps/web/hooks/useSwapPath.ts:156-172 | the earliest shortest basic, CL and mixed route in this order, the mixed one if and only if no earlier candidate has its length and its pool at every leg: at most three, distinct, within the hop bound |
| SwapPath.IsDuplicate | apps/web/hooks/useSwapPath.ts:166-170 | comparing keys finds exactly the candidates through the same pools in the same order |
| SwapPath.KeysAreSamePools | apps/web/hooks/useSwapPath.ts:166-170 | two routes have one key if and only if they have the same length and the same pool address at every leg |
| SwapPath.SearchResult | apps/web/hooks/useSwapPath.ts:163-171 | dropping a mixed route whose pools repeat an earlier candidate loses no shortest route |
| SwapPath.UseSwapPath | apps/web/hooks/useSwapPath.ts:105-175 | every candidate is a connected chain of real pools without repeats; direct pools, if any, are exactly the candidates; no result means no route within the bound |
| EventLog.AbsorbMany | apps/broker/src/cli/replay-indexed-events.runner.ts:83-97 | events drawn from a log in any order and number, applied before it, do not show, if each event only shows its last application |
| EventLog.ReplaySuffix | apps/broker/src/cli/replay-indexed-events.runner.ts:83-97 | then replaying any suffix of the log on its finished tables changes nothing |
| Votes.AttemptAbsorbed | apps/broker/src/aggregator/voting-events.ts:12-64 | a vote message cut off anywhere and repeated leaves what one full attempt leaves |
| Votes.ApplyAround | apps/broker/src/aggregator/voting-events.ts:12-64 | an earlier application of an event shows nothing once it is applied again, whatever came between |
| Votes.ReplayVotes | apps/broker/src/aggregator/voting-events.ts:12-64 | replaying the vote log or any suffix on the finished tables changes nothing |
| Votes.LastVoteDecides | apps/broker/src/aggregator/voting-events.ts:12-64 | after the last vote on a key its row is what the vote says, active; after the last abstention it is the row before with weight 0 and inactive, or still none |
| Votes.FirstEventRow | apps/broker/src/aggregator/voting-events.ts:26-35 | the event row of an id is that of the first event with the id |
| Votes.EventIdsAfter | apps/broker/src/aggregator/voting-events.ts:26-63 | event rows are the old ones and one for each id of the log, none overwritten |
| Votes.CutAttempt | apps/broker/src/aggregator/voting-events.ts:12-64 | an attempt cut off between its statements has changed the position and logged nothing |
| Votes.OtherKeysUntouched | apps/broker/src/aggregator/voting-events.ts:12-64 | a key no event speaks of keeps its position |
| Fees.ReadAfter | apps/broker/src/dynamic-fee/dynamic-swap-fee-read-model.service.ts:47-139 | each handler changes exactly the cells of its event; reset clears cap and scaling but not the base fee |
| Fees.LastWriterWins | apps/broker/src/dynamic-fee/dynamic-swap-fee-read-model.service.ts:47-139 | every cell holds what the last event that writes it said, or its initial value |
| Fees.LastWrites | apps/broker/src/dynamic-fee/dynamic-swap-fee-read-model.service.ts:47-139 | the last write of each column, spelled out by event type |
| Fees.ReplayFees | apps/broker/src/dynamic-fee/dynamic-swap-fee-read-model.service.ts:47-139 | replaying the fee log or any suffix on the finished tables changes nothing |
| Fees.ReadModelServesLastWrites | apps/broker/src/dynamic-fee/dynamic-swap-fee-read-model.service.ts:47-186 | after any log the read model of a pool and sender serves, column by column, what the last event of its kind set, a reset clearing cap and scaling factor only; and the sender's discount, in whole basis points towards zero too, if a sender is named |
| Whitelist.ApplyKeepsFlags | apps/broker/src/aggregator/voter-whitelist-token.ts:15-63 | recomputing only the pairs with the changed token keeps every pair's flag in agreement |
| Whitelist.FlagsAreConjunctions | apps/broker/src/aggregator/voter-whitelist-token.ts:15-63 | from an empty whitelist, after any events each pair keeps its tokens and its flag is the conjunction of their latest statuses |
| Whitelist.TokensAfter | apps/broker/src/aggregator/voter-whitelist-token.ts:35-41 | the rows are the tokens the events named, but for an empty one, each with what its last event said |
| Whitelist.AttemptAbsorbed | apps/broker/src/aggregator/voter-whitelist-token.ts:15-63 | a whitelist message cut off anywhere and repeated leaves what one full attempt leaves |
| Whitelist.CutAttempt | apps/broker/src/aggregator/voter-whitelist-token.ts:35-58 | an attempt cut off between its statements has set the status and changed no pair |
| Whitelist.ReplayWhitelist | apps/broker/src/aggregator/voter-whitelist-token.ts:15-63 | replaying any suffix on the finished tables changes nothing |
| Stakes.FirstEventWins | apps/broker/src/aggregator/gauge-stake-events.ts:12-121 | each (transaction, log index) keeps the row of the first event that carried it, column by column: deposit or withdrawal, CL or not, and for CL the user, the liquidity and the token id |
| Stakes.KeysAfter | apps/broker/src/aggregator/gauge-stake-events.ts:12-121 | the rows are exactly the old ones and one for each key of the log; old ones are never overwritten |
| Locks.ExecAround | apps/broker/src/aggregator/ve-lock-events.ts:18-198 | statements of one event, other than an increase, may be repeated around each other without effect |
| Locks.AttemptAbsorbed | apps/broker/src/aggregator/ve-lock-events.ts:18-198 | a cut and repeated lock message is absorbed if and only if it is not an increase cut after adding a non-zero value to an existing row |
| Locks.DepositRow | apps/broker/src/aggregator/ve-lock-events.ts:18-60 | type 1 creates a missing row, types 2 and 0 add to the amount, type 3 moves the end, any other does nothing; no other token's row changes |
| Locks.StatusRow | apps/broker/src/aggregator/ve-lock-events.ts:62-132 | a withdrawal deactivates and empties the row, the permanence events set and clear the flag, the first clearing the end too; none makes a row |
| Locks.MergedRow | apps/broker/src/aggregator/ve-lock-events.ts:134-161 | a merge empties the source and gives the target the final amount and end; no other column of any row changes |
| Locks.PartRow | apps/broker/src/aggregator/ve-lock-events.ts:163-198 | a split empties the source and makes both parts active with their amounts and the end; a part that has a row keeps its owner and permanence |
| Locks.EventRows | apps/broker/src/aggregator/ve-lock-events.ts:18-198 | an event adds the one event row it describes, column by column, unless its id has one |
| Locks.FirstEventRow | apps/broker/src/aggregator/ve-lock-events.ts:18-198 | after any log the event row of an id is what the first event with the id says |
| Locks.CutAttempt | apps/broker/src/aggregator/ve-lock-events.ts:18-198 | an attempt cut off after its first statement has logged the event and changed no position |
| Locks.CutMove | apps/broker/src/aggregator/ve-lock-events.ts:134-198 | a merge or split cut off after two statements has emptied the source and done no more |
| Locks.CutSplit | apps/broker/src/aggregator/ve-lock-events.ts:163-198 | a split cut off after three has made the first part and left the row of the second |
| Locks.OwnerStays | apps/broker/src/aggregator/ve-lock-events.ts:18-198 | over any log a row stays, with its owner |
| Locks.PermanenceIsLast | apps/broker/src/aggregator/ve-lock-events.ts:86-132 | over any log a row is permanent exactly when the last permanence event on its token made it so |
| LockLedger.RowFollowsLedger | apps/broker/src/aggregator/ve-lock-events.ts:18-198 | the statements of any event the escrow can emit move each token's row where the ledger goes |
| LockLedger.ApplyRepresents | apps/broker/src/aggregator/ve-lock-events.ts:18-198 | one event keeps the table a picture of the ledger |
| LockLedger.ProjectionIsLedger | apps/broker/src/aggregator/ve-lock-events.ts:18-198 | after any contract-consistent log, amounts and active flags are the ledger's, and inactive rows hold 0 |
| LockLedger.LedgerBalances | apps/broker/src/aggregator/ve-lock-events.ts:18-198 | the ledger's live total is created plus increased less withdrawn; merges and splits conserve it |
| LockLedger.ActiveTotalIsConserved | apps/broker/src/aggregator/ve-lock-events.ts:18-198 | the same total, read off the projected table |
| BrokerDb.AggregationAbsorbed | apps/broker/src/aggregator/index.ts:118-372 | for every mapped event but an increase, a cut aggregation repeated in full leaves one full aggregation |
| BrokerDb.AttemptAbsorbed | apps/broker/src/indexer-events/indexer-event-persistence.service.ts:33-59 | any message cut off anywhere and repeated in full leaves one full application if and only if it had not already added a non-zero value to an existing lock; outside the lock tables it always does |
| BrokerDb.StoredBeforeAggregated | apps/broker/src/indexer-events/indexer-event-persistence.service.ts:33-59 | a message is stored under its id unless there is none or something is there; an attempt cut off after its first statement has done that and nothing else |
| BrokerDb.AdditiveAttempt | apps/broker/src/aggregator/ve-lock-events.ts:45-51 | the same for an increase, with an id or without: one application if and only if the cut did not come after a non-zero increase of an existing row |
| BrokerDb.TimesOnce | apps/broker/src/aggregator/index.ts:118-372 | any number of full applications of a message is one, if and only if it does not add to an existing lock; outside the lock tables it always is |
| BrokerDb.AmountAfterTimes | apps/broker/src/aggregator/ve-lock-events.ts:45-51 | n applications of an increase add exactly n times its value, and touch no other row |
| Delivery.StepInOrder | apps/broker/src/rabbitmq/rabbitmq.service.ts:81-94 | no step loses, duplicates or reorders a message: handled, in flight and queued are what was produced |
| Delivery.StepMarks | apps/broker/src/rabbitmq/rabbitmq.service.ts:195-202 | only the head can have been delivered before, and the error path requeued it at most once |
| Delivery.CrashRequeues | apps/broker/src/rabbitmq/rabbitmq.service.ts:75-95 | a crash is possible at any time, keeps what has committed, and puts the message back before all others, marked as redelivered |
| Delivery.StepAbsorbs | apps/broker/src/rabbitmq/rabbitmq.service.ts:171-202 | however often the head was attempted, finishing it applies it once to the tables it found, and once more for each time it was requeued complete |
| Delivery.AckedIsAtomic | apps/broker/src/rabbitmq/rabbitmq.service.ts:152-203 | at an ack of any message, all tables but those of the locks are one atomic application to what the message found when it reached the head; all tables are, if and only if it was never requeued complete or does not add to an existing lock |
| Delivery.StepStores | apps/broker/src/indexer-events/indexer-event-persistence.service.ts:33-59 | acked messages with an id are in indexed_events and stay there |
| Delivery.StepInvents | apps/broker/src/indexer-events/indexer-event-persistence.service.ts:33-59 | each stored row is a produced payload under its own id, once stored never changed |
| Delivery.StepFolds | apps/broker/src/rabbitmq/rabbitmq.service.ts:152-203 | without drops the settled tables stay what the acked messages, with their complete attempts, made of them |
| Delivery.StepSettles | apps/broker/src/rabbitmq/rabbitmq.service.ts:171-202 | with drops too, the settled tables stay what the handled messages made of them in order, a dropped one as far as each of its attempts got |
| Delivery.AppliedButLocks | apps/broker/src/rabbitmq/rabbitmq.service.ts:152-203 | outside the lock tables complete attempts do not show: those are the fold of the acked messages, each once |
| Delivery.AppliedIsFold | apps/broker/src/rabbitmq/rabbitmq.service.ts:152-203 | the tables, locks included, were that fold after every ack if and only if no increase of an existing lock was requeued complete |
| Delivery.RunKeepsInvariant | apps/broker/src/rabbitmq/rabbitmq.service.ts:75-108 | every reachable state of every run has all of the above |
| Delivery.DeliveryGuarantees | apps/broker/src/rabbitmq/rabbitmq.service.ts:171-201 | in every run: acked implies stored, nothing is lost or reordered, at most one error requeue for each message |
| Delivery.DrainedTablesAreFold | apps/broker/src/rabbitmq/rabbitmq.service.ts:152-203 | once drained without drops, the acked log is the produced one and all tables but those of the locks are its fold, whatever is in it; the lock tables are too unless an increase of an existing lock was requeued complete |
| Delivery.QuietTablesAreSettled | apps/broker/src/rabbitmq/rabbitmq.service.ts:152-203 | with drops: on an empty queue the tables are the produced messages in order, acked ones whole, dropped ones as far as their attempts got |
| IndexerConsumer.Database.PersistIfNew | apps/broker/src/indexer-events/indexer-event-persistence.service.ts:33-59 | an id not yet stored is stored, a stored one is kept without error, no id stores nothing; it throws exactly when the insert fails or its answer is lost |
| IndexerConsumer.Database.AggregateVoterVoted | apps/broker/src/aggregator/voting-events.ts:12-38 | upserts the position, then logs the event; stops at the first statement that fails or whose answer is lost, with exactly the committed ones done |
| IndexerConsumer.Database.AggregateVoterAbstained | apps/broker/src/aggregator/voting-events.ts:40-64 | empties the position, then logs the event; stops at the first failure as above |
| IndexerConsumer.Database.AggregateVoterWhitelistToken | apps/broker/src/aggregator/voter-whitelist-token.ts:15-63 | upserts the token, then recomputes its pairs; stops at the first failure as above |
| IndexerConsumer.Database.AggregateVeDeposit | apps/broker/src/aggregator/ve-lock-events.ts:18-60 | event row, then creation, increase or new unlock time by deposit type; stops at the first failure as above |
| IndexerConsumer.Database.AggregateVeWithdraw | apps/broker/src/aggregator/ve-lock-events.ts:62-84 | event row, then the position is emptied; stops at the first failure as above |
| IndexerConsumer.Database.AggregateVeLockPermanent | apps/broker/src/aggregator/ve-lock-events.ts:86-108 | event row, then the position loses its unlock time; stops at the first failure as above |
| IndexerConsumer.Database.AggregateVeUnlockPermanent | apps/broker/src/aggregator/ve-lock-events.ts:110-132 | event row, then the permanent flag goes; stops at the first failure as above |
| IndexerConsumer.Database.AggregateVeMerge | apps/broker/src/aggregator/ve-lock-events.ts:134-161 | event row, source emptied, target set to the final amount; stops at the first failure as above |
| IndexerConsumer.Database.AggregateVeSplit | apps/broker/src/aggregator/ve-lock-events.ts:163-198 | event row, source emptied, two positions upserted; stops at the first failure as above |
| IndexerConsumer.Database.AggregateIndexedEvent | apps/broker/src/aggregator/index.ts:118-372 | dispatches to the event's own statements; unmapped types change nothing |
| IndexerConsumer.Database.QueryFees | apps/broker/src/aggregator/dynamic-swap-fee-module-events/index.ts:18-40 | the fee row is written unless the statement fails; it throws exactly when that or the update beside it does |
| IndexerConsumer.Database.HandleIndexerMessage | apps/broker/src/rabbitmq/rabbitmq.service.ts:152-203 | the statements run in order up to the first failure; acked if and only if nothing fails and the publication is sent, dropped if and only if a statement failed, or the rest threw and the error is not retryable or the message was redelivered, requeued in every other case |
| IndexerConsumer.HandlerIsARun | apps/broker/src/rabbitmq/rabbitmq.service.ts:152-203 | every outcome the handler's contract allows is a run of the delivery machine; without an error it ends acked, or back at the head and marked if not sent; after one, back at the head if retryable and not redelivered, else dropped |
| Replay.RunReplay | apps/broker/src/cli/replay-indexed-events.runner.ts:33-112 | a dry run changes nothing; otherwise each row is attempted once and in order on what the attempts before left; counters are those of the attempts; it stops early if and only if one fails without continueOnError, at that row |
| Replay.CleanReplayIsFold | apps/broker/src/cli/replay-indexed-events.runner.ts:83-97 | when no attempt fails, the tables are the fold of the selected rows |
| Replay.AggregateByKind | apps/broker/src/aggregator/index.ts:118-372 | a message's aggregation is the projection of its own kind and leaves all other tables |
| Replay.ReplayOnFinishedTables | apps/broker/src/cli/replay-indexed-events.runner.ts:83-97 | replaying any suffix of any mixed log on its finished tables leaves every table but those of the locks; these too if the suffix has no lock event |
| EndToEnd.FoldByKind | apps/broker/src/aggregator/index.ts:118-372 | each read model is the fold of the events of its own kind |
| EndToEnd.DeliveredFlags | apps/broker/src/aggregator/voter-whitelist-token.ts:15-63 | after any drained run with crashes and requeues, whatever else was produced, pair flags are the conjunctions of the last produced statuses |
| EndToEnd.DeliveredVotes | apps/broker/src/aggregator/voting-events.ts:12-64 | after any drained run a position is what the last produced event on its key says |
| EndToEnd.DeliveredStakes | apps/broker/src/aggregator/gauge-stake-events.ts:12-121 | after any drained run there is exactly one row for each produced key, column by column what its first event says |
| EndToEnd.DeliveredLocks | apps/broker/src/aggregator/ve-lock-events.ts:18-198 | after any drained run of an escrow's events, increases included, rows and active flags are the escrow's ledger, unless an increase was requeued with its value added |
| EndToEnd.DeliveredAmounts | apps/broker/src/aggregator/ve-lock-events.ts:18-198 | after any drained run of an escrow's events each token's amount is the ledger's plus, for every increase since it was last set, its value once for each time it was requeued complete; active flags are the ledger's |
| EndToEnd.LateRequeueAddsTwice | apps/broker/src/aggregator/ve-lock-events.ts:45-51 | for every non-zero increase of an existing lock there is a run, with one refused publication and no error or crash, that drains with its value added twice |
| EndToEnd.DeliveredFees | apps/broker/src/dynamic-fee/dynamic-swap-fee-read-model.service.ts:47-139 | after any drained run each fee cell holds the last value produced for it |
| RateLimiter.Limiter.constructor | apps/amm-indexer/ponder.config.ts:46-51 | the rate is the configured one, or 5 when that is not finite or not positive |
| RateLimiter.IntervalIsLeast | apps/amm-indexer/ponder.config.ts:47-48 | the interval is the least whole number of milliseconds that, times the rate, covers a second |
| RateLimiter.Limiter.Request | apps/amm-indexer/ponder.config.ts:57-65 | a request joins the end of the queue |
| RateLimiter.Limiter.WaitMs | apps/amm-indexer/ponder.config.ts:59-62 | a start waits up to one interval after the last one, and not at all when that has passed |
| RateLimiter.Limiter.Start | apps/amm-indexer/ponder.config.ts:59-64 | requests start in arrival order, each at least the interval after the one before, given clock readings that do not go back |
| RateLimiter.StartsFarApart | apps/amm-indexer/ponder.config.ts:46-87 | starts i and j are at least (j - i) intervals apart |
| RateLimiter.FewStartsWithinASecond | apps/amm-indexer/ponder.config.ts:46-87 | starts within one second of each other differ in number by less than the rate, integer or not |
| RateLimiter.WindowHoldsRate | apps/amm-indexer/ponder.config.ts:46-87 | any half-open second of spaced starts holds at most the rate rounded up |
| RateLimiter.LimiterHoldsRate | apps/amm-indexer/ponder.config.ts:46-87 | so does every limiter in every state, at most the rate itself when it is an integer, with starts in arrival order |
| PoolFees.BuildCalls | apps/web/hooks/usePoolFees.ts:88-112 | the building loop pushes the calls of each route in route order |
| PoolFees.ReadFees | apps/web/hooks/usePoolFees.ts:121-167 | at each route the cursor stands past exactly the calls of the routes before, and at the end past all |
| PoolFees.CursorAligned | apps/web/hooks/usePoolFees.ts:88-167 | what stands at that cursor in the batch is exactly the route's own calls |
| PoolFees.FeesAreOwn | apps/web/hooks/usePoolFees.ts:88-167 | so each route shows its own fee: a CL pool with an address its fee in hundredths rounded half up, or 30, and with a module in use the module's fee, or the base; any other the default of its kind, 5 or 30 when unread |
| PoolFees.FeesWhileLoading | apps/web/hooks/usePoolFees.ts:121-167 | while the batch is loading each route shows what it would if every call had failed |
| PoolFees.SumIsOfOwnFees | apps/web/hooks/usePoolFees.ts:180-181 | the total is the sum of the per-route fees |
| PoolFees.RouteFees | apps/web/hooks/usePoolFees.ts:46-181 | building, batched answering, reading and summing give each route its own fee and their sum; a module is in use when it was read, is not empty and not the zero address |
| ExchangeRollup.ExchangeRollupService.BumpBucket | apps/broker/src/exchange/exchange-rollup.service.ts:80-138 | the row found or created moves by the delta in every column and is saved whole over whatever stands there by then |
| ExchangeRollup.ExchangeRollupService.RecordSwapVolumeAndTrade | apps/broker/src/exchange/exchange-rollup.service.ts:143-171 | three bumps in order of the buckets the time aligns to, in streams 3, 4 and 5: positive volume and fee in each, the trade in the day stream; undisturbed, they are the event applied |
| ExchangeRollup.ExchangeRollupService.RecordLiquidityTvlUsd | apps/broker/src/exchange/exchange-rollup.service.ts:176-203 | three such bumps of a positive TVL delta; none, and no save, for any other; undisturbed, they are the event applied |
| ExchangeRollup.ExchangeRollupService.RecordNewPair | apps/broker/src/exchange/exchange-rollup.service.ts:208-229 | three such bumps, the pair counted in the day stream; undisturbed, they are the event applied |
| ExchangeRollup.ExchangeRollupService.EnsureWallClockBuckets | apps/broker/src/exchange/exchange-rollup.service.ts:235-257 | three such bumps by nothing, which still save the rows they found; undisturbed, they are the event applied |
| ExchangeRollup.UndisturbedCall | apps/broker/src/exchange/exchange-rollup.service.ts:80-257 | a call that no other save falls into is one event applied to the buckets |
| ExchangeRollup.WallClockAddsNothing | apps/broker/src/exchange/exchange-rollup.service.ts:235-257 | an undisturbed tick creates at most the three current buckets and changes no value in any |
| ExchangeRollup.ApplyBucket | apps/broker/src/exchange/exchange-rollup.service.ts:80-138 | an event moves a bucket's column, by what its type adds there, only if it aligns to that bucket |
| ExchangeRollup.DeltaAdds | apps/broker/src/exchange/exchange-rollup.service.ts:143-257 | what each event type adds to each column of each stream: volume and fee of swaps, value of liquidity, trades and pairs in the day stream alone |
| ExchangeRollup.BucketIsSumOfItsEvents | apps/broker/src/exchange/exchange-rollup.service.ts:80-257 | for calls taken one after another, every column of every bucket is the sum of the events aligned to it |
| ExchangeRollup.StreamIsSumOfEvents | apps/broker/src/exchange/exchange-rollup.service.ts:80-257 | for calls taken one after another, a stream's buckets add up to what all events of the protocol contributed |
| ExchangeRollup.StreamsAgree | apps/broker/src/exchange/exchange-rollup.service.ts:80-257 | for calls taken one after another, the day, week and month streams hold the same volume, that of all swaps, the same fees and the same value; trades over all streams are the number of swaps, pairs that of new pairs |
| ExchangeCalls.BumpIsFindAndSave | apps/broker/src/exchange/exchange-rollup.service.ts:80-138 | a bump of the service is a find and a save of the interleaved machine, whatever is saved in between |
| ExchangeCalls.SaveMovesByDelta | apps/broker/src/exchange/exchange-rollup.service.ts:103-136 | a save moves its bucket by exactly its delta if and only if the row is still the one found |
| ExchangeCalls.StaleTickRestores | apps/broker/src/exchange/exchange-rollup.service.ts:235-257 | a tick that saves over another call's bump puts the old row back; that changes nothing if and only if the other delta is all zeros |
| ExchangeCalls.ExactWhileCurrent | apps/broker/src/exchange/exchange-rollup.service.ts:80-257 | with any number of calls side by side, the buckets are what the saves so far should come to after every step, if and only if every save found its row unchanged |
| ExchangeCalls.UnovertakenIsCurrent | apps/broker/src/exchange/exchange-rollup.service.ts:80-257 | every save does so when none changes a row that another call has found and not saved yet |
| ExchangeCalls.SavesAreTheLog | apps/broker/src/exchange/exchange-rollup.service.ts:80-257 | however calls overlap, once none is under way their saves come to the calls taken one after another in the order of their last saves |
| ExchangeCalls.CurrentRunIsSerial | apps/broker/src/exchange/exchange-rollup.service.ts:80-257 | if every save found its row unchanged and no call is under way, the buckets are those of that log and the streams agree |
| ExchangeCalls.UnovertakenRunIsSerial | apps/broker/src/exchange/exchange-rollup.service.ts:80-257 | so they are when no save overtakes another call's find |
| ExchangeCalls.StaleTickLosesSwap | apps/broker/src/cron/cron.service.ts:35-41 | from any state there is a run of one tick and one swap of the same day after which the day stream holds nothing of the swap and the week stream its volume |
| Backfill.Stream.Update | apps/broker/src/cli/backfill-cumulative-buckets.main.ts:117-126 | the update by key changes the row read and no other |
| Backfill.Stream.Backfill | apps/broker/src/cli/backfill-cumulative-buckets.main.ts:68-139 | whatever the page size, each row with an index from 1 on is visited once and in order, rows below are left alone, and the count is of the rows written |
| Backfill.PageIsSlice | apps/broker/src/cli/backfill-cumulative-buckets.main.ts:76-82 | a keyset page is the next stretch of rows past the cursor |
| Backfill.TotalsArePrefixSums | apps/broker/src/cli/backfill-cumulative-buckets.main.ts:86-126 | each total ends within 10^-12 of the true prefix sum, and the deltas are untouched |
| Backfill.FeesCarryForward | apps/broker/src/cli/backfill-cumulative-buckets.main.ts:95-124 | set fees stay; unset ones become the last positive total before them, if any |
| Backfill.RowsAfterBackfill | apps/broker/src/cli/backfill-cumulative-buckets.main.ts:68-139 | the whole stream row by row: a row from index 1 on with a total off by more than 10^-12, or without fees when there are some to carry, gets the sums over the rows from index 1 on; every other row is as it was |
| Backfill.WritesAreStaleRows | apps/broker/src/cli/backfill-cumulative-buckets.main.ts:109-127 | the number of writes is the number of exactly those rows |
| Backfill.SecondRunIsIdle | apps/broker/src/cli/backfill-cumulative-buckets.main.ts:109-127 | backfilled rows need no update, at any prefix |
| Backfill.BackfillIsIdempotent | apps/broker/src/cli/backfill-cumulative-buckets.main.ts:63-140 | a second run over the stream writes nothing and leaves every row |

## Left out

- Floating-point tick and price helpers (`tickToPrice`, `priceToTick`, `priceToSqrtPriceX96`, `computeRangeRatio`, `formatPrice`): `pow` and `log` on doubles have no exact meaning here.
- viem's `parseUnits` and `formatUnits`: amounts enter as integers; `CalcPairedWei` is `calcPairedAmount` between the two.
- `baseWeiInitialFromQuote` and `baseWeiFromReserves`: single divisions.
- `minUsableTick` and `maxUsableTick`: single expressions next to `NearestUsableTick`.
- `roundDecimalStr` on strings that are not an optional minus, digits, and optionally a point with digits.
- Mixed-case addresses: the model takes them normalised; a candidate's key is the sequence of its pool addresses instead of their comma-joined string.
- Replay.ReplayOnFinishedTables: the lock tables only for suffixes without lock events: a replayed increase adds again (AmountAfterTimes).
- An AMQP channel lost while the process lives: the handler then still runs beside the redelivered message. A crash in the model ends the attempt.
- LockLedger.ProjectionIsLedger: each event delivered once, and only amount and active flag; `isPermanent` and `lockEnd` do not follow the contract (a split always inserts `isPermanent` false, an unlock leaves `lockEnd` null).
- A fee write still under way when the swap-graph update beside it has already failed: the model has it committed or not by the time the error is thrown.
- The swallowed unique violation of `aggregatePayload`: every modelled statement has an ON CONFLICT clause, so none arises.
- `createdAt` and `updatedAt` columns, log lines, and payload parsing: a message is an id, empty when there is no usable one, and a typed event.
- Swap, liquidity, pool-created and gauge-created aggregators, the swap graph and the OHLCV service: their messages are `Unmapped` here. Reward claims, likewise. How they end is a parameter of the handler; in the replay they succeed.
- The account notification counters, the RPC queue, WebSocket fan-out and HTTP cache publication: an outcome of the handler only.
- `withTimeout`, `pendingCount` and the wrapped request itself in the rate limiter: they cannot delay or hurry a start.
- The row selection query and progress lines of the replay command.
- The `total*Buckets` counters of `spot_exchanges`: `ensureExchangeRow` upserts zeros over them on each call.
- `alignBucketStart`: any function of time and resolution.
- The token streams of the backfill (the same loop with one column fewer), and the outer loop over streams.
- TypeORM's `save` reads the row once more before it updates: the model's save is one step, and what it writes is the found row with the delta. Saves that fail, which a rollup call only logs.
- The backfill and the replay command beside a running broker: the model has nobody else change their rows.
- Rounding of doubles in rollups and backfill: they are reals.
- The trading bot loop, the gateway socket's subscriptions and the pool filters: small state machines with no property beyond their branches.
- React rendering, wallet signing, contract calls and Nest wiring.
