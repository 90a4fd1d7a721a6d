# Verification model of the arbitrage bot

Dafny 4.11 models of the decision logic of a CEX-DEX arbitrage bot, with proofs of what that
logic keeps over all inputs, all runs and all interleavings. `dafny verify dfyconfig.toml` checks
everything.

The models follow the program's structure, one module per component:

- **Pools and routes.** `UniswapV2Calculator`, `SwapLaws`, `UniswapV2Pair` (swap arithmetic, its
  laws, runs of swaps), `ImpactAnalyzer`, `ImpactPrecision` (the price-impact search, and when it
  is exact), `RouteGraph`, `RouteSearch`, `RouteOrder`, `Routing` (adjacency graph, depth-first
  enumeration and its order, quoting, choice and ranking of routes), `PricingEngine` (pool map and
  router kept coherent under refreshes and Sync events), `PoolHistory` (what they hold, read off
  the events).
- **Prices.** `OrderBook` (the greedy walk), `SignalGenerator` (both markets at trade size, the
  direction, the sweep over sizes).
- **Execution and safety.** `RollingWindow`, `Recovery` (circuit breaker, replay protection),
  `Risk`, `RiskLaws` (what the gate answers and the ledger holds), `Inventory`, `ExchangeRules`,
  `Executor`, `ExecutorLaws` (orders, endings and bookings in plain terms), `ArbBot` (interleaved
  ticks over all of them), `BotLaws` (what each step starts, and what lies behind running legs),
  `BotLedger` (the books over whole runs), `ProfitBounds` (what executions of a signal can earn
  and lose).
- **Rebalancing and signing.** `Rebalancer`; `KeyOrder` and `Serializer` (canonical JSON).
- `JsMath` holds bigint arithmetic: division truncates toward zero, division by zero is an error.
  `Core` holds the scale, the sides and the signal that all components share.

Conventions. Thrown errors are `Result` or `Option` values. Components that update their fields
are classes; each method is proved against a function of its old state, and laws are proved about
those functions. Clock readings, exchange replies, fetched pools and the delays between two clock
readings are arguments, so every statement holds for all of them. An asynchronous method is cut
into its atomic sections. An address is its lower-case form, which is what every comparison uses.

## Where the code departs from its documentation

The models follow the code, and say how far each departure goes.

- `findMaxSizeForImpact` promises the largest acceptable size, or 0 if even one unit is over the
  limit. Floors make the impact non-monotone, and two things go wrong. One unit may be over the
  limit by rounding alone; the answer is then 0, as documented, although much larger sizes are
  acceptable: `OneUnitIff` and `RejectedUnitMisses` say when, in the reserves, the fee and the
  limit, and everyday pools are among them (`OrdinaryPoolIsMissed`). Otherwise the search may stop
  short of the largest size, by an amount that is computed beforehand (`MissIsBounded`) and is
  none where `CoveredIsLargest` applies. `LargestIffUnitPays` puts both sides together.
- The planner promises that a source keeps its operating balance. Each plan is checked against
  the balance before any of them, so several plans together can break it (`FloorKeptIff`,
  `FloorKeptWithoutMinimumIff`, `FloorCanBeBroken`). Its loop does not always end (`EndsIff`).
- Failed trades are said to be unwound. A partial fill below the threshold is not, and neither is
  one whose unwind order the exchange refuses: the error is swallowed, and the order is not checked
  against the minimum notional (`FailedFillIsUnwoundIff`, `PartialFillStands`,
  `RefusedUnwindStands`).
- Canonical JSON promises alphabetical keys. Keys that are array indices come first, by value
  (`AlphabeticalIff`), and a member named `__proto__` is dropped (`ProtoIsLost`).
- In-place graph patching stands for a rebuild only while a pool keeps its tokens
  (`PatchIsRebuildIff`).
- The repository's README describes the breaker as 3 failures in 60 seconds; the constants are 3
  failures in 5 minutes with a cooldown of 10 (src/executor/recovery/recovery.constants.ts:2-8).
  The model takes any configuration and proves for which ones the window bound holds
  (`WindowBoundIff`); the constants are among them.

## Model

| member | source | states |
|---|---|---|
| UniswapV2Calculator.AmountOutAtLeast | src/pricing/uniswap-v2/uniswap-v2.calculator.ts:8-23 | A proper swap never throws, and its output reaches y exactly when the input less its fee pays for y at the price left behind; as y is arbitrary this fixes the output. |
| UniswapV2Calculator.RefusedIff | src/pricing/uniswap-v2/uniswap-v2.calculator.ts:8-63 | What is refused: amounts, reserves and prices that are not positive, outputs not below the reserve; a full fee makes getAmountIn divide by zero. |
| UniswapV2Calculator.AmountOutRange | src/pricing/uniswap-v2/uniswap-v2.calculator.ts:18-22 | An output lies between 0 and the output reserve, exclusive of the reserve: no swap empties a pool. |
| SwapLaws.OutputIsLargestKeepingProduct | src/pricing/uniswap-v2/uniswap-v2.calculator.ts:18-22 | The output is the largest amount for which the fee-adjusted product of the reserves does not fall, the check of section 3.2.1 of the Uniswap v2 Core whitepaper. |
| SwapLaws.SwapKeepsProduct | src/pricing/uniswap-v2/uniswap-v2.calculator.ts:65-73 | The plain product of the reserves never falls in a swap, for every fee from 0 to 100%. |
| SwapLaws.OutputMonotone | src/pricing/uniswap-v2/uniswap-v2.calculator.ts:18-22 | A larger input never buys less. |
| SwapLaws.OutputAtMostSpot | src/pricing/uniswap-v2/uniswap-v2.calculator.ts:18-22 | No swap beats the spot price, compared without division. |
| SwapLaws.InputsThatBuy | src/pricing/uniswap-v2/uniswap-v2.calculator.ts:18-38 | Exactly which inputs buy a given output: those that reach the quotient getAmountIn divides out. |
| SwapLaws.AmountInIsNearlyLeast | src/pricing/uniswap-v2/uniswap-v2.calculator.ts:25-41 | For every input x: x buys the requested output exactly when x is at least getAmountIn, or one less and the division was exact. |
| SwapLaws.AmountInSuffices | src/pricing/uniswap-v2/uniswap-v2.calculator.ts:37-40 | What getAmountIn asks for does buy the requested output, and it is one unit more than needed exactly when its division leaves no remainder. |
| SwapLaws.FullFeeHasNoInput | src/pricing/uniswap-v2/uniswap-v2.calculator.ts:38-40 | At a fee of 100% getAmountIn divides by zero, and rightly: no input buys anything. |
| SwapLaws.TwoSwapsNeverBeatOne | src/pricing/uniswap-v2/uniswap-v2.calculator.ts:18-22 | Two swaps in a row never pay more than one swap of both inputs on the original reserves. |
| UniswapV2Pair.QuoteDefined | src/pricing/uniswap-v2/uniswap-v2.service.ts:42-45 | A live pool quotes exactly the positive inputs in a token it trades. |
| UniswapV2Pair.SwapReserves | src/pricing/uniswap-v2/uniswap-v2.service.ts:71-101 | simulateSwap adds the input to the input side and takes the quoted output from the other side, whichever token is sold. |
| UniswapV2Pair.SwapEffect | src/pricing/uniswap-v2/uniswap-v2.service.ts:70-101 | simulateSwap is defined exactly when the quote is, changes only the two reserves, keeps the pool live, and never lowers its product. |
| UniswapV2Pair.QuoteAgrees | src/pricing/uniswap-v2/uniswap-v2.service.ts:103-111 | The combined quote consists of the four single quotes and throws exactly when computing the price impact would. |
| UniswapV2Pair.AmountInBuysIt | src/pricing/uniswap-v2/uniswap-v2.service.ts:47-50 | getAmountIn sold into the pool, with its own choice of the other token, buys the requested output; two units less never do. |
| UniswapV2Pair.RunKeepsInvariant | src/pricing/uniswap-v2/uniswap-v2.service.ts:71-101 | Over any list of swaps in any directions: it throws exactly when one of them is improper, and otherwise both reserves stay positive and the product never falls. |
| UniswapV2Pair.NoRunExtractsValue | src/pricing/uniswap-v2/uniswap-v2.service.ts:71-101 | No run of swaps leaves both reserves no larger with one strictly smaller. |
| UniswapV2Pair.RoundTripNeverGains | src/pricing/uniswap-v2/uniswap-v2.service.ts:71-101 | Selling an amount and selling back what it bought returns at most the amount. |
| UniswapV2Pair.SplittingNeverPays | src/pricing/uniswap-v2/uniswap-v2.service.ts:42-101 | Feeding an order in any number of positive parts never pays more than feeding it at once, by induction over the parts. |
| ImpactAnalyzer.FindMaxSizeForImpact | src/pricing/uniswap-v2/uniswap-v2.analyzer.ts:39-60 | The whole method returns what the specified search returns, including the error of a probe that throws. |
| ImpactAnalyzer.SearchLoop | src/pricing/uniswap-v2/uniswap-v2.analyzer.ts:46-59 | The two-bound loop computes the recursive search and terminates. |
| ImpactAnalyzer.SearchEndsAtBoundary | src/pricing/uniswap-v2/uniswap-v2.analyzer.ts:49-59 | The search ends on an acceptable size whose successor is rejected or outside the range. |
| ImpactAnalyzer.OneUnitDefinesAll | src/pricing/uniswap-v2/uniswap-v2.analyzer.ts:39-52 | Once one unit has a price, every size up to the reserve has one: no later probe throws. |
| ImpactAnalyzer.MaxSizeIsBoundary | src/pricing/uniswap-v2/uniswap-v2.analyzer.ts:30-60 | On a live pool the search throws only if one unit has no price; it returns 0 exactly when one unit is over the limit, and else an acceptable size that is the whole reserve or whose successor is over the limit. |
| ImpactAnalyzer.ExecutionPriceNearlyMonotone | src/pricing/uniswap-v2/uniswap-v2.calculator.ts:50-55 | How far floors break monotonicity: for x <= y, (exec(y) - exec(x) - 1) * x < 10^18. |
| ImpactAnalyzer.LargerSizesNearlyRejected | src/pricing/uniswap-v2/uniswap-v2.analyzer.ts:36-57 | Every size above the result is over the limit except by what one output unit at the boundary is worth. |
| ImpactAnalyzer.SpotIsBest | src/pricing/uniswap-v2/uniswap-v2.calculator.ts:57-63 | The execution price never exceeds the spot price, so an impact lies in [0, 10000) bps. |
| ImpactAnalyzer.PricesMean | src/pricing/uniswap-v2/uniswap-v2.calculator.ts:43-63 | What the prices mean: the spot price is the ratio of the reserves, the execution price that of the amounts, the impact what the one loses against the other, each rounded down. |
| ImpactPrecision.FineImpactIsLeast | src/pricing/uniswap-v2/uniswap-v2.analyzer.ts:49-57 | Fine(x): x*g*g*b >= (A+g*x)*(A+g*x+g) with A = 10000*reserveIn, g = 10000-fee, b = reserveOut. No larger size has a lower impact than a fine one, floors and all. |
| ImpactPrecision.FineBetween | src/pricing/uniswap-v2/uniswap-v2.analyzer.ts:49-57 | Two fine sizes make every size between them fine, the condition being concave in the size. |
| ImpactPrecision.AcceptableIffLeastPrice | src/pricing/uniswap-v2/uniswap-v2.calculator.ts:57-63 | A size is within the limit exactly when its execution price reaches a least price computed from spot price and limit. |
| ImpactPrecision.SafeIsAcceptable | src/pricing/uniswap-v2/uniswap-v2.analyzer.ts:51-53 | A size at which the curve pays the least price even with one output unit less is within the limit, whatever the floors do. |
| ImpactPrecision.SafeBetween | src/pricing/uniswap-v2/uniswap-v2.analyzer.ts:51-53 | Two such sizes make every size between them such. |
| ImpactPrecision.AcceptableIffInteger | src/pricing/uniswap-v2/uniswap-v2.analyzer.ts:51-53 | A size is within the limit exactly when a whole number of output units lies between what the least price asks and what the curve pays for it. |
| ImpactPrecision.OneUnitIff | src/pricing/uniswap-v2/uniswap-v2.analyzer.ts:40-41 | The guard that answers 0, in closed form: one unit is within the limit exactly when k*(A+g) <= g*b, k being the least price rounded up to whole output units. |
| ImpactPrecision.WholeIsAcceptable | src/pricing/uniswap-v2/uniswap-v2.analyzer.ts:51-53 | If k*(A+g*x) <= g*b then x and every smaller size is within the limit. |
| ImpactPrecision.DeadIsRejected | src/pricing/uniswap-v2/uniswap-v2.analyzer.ts:51-56 | If the curve without its floor pays less than the least price at a size, that size and every larger one is over the limit. |
| ImpactPrecision.BetweenSafeAndDead | src/pricing/uniswap-v2/uniswap-v2.analyzer.ts:49-57 | What lies between the two conditions: exactly the sizes at which the curve meets the least price by less than one output unit is worth there. |
| ImpactPrecision.MissIsBounded | src/pricing/uniswap-v2/uniswap-v2.analyzer.ts:30-60 | With small sizes whole or safe up to from, and dead from dead on, the result and the largest acceptable size both lie in [from, dead): the search misses by less than dead - from, on any pool, fine or not. |
| ImpactPrecision.CoveredIsLargest | src/pricing/uniswap-v2/uniswap-v2.analyzer.ts:30-60 | If moreover nothing lies between, or from and dead - 1 are fine, the result is the largest acceptable size. |
| ImpactPrecision.RejectedUnitMisses | src/pricing/uniswap-v2/uniswap-v2.analyzer.ts:40-41 | If k*(A+g) > g*b and any size is safe, the result is 0 and not the largest acceptable size, that size being acceptable; it is 0 as the documentation allows when one unit is over the limit. |
| ImpactPrecision.DeadUnitIsExact | src/pricing/uniswap-v2/uniswap-v2.analyzer.ts:40-41 | If the curve does not pay for one unit, nothing is acceptable and 0 is right. |
| ImpactPrecision.LargestIffUnitPays | src/pricing/uniswap-v2/uniswap-v2.analyzer.ts:30-60 | Both sides: with sizes from s to from safe, and none or fine ends between from and dead, the result is the largest acceptable size exactly when k*(A+g) <= g*b; in either case it is what the documentation says with its exception for a rejected unit. Left out is only k*(A+g) <= g*b < k*(A+g*(s-1)). |
| ImpactPrecision.FinePoolIsExact | src/pricing/uniswap-v2/uniswap-v2.analyzer.ts:30-60 | When one unit and the whole reserve are fine, two inequalities in reserves and fee, the promise is kept for every limit. |
| ImpactPrecision.OrdinaryPoolIsExact | src/pricing/uniswap-v2/uniswap-v2.analyzer.ts:30-60 | The search is exact on an ordinary pool, 1000 against 2000000 of 18 decimals, 30 bps fee, 100 bps limit. |
| ImpactPrecision.OrdinaryPoolIsMissed | src/pricing/uniswap-v2/uniswap-v2.analyzer.ts:40-41 | And not on another, 1000000 against 10000000 at the same fee and limit: it answers 0 while 5000 whole tokens are acceptable. |
| ImpactPrecision.ShallowPoolMissesLittle | src/pricing/uniswap-v2/uniswap-v2.analyzer.ts:46-59 | On 1000 against 3000 at 3500 bps it misses by less than 3 of 5 * 10^20 units. |
| ImpactPrecision.LargestSizeCanBeMissed | src/pricing/uniswap-v2/uniswap-v2.analyzer.ts:30-38 | The promise is not always kept: on reserves 3 and 4 without fee and a limit of 5000 bps the search returns 1 although 3 is acceptable; the rejected size 2 that misled it is not fine. |
| ImpactPrecision.FineIsNotNecessary | src/pricing/uniswap-v2/uniswap-v2.analyzer.ts:30-60 | The converse is false: on reserves 3 and 11 no size is fine and the search is exact for every limit. |
| RouteGraph.BuildGraph | src/pricing/routing/routing.service.ts:123-142 | The construction loop yields the specified graph. |
| RouteGraph.GraphIsEdgesAt | src/pricing/routing/routing.service.ts:126-139 | The edges at a token are those of the pools, in pool order; a token is a key exactly when it has an edge. |
| RouteGraph.EdgesAreHops | src/pricing/routing/routing.service.ts:136-139 | The built graph has an edge exactly where some listed pool makes the hop. |
| RouteGraph.PatchIsRebuildIff | src/pricing/routing/routing.service.ts:105-121 | Patching the graph in place equals rebuilding it exactly when the replacement pool trades the same two tokens (the patch keeps the old other token). |
| RouteSearch.ExploreIsContinues | src/pricing/routing/routing.service.ts:151-170 | From any accumulator the search pushes exactly the continuations by unused pools that stop at their first arrival at the goal. |
| RouteSearch.RoutesAreTrails | src/pricing/routing/routing.service.ts:144-174 | Sound and complete: a route is returned exactly when it is a trail of distinct listed pools from tokenIn whose first arrival at tokenOut is its end and whose length is at most max(1, maxHops). |
| RouteSearch.EachTrailOnceIff | src/pricing/routing/routing.service.ts:148-174 | Every search returns each trail once exactly when the pool list has no repeated pool and no pool between a token and itself. |
| RouteOrder.EdgesInPoolOrder | src/pricing/routing/routing.service.ts:126-139 | The edges at a token stand in the order in which their pools are listed. |
| RouteOrder.RoutesInOrder | src/pricing/routing/routing.service.ts:148-174 | Of two returned routes the first takes, where they part, the pool listed earlier; this order decides ties between equal outputs. |
| Routing.GetOutput | src/pricing/routing/routing.service.ts:45-51 | The loop computes the output hop by hop, or the first error. |
| Routing.GetIntermediateAmounts | src/pricing/routing/routing.service.ts:53-63 | Each running amount is what the next pool pays for the one before; the last one is the output, and it throws when getOutput throws, with the same error. |
| Routing.OutputMonotone | src/pricing/routing/routing.service.ts:45-51 | On a route of live pools a larger input is quoted whenever a smaller one is, and never for less. |
| Routing.ExecutionPaysQuote | src/pricing/routing/routing.service.ts:45-51 | Executing the hops of a route without repeated pools on a mutable pool map throws when the static quote throws and pays what it pays otherwise. |
| Routing.ExecutionLeaves | src/pricing/routing/routing.service.ts:45-63 | After execution every pool of the route has made exactly its own hop of the running amounts, and every other pool is untouched. |
| Routing.RouteExecutes | src/pricing/routing/routing.service.ts:144-174 | For every route the search returns and every input with a trace: execution pays the quote, every touched pool stays live with a product no smaller, the others are unchanged. |
| Routing.BestRouteIsMaximum | src/pricing/routing/routing.service.ts:176-203 | The choice throws exactly when there is no route or some route cannot be quoted; else it is the first route of greatest net output. |
| Routing.NetIsGrossLessGas | src/pricing/routing/routing.service.ts:229-239 | A route of n hops nets its gross output less priceGwei * 10^9 * (base + n * perHop) * ethPrice / 10^18, rounded down, and nothing exactly when that takes it all. |
| Routing.LongerRouteWinsIff | src/pricing/routing/routing.service.ts:187-199 | A longer route beats a shorter one exactly when its gross output exceeds the other by the gas of the further hops, to within one unit of rounding. |
| Routing.RankingHeadIsBest | src/pricing/routing/routing.service.ts:205-227 | However the sort places ties, there is one row per route and the head of the ranking nets what the best route nets. |
| Routing.StableRankingHeadIsBestRoute | src/pricing/routing/routing.service.ts:205-227 | The stable sort of the rows is such a ranking, and its head is the very route findBestRoute chooses. |
| Routing.RouteFinder.constructor | src/pricing/routing/routing.service.ts:94-99 | A new finder holds its pools and their graph. |
| Routing.RouteFinder.UpdatePool | src/pricing/routing/routing.service.ts:110-121 | The nested in-place loops replace the pool and every edge of it, and do nothing for an unknown address. |
| Routing.RouteFinder.FindAllRoutes | src/pricing/routing/routing.service.ts:148-174 | The search returns the specified list, in order. |
| Routing.RouteFinder.Dfs | src/pricing/routing/routing.service.ts:151-170 | One recursive call appends exactly the continuations of its accumulator; it terminates by the hop limit. |
| Routing.RouteFinder.FindBestRoute | src/pricing/routing/routing.service.ts:180-203 | The loop returns the specified best route or throws as specified. |
| Routing.RouteFinder.CompareRoutes | src/pricing/routing/routing.service.ts:205-227 | The rows of all routes, sorted; an error exactly when some route cannot be quoted; the head is the best route. |
| PricingEngine.StepCoherent | src/pricing/engine/engine.service.ts:44-210 | Every load, refresh and Sync event keeps the engine coherent: the patched graph is the rebuilt one, and each of its pools is the one in the map. |
| PricingEngine.RunCoherent | src/pricing/engine/engine.service.ts:44-210 | The same over any run of events with fixed tokens per address. |
| PricingEngine.RoutesAreCurrent | src/pricing/engine/engine.service.ts:44-210 | After any run from the start, the router returns exactly the trails over its pools, and all their pools are current in the map. |
| PricingEngine.SinglePoolQuote | src/pricing/engine/engine.service.ts:178-188 | With a single pool loaded, the engine quote is that pool's own quote, and throws when it does. |
| PricingEngine.AmmQuoteIsGreatest | src/pricing/engine/engine.service.ts:178-188 | The quote is the greatest output over all trails of at most three hops; there is none exactly when there is no trail or one of them cannot be quoted. |
| PricingEngine.PricingEngine.Set | src/pricing/engine/engine.service.ts:49 | Writing the map keeps the insertion order of existing keys. |
| PricingEngine.PricingEngine.LoadPools | src/pricing/engine/engine.service.ts:48-51 | Stores all pairs and builds a router from the whole map. |
| PricingEngine.PricingEngine.RefreshPool | src/pricing/engine/engine.service.ts:57-60 | Stores the pair and patches the router in place. |
| PricingEngine.PricingEngine.RefreshPools | src/pricing/engine/engine.service.ts:200-210 | Does so for every pair in turn. |
| PricingEngine.PricingEngine.OnSync | src/pricing/engine/engine.service.ts:85-102 | One log: replaces the reserves of a known pool, patches the router and counts; a log without reserves or for an unknown pool changes nothing. |
| PricingEngine.PricingEngine.GetAmmQuote | src/pricing/engine/engine.service.ts:178-188 | The net output of the best route at gas price zero, or an error without router or route. |
| PoolHistory.PoolsComeFromEvents | src/pricing/engine/engine.service.ts:44-210 | After every run the engine has a pool at exactly the addresses fetched, and that pool is the one last fetched there with reserve0 and reserve1 of the last log since, in that order. |
| PoolHistory.StepStores | src/pricing/engine/engine.service.ts:48-102 | One event: a fetched pool is stored as last fetched, a log changes exactly the two reserves of its pool, and no other pool moves. |
| PoolHistory.StepRouter | src/pricing/engine/engine.service.ts:48-60 | Loading makes a router of all pools in their order; no other event adds or drops one, so a pool first seen by a refresh is not routed through before the next load. |
| PoolHistory.StepOrder | src/pricing/engine/engine.service.ts:48-60 | Pools are listed in the order in which they were first fetched. |
| PoolHistory.StepCounts | src/pricing/engine/engine.service.ts:85-102 | A log is counted exactly when it has both reserves and its pool is known. |
| OrderBook.WalkTheBook | src/exchange/orderBook/orderBook.analyzer.ts:19-58 | The loop returns the specified walk in all six fields. |
| OrderBook.FillsExactly | src/exchange/orderBook/orderBook.analyzer.ts:27-35 | A walk fills exactly min(quantity, depth), level by level in order. |
| OrderBook.FullyFilledIff | src/exchange/orderBook/orderBook.analyzer.ts:17-55 | fullyFilled exactly when the depth suffices. |
| OrderBook.GreedyIsCheapest | src/exchange/orderBook/orderBook.analyzer.ts:27-35 | No allocation of the same quantity over ascending levels is cheaper than the greedy one. |
| OrderBook.WalkIsOptimal | src/exchange/orderBook/orderBook.analyzer.ts:14-35 | Among all allocations of the quantity it fills, a buy pays least and a sell receives most, before rounding. |
| OrderBook.WalkRoundingLoss | src/exchange/orderBook/orderBook.analyzer.ts:29-35 | The total cost falls short of the exact cost by less than one unit for each fill. |
| OrderBook.AveragePriceBounds | src/exchange/orderBook/orderBook.analyzer.ts:37-38 | The average never exceeds the highest price consumed, and falls short of the lowest only by a stated rounding. |
| OrderBook.SlippageMeasuresLoss | src/exchange/orderBook/orderBook.analyzer.ts:40-48 | Slippage is the loss against the best price in whole basis points, and 0 when there is none. |
| OrderBook.SellAtMostBestBid | src/exchange/orderBook/orderBook.analyzer.ts:37-38 | A sell never averages above the best bid. |
| OrderBook.AveragesDoNotCross | src/exchange/orderBook/orderBook.analyzer.ts:37-38 | When the best prices are further apart than rounding can reach, the sell average does not exceed the buy average. |
| OrderBook.DepthAtBps | src/exchange/orderBook/orderBook.analyzer.ts:60-82 | Stopping at the first level out of range still sums every level in range. |
| OrderBook.BandIsFront | src/exchange/orderBook/orderBook.analyzer.ts:64-81 | The levels counted are exactly those priced within the band of bps around the best price, and they are the first ones. |
| OrderBook.SummaryIsOfFills | src/exchange/orderBook/orderBook.analyzer.ts:37-57 | The average is the cost per unit, rounded down: avgPrice * filled <= totalCost * scale < (avgPrice + 1) * filled; the other fields are those of the fills. |
| OrderBook.FillsTakeLevels | src/exchange/orderBook/orderBook.analyzer.ts:24-35 | Each fill takes what is still wanted, or the level when that is less, at the price of the level, and costs their product rounded down. |
| OrderBook.WalkSlippage | src/exchange/orderBook/orderBook.analyzer.ts:40-48 | The slippage of a walk is what its own average loses against the best price, in whole basis points of it, and 0 when it loses nothing. |
| SignalGenerator.CandidatesSpanRange | src/strategy/signal.generator.ts:220-229 | The sizes start at the minimum, end at the maximum and never turn back, whichever of the two is larger. |
| SignalGenerator.CandidatesAreEven | src/strategy/signal.generator.ts:220-229 | As many sizes as configured, at least two, divide the range evenly, each to within one unit. |
| SignalGenerator.PriceLevelsMean | src/strategy/signal.generator.ts:231-263 | The size is the dollars at the top ask; the CEX prices are the averages of selling and buying it; the DEX prices are what a unit fetches and costs in the pool; all rounded down. |
| SignalGenerator.NoLevelIff | src/strategy/signal.generator.ts:238-244 | There is no price level exactly when one side of the book is too thin for the size. |
| SignalGenerator.FloatDetourIsExact | src/strategy/signal.generator.ts:238-243 | However the quotient and the product are rounded to doubles, the size that reaches the book walk is the size that left, up to 2^50. |
| SignalGenerator.PoolSpreadNonNegative | src/strategy/signal.generator.ts:250-260 | With one pool loaded, dexSellPrice <= dexBuyPrice through all conversions and floors, for any decimals and fee, exactly when the buy received something (or the sell price is 0). |
| SignalGenerator.OnlyOneDirectionPays | src/strategy/signal.generator.ts:82-101 | With one pool loaded and averages that do not cross, at most one direction has a positive spread, for every quote, even a buy that receives nothing. |
| SignalGenerator.UncrossedBookPaysOneWay | src/strategy/signal.generator.ts:241-262 | The same from a condition on the book alone, through the walk, both quotes and all roundings. |
| SignalGenerator.SignalBuysBelowSell | src/strategy/signal.generator.ts:92-142 | For every threshold a signal meets the profit threshold and takes the wider spread; it buys below where it sells when the spread threshold is positive, and not above when it is zero and the price positive. |
| SignalGenerator.SignalMadeIff | src/strategy/signal.generator.ts:82-142 | A signal is made exactly when the wider of the two spreads meets the spread threshold and its gross profit less the fee the profit threshold. |
| SignalGenerator.SignalAnnounces | src/strategy/signal.generator.ts:120-171 | A signal announces the size and pair it was made for, the gross profit and fee of its prices on that size, rounded, and is within limits exactly when its value is. |
| SignalGenerator.FeeIsRateAndGas | src/strategy/fee.calculator.ts:27-31 | The fee is the combined rate on the value, rounded down, and the gas. |
| SignalGenerator.EstimateNeverOverstates | src/strategy/signal.generator.ts:265-275 | At prices at which one direction pays, the estimate that ranks sizes promises no more than the signal then made at the same fees exactly when rounding leaves a gross profit or the fees are at most 1; with a gross profit the two agree when the CEX side buys. |
| SignalGenerator.BetterIsBest | src/strategy/signal.generator.ts:286-294 | One round of the sweep keeps the first greatest estimate. |
| SignalGenerator.FindBestPrices | src/strategy/signal.generator.ts:277-297 | The sweep throws exactly when pricing some candidate throws, and else returns the prices at the first size of greatest estimate, which no other candidate of these tokens and this book exceeds. |
| RollingWindow.SpacedIffWindowsBounded | src/executor/recovery/recovery.service.ts:73-76 | Every window of length w holds at most n timestamps exactly when any n + 1 consecutive ones span at least w. |
| Recovery.CircuitBreaker.RecordFailure | src/executor/recovery/recovery.service.ts:32-39 | Adds the failure, prunes the window and trips at the threshold. |
| Recovery.CircuitBreaker.PruneWindow | src/executor/recovery/recovery.service.ts:73-76 | Keeps exactly the failures later than the cutoff. |
| Recovery.CircuitBreaker.IsOpen | src/executor/recovery/recovery.service.ts:48-55 | Answers whether the breaker is tripped, after resetting itself once the cooldown has passed. |
| Recovery.CircuitBreaker.TimeUntilResetMs | src/executor/recovery/recovery.service.ts:57-61 | 0 when the breaker would answer closed now; else exactly the number of milliseconds up to which it still answers open. |
| Recovery.ResetTimeIsExact | src/executor/recovery/recovery.service.ts:48-61 | The announced time is exact to the millisecond: an open breaker is still open after it, and not after one more. |
| Recovery.RecordFailureKeeps | src/executor/recovery/recovery.service.ts:32-39 | A failure recorded while closed keeps what the breaker knows of the whole history. |
| Recovery.TripsIff | src/executor/recovery/recovery.service.ts:32-39 | A closed breaker trips exactly when the window that ends with the new failure holds the threshold, counted over the whole history since its last reset. |
| Recovery.RunKeepsBreakerInv | src/executor/recovery/recovery.service.ts:32-76 | After every sequential run under a monotone clock the breaker knows all trips, whatever the configuration, and all failures that count, when the cooldown covers the window. |
| Recovery.FailuresPerWindowBounded | src/executor/recovery/recovery.service.ts:10-13 | When the cooldown covers the window, no window, wherever it ends, holds more failed executions than the threshold (at least one). |
| Recovery.NoLegNearTrip | src/executor/engine/engine.service.ts:91-93 | For every configuration, no execution runs within the cooldown of any earlier trip. |
| Recovery.WindowBoundIff | src/executor/recovery/recovery.service.ts:48-72 | The window bound holds on every sequential run exactly when the cooldown covers the window. |
| Recovery.FreshSignalIsOld | src/executor/recovery/recovery.service.ts:93-108 | A signal that is not a duplicate was last completed at least the time to live ago. |
| Recovery.ReplayProtection.IsDuplicate | src/executor/recovery/recovery.service.ts:93-96 | True exactly for a signal executed within the time to live. |
| Recovery.ReplayProtection.MarkExecuted | src/executor/recovery/recovery.service.ts:99-101 | Remembers the time of the execution. |
| Recovery.ReplayProtection.CleanupAt | src/executor/recovery/recovery.service.ts:103-108 | The deleting loop forgets exactly the expired signals. |
| Risk.RiskManager.CheckPreTrade | src/safety/risk.service.ts:22-78 | The seven gates in order; only the last touches the state. |
| Risk.RiskManager.RecordTrade | src/safety/risk.service.ts:80-93 | The new ledger after a trade. |
| Risk.RiskManager.ResetDaily | src/safety/risk.service.ts:95-98 | Clears the daily profit and the loss streak, nothing else. |
| Risk.RiskManager.PruneTradeWindow | src/safety/risk.service.ts:129-136 | The splice drops exactly the leading timestamps that are an hour old. |
| Risk.AllowedIsCleared | src/safety/risk.service.ts:47-70 | An allowed check means room under every loss limit and a trade within the size limits. |
| Risk.RecordKeepsBounds | src/safety/risk.service.ts:80-93 | A trade made with such room, losing at most L, keeps every bound. |
| Risk.ResetKeeps | src/safety/risk.service.ts:95-98 | The daily reset keeps every bound wherever it falls. |
| Risk.SeededIsFresh | src/safety/risk.service.ts:100-104 | Seeding a positive capital keeps every bound and leaves no drawdown: the next trade then depends on the daily loss and the streak alone, exactly. |
| Risk.AllowedLeavesRoom | src/safety/risk.service.ts:72-77 | An allowed check means that the trade maxTradesPerHour places back is an hour old, although old timestamps were forgotten. |
| RiskLaws.VerdictIff | src/safety/risk.service.ts:22-78 | The gate names the first limit in its order that is reached, and allows exactly when none is: value, share of capital, expected loss, daily loss, drawdown, streak, and trades in the last hour of the whole history. |
| RiskLaws.LedgerIs | src/safety/risk.service.ts:80-104 | After any calls the daily profit is the sum since the last reset, the streak the losses that end it, and capital and peak are the balance and its maximum since the capital was set. |
| ArbBot.NextExclusive | src/integration/arbBot/arb_bot.service.ts:354-380 | Every step of every interleaving keeps at most one tick past the gate, with the tick state telling whether there is one. |
| ArbBot.AtMostOneTick | src/integration/arbBot/arb_bot.service.ts:354-380 | So at most one tick is in flight after any run. |
| ArbBot.TradesPerHourBounded | src/integration/arbBot/arb_bot.service.ts:459-617 | Under every interleaving, no hour, wherever it ends, holds more recorded trades than maxTradesPerHour, although the check and the recording are separated by awaits. |
| ArbBot.ReplaysAreSeparated | src/integration/arbBot/arb_bot.service.ts:519-542 | Two completed executions of one signal are at least the replay time to live apart. |
| ArbBot.BreakerGuardsRuns | src/integration/arbBot/arb_bot.service.ts:525-542 | No leg starts within the cooldown of any earlier trip, for every configuration; when the cooldown covers the window, no window holds more failures than tolerated. |
| ArbBot.LossLimitsHold | src/integration/arbBot/arb_bot.service.ts:459-655 | When no booked execution loses more than L: peak >= current, dailyPnl > -(maxDailyLoss + L), drawdown below its limit plus L, and the loss streak within its limit, with daily resets at any time. |
| ArbBot.RunInvariants | src/integration/arbBot/arb_bot.service.ts:354-655 | All protocol invariants hold after every run from the start state. |
| BotLaws.EntersIff | src/integration/arbBot/arb_bot.service.ts:354-357 | An update enters exactly an idle bot through open gates; otherwise no tick changes, and in no case is anything booked or started. |
| BotLaws.StatusKeepsLastHour | src/integration/arbBot/arb_bot.service.ts:383-399 | Open gates read the status, which keeps exactly the trades of the last hour; a kill switch leaves everything as it is. |
| BotLaws.SignalMovesIff | src/integration/arbBot/arb_bot.service.ts:358-365 | A signal moves on exactly when it passes the safety check with no risk limit reached: to the fresh price, or in a dry run to its booking; otherwise the tick ends. |
| BotLaws.LegsStartIff | src/integration/arbBot/arb_bot.service.ts:514-542 | The legs start exactly on a fresh signal that still meets the minimum profit while breaker, replay memory, expiry and both balances license it; otherwise nothing starts or is booked. |
| BotLaws.LegsEnd | src/executor/engine/engine.service.ts:127-136 | A completed execution is booked with both fills, any other one is counted by the breaker and moves no balance, and both are remembered for replay; one that throws leaves no trace. |
| BotLaws.ReadingAndReset | src/integration/arbBot/arb_bot.service.ts:649-650 | A new day clears the daily profit and the streak, balances that are read replace those of their venue, and neither touches anything else. |
| BotLaws.NoLegUncleared | src/integration/arbBot/arb_bot.service.ts:354-542 | Over every run, behind running legs lie in order, in the same tick: an entry through open gates, a signal that risk manager and safety check let pass, and a fresh signal that still paid and was licensed. |
| BotLaws.EveryOutcomeCounted | src/executor/engine/engine.service.ts:123-136 | Over every run each execution that returned was either booked or counted as failed, never both; the breaker tripped no more often than executions failed. |
| BotLaws.EndsIdle | src/integration/arbBot/arb_bot.service.ts:366-379 | After every run the tick in flight leaves the bot idle when it has read the balances, and whenever it throws. |
| BotLedger.NextStepBooks | src/integration/arbBot/arb_bot.service.ts:491-556 | Every step books at most one trade, which the risk manager and the ledger of both venues record alike; otherwise balances change only when they are read from outside. |
| BotLedger.BooksAgree | src/integration/arbBot/arb_bot.service.ts:491-617 | Over every run under every interleaving: capital is the seed plus the profit of every booked trade, one for each recorded one, an execution at the profit calculatePnl gives for its legs; and each asset total over both venues is what it was plus what the booked fills moved plus what readings of the balances changed. |
| BotLedger.BookedIsCompleted | src/integration/arbBot/arb_bot.service.ts:542-548 | The booked executions of a run are exactly those its steps completed, each with the fills the replies of that step give for the signal whose legs were awaited, once and in order. |
| BotLedger.BaseConservedOverRuns | src/integration/arbBot/arb_bot.service.ts:542-550 | So trading conserves the total of every asset that is no quote, over every run. |
| BotLedger.QuoteTracksProfit | src/integration/arbBot/arb_bot.service.ts:542-550 | On one pair the quote over both venues grows by the gross profits less the booked fees, to within one unit for each execution. |
| ProfitBounds.PerfectFillsBookExpected | src/executor/engine/engine.service.ts:582-599 | A generated signal filled whole at its own prices books exactly the net profit it announced. |
| ProfitBounds.GoodFillsBookExpected | src/executor/engine/engine.service.ts:582-599 | Filled whole at prices no worse, it books at least that, hence at least the profit threshold of the generator. |
| ProfitBounds.LossIsBounded | src/executor/engine/engine.service.ts:582-599 | Whatever part is filled, at prices no worse than two given ones, an execution loses at most the loss of the whole size at those prices plus its fees. |
| ProfitBounds.LossLimitsFromPrices | src/integration/arbBot/arb_bot.service.ts:459-655 | The loss limits hold over every run with a loss per trade that follows from the limit price of the orders sent and a floor price for the swaps. |
| Inventory.TradeMovesHolding | src/inventory/tracker/tracker.service.ts:112-137 | A trade changes the holding of each asset by exactly its signed amounts, even when base, quote and fee asset coincide. |
| Inventory.TradeMovesFree | src/inventory/tracker/tracker.service.ts:112-137 | And the free balance by the same amounts; locked balances stay. |
| Inventory.CoveredIff | src/inventory/tracker/tracker.service.ts:74-103 | canExecute for legs on different balances holds exactly when taking both amounts overdraws neither; for legs on the same balance it checks them one by one, while they overdraw exactly when their sum does. |
| Inventory.InventoryTracker.UpdateFromCex | src/inventory/tracker/tracker.service.ts:29-35 | Replaces one venue's snapshot; an unregistered venue is an error and changes nothing. |
| Inventory.InventoryTracker.UpdateFromWallet | src/inventory/tracker/tracker.service.ts:42-49 | Replaces one venue's balances, dropping zeros, all free; the other venues are unchanged. |
| Inventory.InventoryTracker.RecordTrade | src/inventory/tracker/tracker.service.ts:117-137 | Applies the trade at its venue only. |
| Inventory.InventoryTracker.SnapshotTotals | src/inventory/tracker/tracker.service.ts:52-67 | The nested loops total every asset held anywhere, free and locked, and nothing else. |
| ExchangeRules.RoundQuantityIsGreatest | src/exchange/cexClient/exchange.utils.ts:3-7 | The rounded quantity is the greatest multiple of the step not above it. |
| ExchangeRules.RoundPriceIsNearest | src/exchange/cexClient/exchange.utils.ts:9-13 | The rounded price is a multiple of the tick, off by at most half a tick. |
| ExchangeRules.MinNotionalIff | src/exchange/cexClient/exchange.utils.ts:15-21 | The filter is met exactly when quantity times price reaches the minimum at full scale. |
| Executor.Executor.Execute | src/executor/engine/engine.service.ts:88-137 | Every run that returns ends DONE or FAILED; the orders sent, the context, the inventory, the breaker and the replay memory afterwards are determined by the gates and the replies; inventory moves only on DONE, and an order is sent only when every gate licenses the signal. |
| Executor.Executor.PassGates | src/executor/engine/engine.service.ts:91-121 | Breaker, replay check, validity and inventory in order: passes exactly when all do, and leaves breaker and replay memory asked and cleaned up as far as the order got. |
| Executor.Executor.ExecuteCexFirst | src/executor/engine/engine.service.ts:139-198 | The same for the two legs: DONE exactly when both fill. |
| Executor.Executor.SecondLeg | src/executor/engine/engine.service.ts:162-197 | A failed or late second leg unwinds once, swallows what the unwind throws and leaves the ledger alone; a filled one books both trades. |
| Executor.Executor.Unwind | src/executor/engine/engine.service.ts:429-459 | Sends back one market order for the first leg's fill rounded to whole lots, or nothing when that is nothing; throws exactly when such an order is refused. |
| Executor.Executor.RecordTrades | src/executor/engine/engine.service.ts:522-556 | Books the CEX leg at the exchange and the opposite leg at the wallet. |
| Executor.OrderRespectsRules | src/executor/engine/engine.service.ts:261-295 | An order that is sent meets lot, tick and minimum notional, never exceeds the signal, and prices at or beyond the signal price up to half a tick. |
| Executor.FundedIff | src/executor/engine/engine.service.ts:108-121 | The balances suffice exactly when booking both trades for the whole size at the signal price, fees aside, overdraws neither the quote nor the base at the venue where each is booked. |
| Executor.PassesIff | src/executor/engine/engine.service.ts:91-121 | All gates pass exactly when the breaker has not tripped or has cooled down, the signal was not executed within the time to live, has not expired and passed its own checks, and both trades are affordable. |
| Executor.LedgerConserved | src/executor/engine/engine.service.ts:522-556 | A completed execution conserves the base asset over both venues and every other asset, and changes the quote asset by sold less bought less both fees. |
| Executor.QuoteGainIsGrossPnl | src/executor/engine/engine.service.ts:582-591 | The quote gained before fees is the gross term of calculatePnl to within one unit. |
| Executor.UnwindLeavesLessThanALot | src/executor/engine/engine.service.ts:443-452 | An unwind sends nothing in a simulation or for less than a lot, else one market order on the other side for all whole lots of the fill. |
| Executor.FailedFillIsUnwoundIff | src/integration/arbBot/arb_bot.service.ts:605-609 | The position a failed execution leaves, fills less fills back, is below one lot exactly when the fill met the threshold and the exchange filled the unwind order; below the threshold or with the unwind refused the whole fill stands. |
| Executor.PartialFillStands | src/executor/engine/engine.service.ts:152-156 | The concrete case of a partial fill: 70% under a threshold of 80%, nothing sent back. |
| Executor.RefusedUnwindStands | src/executor/engine/engine.service.ts:170-190 | The concrete case of a refused unwind: 80% of an order above the minimum notional is below it, the unwind does not look, and the whole fill stands. |
| Executor.RecordAgreesWithPnl | src/integration/arbBot/arb_bot.utils.ts:53-92 | The record of a completed execution has the gross profit calculatePnl computes and deducts nothing from it; its legs have the fills, and its buy leg names the venue where the ledger booked the buy. |
| ExecutorLaws.LimitPriceIsBuffered | src/executor/engine/engine.service.ts:261-268 | The limit price gives way by a tenth of a percent, rounded down, then to the nearest tick: up for a buy, down for a sale. |
| ExecutorLaws.OrderableIff | src/executor/engine/engine.service.ts:256-290 | An order is sent exactly when the leg is not simulated, at least one lot is left of the size, and what is left is worth the minimum. |
| ExecutorLaws.CourseIs | src/executor/engine/engine.service.ts:139-197 | How an execution ends, from order and replies: a first leg that fills nothing, a fill below the threshold, a swap that fails, or both fills. |
| ExecutorLaws.SimulationIs | src/executor/engine/engine.service.ts:255-311 | A simulation in time fills the whole size at the two simulated prices and sends nothing. |
| ExecutorLaws.LegIsBooked | src/executor/engine/engine.service.ts:522-556 | Each leg is booked at its size, value and half fee, rounded down, the exchange leg on the side of the signal there and the chain leg on the other. |
| ExecutorLaws.PnlIs | src/executor/engine/engine.service.ts:582-599 | The profit is the price difference on the fill less the share of the expected fees that the fill bears, each rounded toward zero. |
| Rebalancer.EndsIff | src/inventory/rebalancer/rebalancer.service.ts:85-119 | The planning loop ends exactly when no sender with nothing to spare, unprotected by a minimum withdrawal, gets its turn while a deficit remains. |
| Rebalancer.LockedSurplusLoops | src/inventory/rebalancer/rebalancer.service.ts:98-118 | A concrete case that never ends: no fee entry and all of the surplus locked. |
| Rebalancer.MinimumPreventsDivergence | src/inventory/rebalancer/rebalancer.service.ts:92-108 | A fee entry with a positive minimum withdrawal makes the loop end. |
| Rebalancer.MatchVenues | src/inventory/rebalancer/rebalancer.service.ts:81-121 | The two-index loop over entries reduced in place returns the specified plans and terminates. |
| Rebalancer.MatchIsSafe | src/inventory/rebalancer/rebalancer.service.ts:53-121 | Every plan meets the minimum and by itself leaves the operating balance; no sender gives more than its excess, no receiver gets more than its need. |
| Rebalancer.FewPlans | src/inventory/rebalancer/rebalancer.service.ts:49-121 | Without trimming there are at most senders + receivers - 1 plans. |
| Rebalancer.MatchIsComplete | src/inventory/rebalancer/rebalancer.service.ts:49-51 | Without trimming and without a minimum the plans move all that can be moved. |
| Rebalancer.SentExactly | src/inventory/rebalancer/rebalancer.service.ts:85-119 | Without a minimum each sender with anything to spare gives, over all plans, exactly its excess capped by the need still open at its turn: trimming only cuts it into more transfers. |
| Rebalancer.FloorKeptWithoutMinimumIff | src/inventory/rebalancer/rebalancer.service.ts:55-108 | So the plans together keep a sender's operating balance exactly when it is not asked for more than it can spare. |
| Rebalancer.FloorKeptIff | src/inventory/rebalancer/rebalancer.service.ts:55-108 | The same with any minimum withdrawal, for one sender and one receiver. |
| Rebalancer.FloorCanBeBroken | src/inventory/rebalancer/rebalancer.service.ts:98-103 | A concrete case in which the plans together break the operating balance, since the balance is read again undiminished. |
| Rebalancer.PlanAsset | src/inventory/rebalancer/rebalancer.service.ts:57-121 | The whole of plan for one asset, from the balances of the tracker and the target fractions: nothing under the threshold, else the plans of the sorted surpluses and deficits over the rounded targets. |
| Rebalancer.TriggerIff | src/inventory/rebalancer/rebalancer.service.ts:57-59 | Planning is triggered exactly when the share of some venue differs from an even split by the threshold: n * amount and total differ by at least threshold percent of n * total. |
| Rebalancer.PlansAreMadeIff | src/inventory/rebalancer/rebalancer.service.ts:57-121 | Plans are made exactly when some venue is skewed so, a venue is below its target, and a sender can give the neediest one something the rules allow. |
| Rebalancer.PlansNameEntries | src/inventory/rebalancer/rebalancer.service.ts:110-112 | Every plan goes from a sender to a receiver and names the withdrawal fee. |
| Rebalancer.SortIsDescending | src/inventory/rebalancer/rebalancer.service.ts:77-79 | Both lists are only reordered, the largest amount first. |
| Rebalancer.SendersAndReceivers | src/inventory/rebalancer/rebalancer.service.ts:69-75 | Each venue above its target is a sender by the difference, each below it a receiver. |
| Rebalancer.HoldingsAre | src/inventory/rebalancer/rebalancer.service.ts:65-72 | What is planned on is all that a venue holds, free and locked, and its fraction of the total to the nearest unit. |
| Rebalancer.NoVenueCrossesTarget | src/inventory/rebalancer/rebalancer.service.ts:64-121 | Carrying out all plans moves no venue across its target, and no venue both sends and receives. |
| KeyOrder.PrintedFacts | src/core/serializer.service.ts:34-44 | Every key but "__proto__" is printed once: index keys by value, then the others by code units. |
| KeyOrder.PrintedCanonical | src/core/serializer.service.ts:34-44 | The printed order depends only on which keys there are. |
| KeyOrder.AlphabeticalIff | src/core/serializer.service.ts:7-8 | The documented alphabetical order is met exactly when every key alphabetically before an index key is an index key of smaller value. |
| KeyOrder.IndexKeysAreNotAlphabetical | src/core/serializer.service.ts:35-43 | The concrete failure: "9" is printed before "10". |
| Serializer.ReadsBack | src/core/serializer.service.ts:47-49 | A reader of the JSON grammar returns the printed tree itself and leaves what follows it. |
| Serializer.PrintReadable | src/core/serializer.service.ts:47-49 | So printing is injective and self-delimiting: the tokens determine the tree and where it ends. |
| Serializer.CanonIff | src/core/serializer.service.ts:15-47 | Two trees have one canonical tree exactly when they are equal up to key order and string normalization at every depth. |
| Serializer.SerializeIff | src/core/serializer.service.ts:4-50 | Such trees serialize to the same tokens or fail with the same error; trees that serialize alike are such trees. |
| Serializer.SerializeIs | src/core/serializer.service.ts:14-50 | Serializing returns tokens that read back as the canonical tree and hold no bad number, or the error of the first bad number in printed order. |
| Serializer.FailsIff | src/core/serializer.service.ts:15-32 | Serializing fails exactly when some number that is printed is not a safe integer. |
| Serializer.CanonIdempotent | src/core/serializer.service.ts:15-47 | Canonicalizing twice changes nothing, given that normalizing twice does not. |
| Serializer.SameThrows | src/core/serializer.service.ts:16-26 | Whether the floating-point or range check throws does not depend on key order. |
| Serializer.ProtoIsLost | src/core/serializer.service.ts:38-41 | A member under "__proto__" leaves no trace in the output. |

## Left out

- ImpactAnalyzer.LargerSizesNearlyRejected: one direction only; it bounds how far a larger size can stay below the limit, and does not say for which pools the bound is attained.
- ImpactPrecision.LargestIffUnitPays: leaves open pools whose curve pays k whole units for one unit but no longer for s - 1, where s is the first safe size, and does not decide the few sizes that BetweenSafeAndDead describes when they are not fine (MissIsBounded counts them): there the answer depends, size by size, on whether an integer lies between two fractions (AcceptableIffInteger). Likewise undecided is a rejected unit on a pool that has neither a safe size nor a dead first unit.
- Rebalancer.FloorKeptIff: with a positive minimum withdrawal the exact condition is given for one sender and one receiver, because with several it depends on how the deficits happen to split each transfer; without a minimum it is given for all (FloorKeptWithoutMinimumIff).
- Rebalancer.PlansAreMadeIff: for a positive threshold, as the profile has; at 0 planning is always triggered.
- Rebalancer.MatchVenues: requires that the loop ends, because otherwise the program never returns; EndsIff says exactly when that is.
- Rebalancer.PlanAsset: rounded targets and skew are computed in exact reals instead of floats, and ties are ordered as an insertion sort does; every venue is taken to have a target fraction.
- Routing.RankingHeadIsBest: the comparator of compareRoutes is inconsistent on ties, so the order of ties is left open here and is that of a stable sort in CompareRoutes; the gas parameters a Route carries are those of its finder and are kept once.
- Routing.LongerRouteWinsIff: for routes that net something; NetIsGrossLessGas gives the net output in every case, with gas parameters that are not negative.
- ExecutorLaws.OrderableIff: sizes, prices and trading rules are taken to be not negative, as are the prices in SimulationIs and LegIsBooked.
- SignalGenerator.SignalAnnounces: for a positive spread threshold; SignalMadeIff holds for any.
- Executor.Executor.Execute: requires that both venues are registered, as the bot configures them, and covers the CEX-first path; the DEX-first path through Flashbots and its unwind are not configured by the bot and are not modelled. What the exchange fills of an order that timed out is not known to it.
- Serializer.CanonIdempotent: takes Unicode NFC as a function parameter that is assumed idempotent.
- Serializer.SerializeIff: compares token sequences; quoting, digits, UTF-8 encoding, hashing and verify_determinism are not modelled, nor are undefined, bigint and toJSON values.
- SignalGenerator.PoolSpreadNonNegative: the size passes to the book walk through exact reals; FloatDetourIsExact shows that doubles carry it exactly up to 2^50, beyond which the model does not say what the walk is asked for.
- SignalGenerator.SignalBuysBelowSell: spreads in basis points are exact reals where the program divides floats.
- SignalGenerator.EstimateNeverOverstates: is about prices at which one direction pays, which UncrossedBookPaysOneWay gives; elsewhere the estimate takes the better gross profit of the two and the signal the wider spread.
- SignalGenerator.UncrossedBookPaysOneWay: a sufficient condition on the book, and one pool; with several pools the two quotes may take different routes.
- Risk.RiskManager.CheckPreTrade: fractions of capital are exact reals where the program multiplies floats.
- ProfitBounds.LossLimitsFromPrices: takes the floor price of the swap as given, since the program bounds the swap against a fresh quote and not against the signal.
- ArbBot.LossLimitsHold: is about limits that allow trading at all and a bound L on the loss of a booked execution; ProfitBounds.LossLimitsFromPrices derives L from prices. In a dry run, which books expected profits, L must not be below maxLossPerTrade.
- OrderBook.WalkTheBook: takes the quantity as an exact real where the program has a float.
- The real DEX leg (quote simulation, slippage floor, transaction, log decoding) is a reply that fails, times out or fills what was asked at some price.
- Late fills after a timeout: the executor abandons the order, and what the exchange then does is not part of the model.
- The absolute safety ceiling, the pre-trade validator, the scorer, the profit buffer, the kill switches and the signal cooldown are yes-or-no inputs of a tick: single comparisons without state worth a law.
- Two clock readings within one section that only prune an already pruned window are taken as one.
- ArbBot.RunInvariants: the executor's replay check, validity check and inventory check are one clock reading, since no other section runs between them; the bot's halt on a balance mismatch is not modelled, only that balances can be read at any time.
- RPC, exchange and WebSocket clients, wallet, ABI coding, Telegram, logging, scripts and configuration: input and output.
- generateImpactTable, estimateTrueCost, imbalance, effectiveSpread, planAll, checkAll, estimateCost, the profit summary and the fee calculator beyond totalFee: easy members over what is modelled.
- The exchange rate limiter: it re-checks nothing after sleeping, so it keeps no clean bound.
