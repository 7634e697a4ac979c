# Verified model of the arbitrage engine

This project models the engine that looks for cyclic arbitrage over decentralised exchanges and proves what it
relies on. Each part keeps the form of the program: loops are loops over the same variables, objects that are updated in
place are classes, and the 256-bit arithmetic wraps, truncates and changes sign where the program's does. Each
method is proved against a definition that says what it should compute, and the lemmas say what that definition means.

- **Swap mathematics.** `ConstantProduct`, `StableSwap` with `StableLimits`, `LogExpMath`, `WeightedPool`, and, for
  concentrated liquidity, `TickBitmap` and `ConcentratedLiquidity`. `U256`, `Arithmetic` and `Bits` hold words and the facts about
  products, floors and bits that the proofs lean on.
- **Search.** `CycleSearch` is the backtracking search over hops, `ArbGraph` the token graph it runs on, `FoundPaths`
  the step from found cycles to paths that the contracts can run.
- **Calculation and caching.** `Calculators` has the cache and the path calculator, `CacheAliasing` what its key leaves
  out, `Searcher` the inverted index and the search that a message sets off, `SearchProtocol` the interleaving of
  updater and searcher, `PoolKinds` the calculator over all kinds of pools.
- **State.** `PoolEncoding` packs pool state into words, `StateDb` is the account overlay with its readers and
  writers, `MarketState` replays blocks into it.
- **On chain.** `Ledger` has token balances and pairs, `FlashContracts` the two contracts, `TokenLedger` what a run
  does to everybody's balances, `PathAgreement` why the calculator and the contracts agree.

## Main results

1. The V3 loop computes the reference walk over the whole tick table: its running liquidity is the prefix sum at every
   loop head, it terminates, and what it takes in, keeps as fees and leaves over adds up (`UniswapV3Out`, `Turn`,
   `WalkCompletes`).
2. The three bitmap words it loads always suffice, whatever the sign of the tick (`ThreeWordsSuffice`).
3. A run of the stable solver that does not wrap answers with zero or with a least root within the reserve, for all
   balances up to 2^93 and all decimals (`RunAnswers`); from 0.00249 token on no run wraps (`GuardedRunStays`).
4. Where that ends: a step wraps just below the floor balance, beyond the limit the answer can exceed the reserve, and
   over tokens of 6, 8 or 18 decimals answers always meet the target if and only if both have 18 (`StepCanUnderflow`,
   `AnswerCanExceedReserve`, `UnitsDecide`). Whatever the decimals, they do with one token, or one and a half and more, on
   the input side (`AmpleRunMeets`, `FailureIsConfined`).
5. Exponential, logarithm and power stay in range, with the exact decomposition and the right side of one
   (`DecompositionIsExact`, `Exp`, `Ln`, `Pow`).
6. The weighted pool never overpays, and for ratios 1, 2 and 4 its weighted product does not drop (`BalancerV2Out`).
7. A V2 output is the largest that keeps the product, and a calculated profit needs spot prices whose product exceeds
   one (`OutputIsLargest`, `ProfitNeedsSpotPrices`).
8. The cycle search finds each wanted cycle exactly once, nothing else, and restores its state
   (`FindsEachCycleOnce`, `ConstructCycles`); over the graph that is built these are the token cycles, and no path visits
   a pool twice (`PathsAreTokenCyclesOnce`, `PoolsAreDistinct`).
9. In every interleaving of updater and searcher a cache entry is right or about to be invalidated; with nothing in
   flight the cached output is the uncached one, over pools of all kinds but a stable pool without slope
   (`RunsStayCoherent`, `QuietMeansFreshForPools`, `ZeroYieldsZeroIff`).
10. Which runs the missing token in the cache key spoils, exactly, with pools changing in between, and a profit that it
    hides (`EventsFreshIff`, `V2RunFreshIff`, `CacheHidesProfit`).
11. No changed cycle goes unannounced, and what is sent is genuine (`ChangedCyclesAreAnnounced`, `SearchPaths`).
12. Blocks are replayed in order, contiguously exactly when the stream takes over without a jump (`StateUpdater`,
    `ProcessedContiguous`).
13. Inserted pools are read back, each field with its exact condition (`InsertV2`, `InsertV3`, `Slot0RoundTrip`).
14. The contracts recover each step from the pools alone and compute the calculator's amounts
    (`CompressionIsLossless`, `EvaluatorsAgree`); the flash loan then pays at least the margin, to the last wei of
    everybody's balances (`ArbitrageSettles`, `SentPathPays`).

## Reading the model

- A `Word` is a number below 2^256; `Add`, `Sub` and `Mul` wrap. Multiplication and division of words are defined digit by digit
  (`Times`, `LongDivision`) and proved equal to the product and the floor, so that proofs use only what they ask for. Signed operators (`SAdd`, `SMul`, ...) require that
  the result fits, so that using one proves the absence of overflow.
- Panics and reverts are `None` or `Err`. On chain a revert restores the state that the outermost call found.
- The `uniswap_v3_math` crate is a record of four functions with the contracts it documents
  (`ConcentratedLiquidity.Contracts`); `ContractsAreSatisfiable` shows that they are consistent. The tick search is not
  assumed but defined, in `TickBitmap`.
- `get_fee`, `get_decimals` and `get_stable` are constants of a pool, the powers of ten already taken. The estimator is an arbitrary function.
  `Cache::set`, which the calculator calls, is not in `src/cache.rs`; it inserts the entry for the pool and amount.
- Hash maps are iterated in any order. Keccak is any hash that has no collisions on the keys pools use and misses
  the fixed slots (`Spreads`); `SpreadingHashExists` shows that there is one.
- The program searches cycles of at most two hops (`src/graph.rs:23`); the model proves every bound.

Where the code does not keep what one would expect, the model keeps the code:

- The cache key has no token (`src/cache.rs:23-27`): two directions through one pool with one amount share an entry.
  `EventsFreshIff` and `V2RunFreshIff` say exactly which runs that spoils, and `CacheHidesProfit` is a pair of cycles where
  it hides a profit.
- A stable pool whose slope at its reserves is zero, such as one with an empty input side, quotes its whole reserve for
  nothing (`src/calculation/aerodrome.rs:101-103`), so that the calculator's early exit for a zero output is not what the
  uncached calculation does. `ZeroYieldsZeroIff` says that there is no other such pool.
- `balancer_v2_out` scales the input up a second time instead of back (`src/calculation/balancer.rs:28`). `ScaledTwice`
  says exactly when that is harmless.
- In the stable solver, with fewer than 18 decimals, the upward exit compares amounts that are scaled twice
  (`src/calculation/aerodrome.rs:111`), and the answer can be below the target: pools with reserves of 0.121856 and
  6.172178 tokens and an input of 0.024718, for each pair of decimals (`FewerDecimalsUndershoot`). With 18 or more it
  cannot (`EighteenMeets`), nor with at least one and a half tokens on the input side (`FailureIsConfined`).
- With less than 0.00249 token on the input side a Newton step can pass zero and wrap: `StepCanUnderflow` has 0.00247
  token. Nothing there says that the answer is wrong: it is right whenever no step of the run has wrapped
  (`RunAnswers`).
- With 1.4e11 and 2.5e8 tokens in the pool the curve itself wraps, the answer exceeds the reserve, and the subtraction at
  line 61 underflows (`AnswerCanExceedReserve`).
- Reserves round-trip exactly when they have 112 bits, a tick exactly when it has 24 (`ReservesRoundTrip`,
  `Slot0RoundTrip`).
- Replayed blocks are contiguous exactly when the stream takes over without a jump (`ProcessedContiguous`).

## Model

| member | source | states |
|---|---|---|
| `TickBitmap.PositionIsEuclidean` | src/calculation/uniswap.rs:33-35 | for every compressed tick, the shift, signed remainder and casts give Euclidean word and bit positions |
| `TickBitmap.NextTickDown` | src/calculation/uniswap.rs:126-133 | the search downward names a tick at or below, skips no initialized tick, and its flag is true exactly for initialized ticks |
| `TickBitmap.NextTickUp` | src/calculation/uniswap.rs:126-133 | the search upward names a tick strictly above, skips none, and its flag is truthful |
| `TickBitmap.ThreeWordsSuffice` | src/calculation/uniswap.rs:119-124 | despite the truncating division, searching the three loaded words is searching the whole bitmap, for every tick and spacing |
| `ConcentratedLiquidity.ContractsAreSatisfiable` | src/calculation/uniswap.rs:126-164 | the contracts assumed of the crate's four functions have a model |
| `ConcentratedLiquidity.SegmentMoves` | src/calculation/uniswap.rs:143-200 | one step keeps tick and price consistent, neither turns back nor passes the limit, moves the tick strictly when it reaches the boundary and otherwise stays where the prefix sum is the same, and falls short of the boundary only when input or limit is exhausted |
| `ConcentratedLiquidity.SegmentAdvances` | src/calculation/uniswap.rs:109-201 | every segment conserves input plus fees plus remainder, does not turn back, and unless done moves the tick strictly inside its range |
| `ConcentratedLiquidity.WalkCompletes` | src/calculation/uniswap.rs:109-203 | a successful swap ends with nothing remaining or at the limit; input taken, fees and remainder add up; the price is monotone and never passes the limit |
| `ConcentratedLiquidity.LiquidityChecksNeverFail` | src/calculation/uniswap.rs:183-189 | if every prefix sum fits 128 bits, as on chain, the checked additions never fail |
| `ConcentratedLiquidity.SwapStep` | src/calculation/uniswap.rs:112-200 | one pass of the body computes the reference segment, which recomputes liquidity from the whole tick table |
| `ConcentratedLiquidity.Turn` | src/calculation/uniswap.rs:109-201 | at every loop head the liquidity is the prefix sum at the current tick and the rest of the walk completes the whole; the tick distance decreases |
| `ConcentratedLiquidity.UniswapV3Out` | src/calculation/uniswap.rs:80-204 | for every tick table, price and direction the loop terminates with the output of the reference walk modulo 2^256, or its failure |
| `ConstantProduct.NothingWraps` | src/calculation/uniswap.rs:65-68 | for 112-bit reserves and inputs below 2^128 no product or sum leaves 256 bits |
| `ConstantProduct.OutputIsLargest` | src/calculation/uniswap.rs:57-68 | an amount is at most the output if and only if paying it keeps the fee-adjusted product |
| `ConstantProduct.OutputBounds` | src/calculation/uniswap.rs:57-68 | the output stays below the reserve and below the spot-price proportion |
| `ConstantProduct.PathBounded` | src/calculation/calculator.rs:43-73 | over any path of V2 steps, out times the input reserves is at most in times the output reserves |
| `ConstantProduct.ProfitNeedsSpotPrices` | src/calculation/calculator.rs:43-73 | a calculated profit implies that the product of the spot prices exceeds one |
| `StableSwap.CurveMonotone` | src/calculation/aerodrome.rs:131-135 | the invariant with its nested floors is monotone in both reserves |
| `StableSwap.CurveDoesNotWrap` | src/calculation/aerodrome.rs:131-135 | up to 2^93 nothing in `_f` wraps, so it is the exact formula |
| `StableSwap.StepStaysAboveZero` | src/calculation/aerodrome.rs:100-125 | with 3*x0*floor(y*y/1e18) at least 2e18 the derivative is positive and the full step is below y; from 0.00249 token on the input side it is at most y for every y |
| `StableSwap.Undershoot` | src/calculation/aerodrome.rs:117-125 | a downward step lands below the target by no more than the accumulated floors |
| `StableSwap.RunAnswers` | src/calculation/aerodrome.rs:97-129 | for any input-side balance and any decimals: over a run whose iterates stay within 2^93, a nonzero answer is at most the reserve and a least solution up to an equality plateau; with at least 18 decimals on both sides it meets the target |
| `StableSwap.GuardedRunStays` | src/calculation/aerodrome.rs:100-125 | inside the guard every run stays there: no step of any number of rounds wraps, although a step down can land below the target |
| `StableSwap.AmpleRunMeets` | src/calculation/aerodrome.rs:97-129 | with exactly one token or at least one and a half on the input side, answers meet the target over all iterates, whatever the decimals and whatever the upward exit compares |
| `StableSwap.NewtonFromReserve` | src/calculation/aerodrome.rs:61-69 | all of this together, started from the reserve, with equality answered at once |
| `StableSwap.GetY` | src/calculation/aerodrome.rs:97-129 | the loop computes exactly that iteration, wrap-around and early answers included |
| `StableSwap.StableOut` | src/calculation/aerodrome.rs:41-74 | the output is the reserve less the solver's answer, scaled back; inside the guard, and outside it if no step wraps, it never exceeds the reserve and the answer is such a root, on the target if the input side is ample; for 18 decimals the balance left is the root |
| `StableSwap.VolatileOut` | src/calculation/aerodrome.rs:75-82 | an amount is at most the output if and only if paying it keeps the product; it aborts exactly for an empty side given nothing |
| `StableSwap.AerodromeOut` | src/calculation/aerodrome.rs:23-83 | both branches after the fee, with what each promises |
| `StableLimits.StepCanUnderflow` | src/calculation/aerodrome.rs:117-125 | the floor balance is right to within a hundredth: a pool of 18-decimal tokens with slightly less on the input side whose first step wraps to 2^256 - 1 |
| `StableLimits.AnswerCanExceedReserve` | src/calculation/aerodrome.rs:61-69 | a pool of 112-bit reserves and 18-decimal tokens, beyond the limit, for which the nonzero answer exceeds the reserve and the subtraction underflows |
| `StableLimits.FailureIsConfined` | src/calculation/aerodrome.rs:97-129 | a guarded swap whose answer is below its target has fewer than 18 decimals on some side, and on the input side less than one and a half tokens, but not exactly one |
| `StableLimits.WholeTokensMeet` | src/calculation/aerodrome.rs:97-129 | so between tokens without decimals every guarded swap meets its target |
| `StableLimits.EighteenMeets` | src/calculation/aerodrome.rs:97-129 | with at least 18 decimals on both sides every guarded swap, in either direction, keeps the invariant at its answer at or above that of the reserves |
| `StableLimits.FewerDecimalsUndershoot` | src/calculation/aerodrome.rs:111-113 | for each pair of 6, 8 and 18 decimals but 18 and 18: a guarded pool whose answer is below its target |
| `StableLimits.UnitsDecide` | src/calculation/aerodrome.rs:111-113 | over tokens of 6, 8 or 18 decimals all guarded swaps meet their target if and only if both tokens have 18 |
| `LogExpMath.DecompositionIsExact` | src/calculation/balancer.rs:219-270 | the greedy subtraction leaves a remainder in [0, x9) and x is exactly what was taken plus the remainder |
| `LogExpMath.ExponentialInRange` | src/calculation/balancer.rs:192-328 | on [0, 130e18] the result is at least 1e18 and at most 5e75, on [0, 41e18] at most 1e36 |
| `LogExpMath.ExponentialBounds` | src/calculation/balancer.rs:192-200 | over the whole domain the result is positive, at least one for nonnegative exponents and at most one for nonpositive ones |
| `LogExpMath.Exp` | src/calculation/balancer.rs:192-328 | defined exactly on [-41e18, 130e18]; at least 1e18 above zero and in [1, 1e18] below; every intermediate fits a signed word |
| `LogExpMath.DivideBounds` | src/calculation/balancer.rs:353-401 | every suffix of the division chain leaves a value in [1e20, its bound], and the chain ends below 1.07e20 |
| `LogExpMath.LogarithmSign` | src/calculation/balancer.rs:330-445 | `_ln` is at least 0 for a >= 1e18, at most 0 for a <= 1e18, and within 137e18, on all positive inputs |
| `LogExpMath.Ln` | src/calculation/balancer.rs:330-445 | total on positive inputs with one reciprocal at most, without overflow, with those signs |
| `LogExpMath.Logarithm36Sign` | src/calculation/balancer.rs:447-462 | the high-precision logarithm has the sign of its argument relative to one, and stays within 1e36 |
| `LogExpMath.Ln36` | src/calculation/balancer.rs:447-462 | the loop computes it without overflow |
| `LogExpMath.PowerSide` | src/calculation/balancer.rs:157-190 | a power is positive, at most 5e75, and on the same side of one as its base |
| `LogExpMath.Pow` | src/calculation/balancer.rs:157-190 | the program computes it, with its three assertions as the only failures |
| `WeightedPool.ScaledTwice` | src/calculation/balancer.rs:25-28 | the amount used equals the input scaled back if and only if nothing was scaled or nothing is left |
| `WeightedPool.IntegralPower` | src/calculation/balancer.rs:85-103 | for exponents 1, 2 and 4 the chained roundings never fall below the true ratio to that power |
| `WeightedPool.NeverOverpays` | src/calculation/balancer.rs:30-35 | whatever the weights, the output is at most the balance |
| `WeightedPool.RoundingFavoursPool` | src/calculation/balancer.rs:30-35 | for weight ratios 1, 2 and 4 the weighted product of the balances does not drop |
| `WeightedPool.ExactRatio` | src/calculation/balancer.rs:32 | weights in proportion n : 1 give exactly that exponent |
| `WeightedPool.BalancerV2Out` | src/calculation/balancer.rs:13-48 | the program computes the output for the amount used, aborting where it does; the fee is rounded up and never exceeds the input; it never pays more than the pool holds, and for weight ratios 1, 2 and 4 it does not abort and the weighted product does not drop |
| `CycleSearch.FromIffWanted` | src/graph.rs:192-249 | from any path and visited set, the search lists exactly the wanted extensions |
| `CycleSearch.FindsEachCycleOnce` | src/graph.rs:168-249 | every sequence of hops from the start back to it, of length 2 to the bound, through distinct nodes, with two protocols at length 2, is found exactly once, and nothing else |
| `CycleSearch.NoEdgeTwice` | src/graph.rs:192-249 | no cycle uses an edge twice |
| `CycleSearch.Search.ConstructCycles` | src/graph.rs:192-249 | the search appends exactly these cycles in order, and restores the current path and the visited set |
| `CycleSearch.BuildSwapPath` | src/graph.rs:217-227 | one swap step per hop, with the tokens of its nodes |
| `CycleSearch.FindAllArbitragePaths` | src/graph.rs:168-189 | the paths are the found cycles, read as swap steps |
| `ArbGraph.EdgesAreTradablePairs` | src/graph.rs:67-166 | a pool contributes exactly its pairs of tokens, for Balancer those with two nonzero balances |
| `ArbGraph.Builder.AddPool` | src/graph.rs:67-166 | nodes for all tokens of the pool, and its edges after those already there |
| `ArbGraph.BuildGraph` | src/graph.rs:42-65 | one node per token of the pools, none else, and the edges of all pools in order |
| `ArbGraph.CyclesAreTokenCycles` | src/graph.rs:42-91 | over such a graph a cycle of nodes is a cycle of tokens, simple, along pools that trade them |
| `ArbGraph.TokenCycleIsCycle` | src/graph.rs:42-91 | and conversely |
| `ArbGraph.PathsAreTokenCyclesOnce` | src/graph.rs:13-39 | the paths are exactly the token cycles, without repetition |
| `ArbGraph.GenerateCycles` | src/graph.rs:13-39 | so for the whole function; it aborts exactly when no pool trades the token |
| `FoundPaths.PoolsAreDistinct` | src/graph.rs:209-213 | over two-token pools no found path visits a pool twice; at length 2 this is what the test of pool types is for |
| `FoundPaths.FoundPathsRun` | src/graph.rs:168-249 | every found path is one the contracts can run |
| `Calculators.CachedIsFresh` | src/calculation/calculator.rs:43-94 | over a truthful cache the cached output equals the last uncached amount, and the cache stays truthful |
| `Calculators.Cache.Invalidate` | src/cache.rs:66-69 | exactly the entries of that pool are dropped |
| `Calculators.Calculator.CalculateOutput` | src/calculation/calculator.rs:43-73 | the cached output with its early exit, and the cache afterwards |
| `Calculators.Calculator.DebugCalculation` | src/calculation/calculator.rs:75-94 | all amounts along the path, computed afresh |
| `Calculators.Calculator.InvalidateCache` | src/calculation/calculator.rs:143-147 | exactly the entries of the updated pools are dropped |
| `CacheAliasing.RunFreshIff` | src/cache.rs:23-27 | any run of the calculator over any paths, from any cache that records what was asked, is answered freshly throughout if and only if no key is asked for twice with different quotes |
| `CacheAliasing.EventsFreshIff` | src/searcher.rs:80-116 | the same when pools are written and invalidated in between: if and only if no key is asked for with two different quotes between two updates of its pool |
| `CacheAliasing.V2RunFreshIff` | src/cache.rs:23-27 | over V2 pools with 112-bit reserves, from an empty cache: if and only if every pool asked from both sides with one amount pays alike in both directions |
| `CacheAliasing.SidesMeetIff` | src/calculation/uniswap.rs:57-68 | a pool does so if and only if nothing is asked, its reserves are equal, or one unit more than the scarcer token pays would be too much of the other |
| `CacheAliasing.LopsidedDiffers` | src/calculation/uniswap.rs:57-68 | which it never does when the reserves differ by at least about one part in the amount |
| `CacheAliasing.FreshLookupsFreshOutput` | src/calculation/calculator.rs:43-73 | a path answered freshly has its uncached output |
| `CacheAliasing.CacheHidesProfit` | src/calculation/calculator.rs:43-73 | two cycles over two V2 pools: after the first, the second, which nearly doubles its input, is reported to halve it |
| `Searcher.BuildIndex` | src/searcher.rs:48-54 | the nested loops build that index |
| `Searcher.Searchoor.constructor` | src/searcher.rs:41-70 | the index is right, and the minimal profit is the loan, its premium and one percent |
| `Searcher.Searchoor.AffectedPaths` | src/searcher.rs:87-93 | the paths found through the index are those of the brute-force scan |
| `Searcher.Searchoor.PickBest` | src/searcher.rs:96-115 | a path with the highest plausible estimate, or none if there is none |
| `Searcher.Searchoor.SearchMessage` | src/searcher.rs:76-129 | the cache afterwards, the best affected path, and what is sent |
| `Searcher.SentIsGenuine` | src/searcher.rs:80-129 | if the message names every stale pool, what is sent is affected and really yields the sent amount, at least the minimal profit |
| `Searcher.Searchoor.SearchPaths` | src/searcher.rs:72-131 | over any sequence of messages, with every change announced, everything ever sent is genuine |
| `SearchProtocol.StepKeepsCoherent` | src/market_state.rs:113-169 | no step of either thread leaves an entry that is neither up to date nor of a pool still to be invalidated |
| `SearchProtocol.RunsStayCoherent` | src/searcher.rs:76-116 | so in every reachable state of every interleaving |
| `SearchProtocol.QuietMeansFresh` | src/calculation/calculator.rs:43-94 | with nothing in flight, the cached output of every path is the uncached one |
| `PoolKinds.ZeroOutIff` | src/calculation/calculator.rs:107-140 | over V2, V3, stable and volatile pools of any state and any step, nothing in gives nothing out, but for a stable pool whose slope at its reserves is zero |
| `PoolKinds.EmptySidePays` | src/calculation/aerodrome.rs:101-103 | such a stable pool, with an empty input side, quotes its whole reserve for nothing |
| `PoolKinds.ZeroYieldsZeroIff` | src/calculation/calculator.rs:66-68 | what the early exit relies on holds of a path if and only if there is no such pool on it |
| `PoolKinds.QuietMeansFreshForPools` | src/calculation/calculator.rs:43-94 | so over pools of all these kinds, with nothing in flight, the cached output is the uncached one |
| `SearchProtocol.MessagesAreConserved` | src/market_state.rs:129-141 | messages are neither lost, repeated nor reordered: written is received plus in flight |
| `SearchProtocol.ChangedCyclesAreAnnounced` | src/searcher.rs:87-93 | between quiet states a cycle whose output changed was affected by a received message |
| `SearchProtocol.ChangeIsInOwnMessage` | src/market_state.rs:157-168 | a cycle whose output a block changes is affected by that block's message |
| `MarketState.ProcessedIncreases` | src/market_state.rs:92-142 | no block is processed twice or out of order |
| `MarketState.ProcessedContiguous` | src/market_state.rs:92-142 | all processed blocks are contiguous if and only if the stream takes over without a jump |
| `MarketState.MarketState.UpdateState` | src/market_state.rs:146-169 | tracked slots take the value written last in the block, no other slot changes, and the updated pools are the tracked ones in it |
| `MarketState.MarketState.StreamIn` | src/market_state.rs:113-142 | newer blocks are replayed in order with one message each, others skipped |
| `MarketState.MarketState.StateUpdater` | src/market_state.rs:81-143 | for any polls and stream: which blocks are processed, the storage as their updates replayed in order, and the messages |
| `PoolEncoding.ReservesRoundTrip` | src/state_db/v2_db.rs:49-83 | packed reserves are read back if and only if both have 112 bits |
| `PoolEncoding.Slot0RoundTrip` | src/state_db/v3_db.rs:155-226 | every field of slot 0 is read back, the tick if and only if it has 24 bits |
| `PoolEncoding.NetRoundTrip` | src/state_db/v3_db.rs:120-249 | a net liquidity is read back if and only if it is an i128 |
| `PoolEncoding.SaturatedRoundTrip` | src/state_db/v3_db.rs:108-234 | liquidity and nonnegative tick spacing survive the saturating readers |
| `PoolEncoding.SpreadingHashExists` | src/state_db/v3_db.rs:90-138 | the assumptions about the slot hash can be met |
| `StateDb.BlockStateDb.InsertAccountStorage` | src/state_db/blockstate_db.rs:172-204 | exactly one slot of one account reads differently |
| `StateDb.BlockStateDb.ReadStorage` | src/state_db/blockstate_db.rs:279-334 | reading through returns the overlay's value, remembers it, and changes no answer |
| `StateDb.BlockStateDb.UpdateAllSlots` | src/state_db/blockstate_db.rs:137-157 | exactly the slots of the update are overwritten, if the account is known |
| `StateDb.BlockStateDb.InsertV2` | src/state_db/v2_db.rs:25-113 | tokens are read back, reserves if and only if they have 112 bits; no other account changes |
| `StateDb.BlockStateDb.InsertV3` | src/state_db/v3_db.rs:54-188 | every reader returns what was inserted, ticks and words that were not inserted come from the chain, and no other account changes |
| `FlashContracts.SwapV2` | contracts/src/FlashSwap.sol:135-166 | one hop: payment, unchecked output formula, and the pair's swap, or a revert |
| `FlashContracts.RunLoop` | contracts/src/FlashSwap.sol:85-121 | the loop fills the amounts of the run that chains the hops by their tokens |
| `FlashContracts.FlashQuoter.QuoteArbitrage` | contracts/src/FlashQuoter.sol:42-84 | the input is taken from the caller and the amounts returned; a revert leaves the chain as it was |
| `FlashContracts.FlashSwap.constructor` | contracts/src/FlashSwap.sol:50-63 | a factory's fee is the one given last for it, zero if none was |
| `FlashContracts.FlashSwap.ExecuteOperation` | contracts/src/FlashSwap.sol:74-133 | only the lender may call; the run, then exactly the surplus to the caller, or a revert |
| `FlashContracts.FlashSwap.ExecuteArbitrage` | contracts/src/FlashSwap.sol:67-71 | loan, callback and repayment; a revert anywhere leaves the chain as it was |
| `TokenLedger.RunMoves` | contracts/src/FlashSwap.sol:91-121 | over a run the first amount leaves, the last arrives, and every intermediate token passes through |
| `TokenLedger.CallbackSettles` | contracts/src/FlashSwap.sol:123-133 | the callback leaves exactly the repayment and pays the rest, if and only if there is enough |
| `TokenLedger.ArbitrageSettles` | contracts/src/FlashSwap.sol:67-133 | it reverts, or the caller gets exactly prior balance plus last amount minus loan and premium, the lender the premium, and no other token of the contract changes; with the exact condition |
| `PathAgreement.Compress` | src/swap.rs:39-57 | the loops push each step's pool and version |
| `PathAgreement.CompressionIsLossless` | contracts/src/FlashQuoter.sol:49-80 | the contracts recover every step's tokens and direction from the pools alone |
| `PathAgreement.HopAgrees` | src/calculation/calculator.rs:107-124 | a hop succeeds exactly when there is an output and room, and yields the calculator's quote |
| `PathAgreement.EvaluatorsAgree` | contracts/src/FlashQuoter.sol:42-117 | the loop runs a path over distinct pools if and only if it is executable, and its amounts are the calculator's |
| `PathAgreement.QuoterAgrees` | contracts/src/FlashQuoter.sol:42-166 | so does the quoter, with its fee table, on the compressed path |
| `PathAgreement.SentPathPays` | src/searcher.rs:116-128 | a path sent as genuine is carried out, and pays the caller at least the margin besides the contract's prior balance |

## Left out

- StableSwap.NewtonFromReserve: beyond 2^93 products wrap, and whether the answer still fits depends on where the wrapped iteration happens to settle; failures there are shown by example. The same goes for a run below the floor balance once a step has wrapped; no wrong answer is known for one. Zero, the answer for no convergence, makes the output the whole reserve, as in the program.
- StableLimits.UnitsDecide: decimals other than 6, 8 and 18; for those that listed tokens have the failing pools are worked out, since what the exit compares depends on where the product of the doubly scaled amounts wraps. Without decimals there is none (`WholeTokensMeet`).
- LogExpMath.Exp: accuracy against the real exponential; integer bounds, exact decomposition and absence of overflow are proved.
- LogExpMath.Ln: accuracy against the real logarithm, likewise.
- WeightedPool.RoundingFavoursPool: weight ratios other than 1, 2 and 4 go through the general power, whose accuracy is not proved.
- WeightedPool.BalancerV2Out: token decimals above 18, which make the scaling factor negative and abort the program.
- ConcentratedLiquidity.UniswapV3Out: inputs of 2^255 or more, a net liquidity of -2^127 and a price outside the range of its tick, none of which a pool on chain has.
- ConcentratedLiquidity.Contracts: the bodies of the external crate's price and amount functions.
- CycleSearch.Search.ConstructCycles: the order in which petgraph lists the edges of a node; the model goes by edge index.
- SearchProtocol.QuietMeansFresh: assumes that each key is asked alike and that nothing in gives nothing out; `EventsFreshIff` and `ZeroYieldsZeroIff` say exactly when that holds.
- PathAgreement.EvaluatorsAgree: V3 hops, whose swap is the pool contract's own code.
- FlashContracts.FlashSwap.ExecuteOperation: loans in another token than WETH; the contract itself only asks for WETH.
- FlashContracts.RunLoop: V3 hops likewise; token approvals, which have no effect on balances.
- Ledger.PairSwap: the pair contract's flash-swap callback, price accumulators and protocol fee; tokens that take a fee on transfer.
- StateDb.BlockStateDb.Basic: provider failures, code and block hashes, nonces, and the commit of simulated transactions.
- MarketState.MarketState.StateUpdater: tracing failures and a head that regresses below the last block are only as the polls given say; network and channels are sequences.
- The estimator's rates and averaging: a heuristic filter without a promise of its own.
- Curve and Maverick pools: their outputs come from running contract code.
- Transaction building, sending, gas and base fee: plumbing around an external crate.
- The path hash and hashing details: nothing depends on them but speed.
