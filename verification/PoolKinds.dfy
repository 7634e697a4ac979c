/**
  The calculator over pools of every kind that is modelled: for which of them nothing in gives nothing out, and what
  that means for the cache.
*/
module PoolKinds {
  import opened Arithmetic
  import opened Calculators
  import opened ConstantProduct
  import opened Outcomes
  import opened PathAgreement
  import opened Swaps
  import opened U256
  import Aerodrome = StableSwap
  import Protocol = SearchProtocol
  import Tick = ConcentratedLiquidity
  import TickBitmap

  datatype PoolState =
    | ConstantProductPool(v2: V2State)
    | ConcentratedPool(token0: Address, m: Tick.TickMath, p: TickBitmap.Ticks, slot0: Tick.Slot0)
    | AerodromePool(token0: Address, pool: Aerodrome.Pool)

  /** A concentrated-liquidity output: the reference walk's, and 0 where the program aborts. */
  ghost function ConcentratedQuote(s: PoolState, step: SwapStep, amount: Word): Word
    requires s.ConcentratedPool?
  {
    var e := Tick.Market(s.m, s.p, s.token0 == step.tokenIn, step.fee);
    var start := Tick.At(s.slot0.price, s.slot0.tick, amount);
    if amount == 0 || !Tick.ValidMarket(e) || !Tick.Live(e, start) then 0
    else
      match Tick.Walk(e, start)
      case Ok(f) => ToRaw(f.flow.out)
      case Err(_) => 0
  }

  /** The amount out of a step, by the protocol of its pool; 0 stands for an abort. */
  ghost function AmountOut(s: PoolState, step: SwapStep, amount: Word): Word {
    if s.ConstantProductPool? then
      V2Quote(s.v2, step, amount)
    else if s.ConcentratedPool? && step.protocol.IsV3() then
      ConcentratedQuote(s, step, amount)
    else if s.AerodromePool? && step.protocol == Swaps.Aerodrome && s.pool.unit0 != 0 && s.pool.unit1 != 0 then
      match Aerodrome.AerodromeQuote(s.pool, amount, s.token0 == step.tokenIn)
      case Some(out) => out
      case None => 0
    else
      0
  }

  // ----- nothing in, nothing out -----

  lemma NothingTimes(a: Word)
    ensures Mul(0, a) == 0
  {
    MulExact(0, a);
  }

  lemma NothingDivided(d: Word)
    requires d != 0
    ensures Div(0, d) == 0
  {
    DivIsFloor(0, d);
    FloorIsGreatest(0, d, 1);
    FloorIsGreatest(0, d, 0);
  }

  lemma V2OfNothing(s: V2State, step: SwapStep)
    ensures V2Quote(s, step, 0) == 0
  {
    hide Mul, Div;
    var fee := V2Fee(step.protocol);
    if fee.Some? {
      NothingTimes(fee.value);
      NothingTimes(s.reserve0);
      NothingTimes(s.reserve1);
      forall d: Word | d != 0 ensures Div(0, d) == 0 {
        NothingDivided(d);
      }
    }
  }

  lemma ProductCommutes(a: Word, b: Word)
    ensures Mul(a, b) == Mul(b, a)
  {
    TimesIsProduct(a, b);
    TimesIsProduct(b, a);
  }

  /** The program's curve is symmetric on all words, wrap-around included. */
  lemma CurveSymmetric(x: Word, y: Word)
    ensures Aerodrome.F(x, y) == Aerodrome.F(y, x)
  {
    hide Mul;
    ProductCommutes(x, y);
  }

  /** From the reserves themselves the solver answers at once: with the reserve, or with 0 where the slope vanishes. */
  lemma {:induction false} RootOfNothing(rounds: nat, a: Word, b: Word, unit0: Word, unit1: Word)
    requires rounds > 0 && unit0 != 0 && unit1 != 0
    ensures Aerodrome.Newton(rounds, a, Aerodrome.F(a, b), b, true, unit0, unit1) == if Aerodrome.D(a, b) == 0 then 0 else b
  {
    hide Aerodrome.F, Aerodrome.D, Aerodrome.K, Mul, Div;
    var k, d := Aerodrome.F(a, b), Aerodrome.D(a, b);
    if d != 0 {
      NothingTimes(Aerodrome.WAD);
      NothingDivided(d);
    }
  }

  lemma NothingScaled(unit: Word)
    requires unit != 0
    ensures Aerodrome.Scale(0, unit) == 0
  {
    hide Mul, Div;
    NothingTimes(Aerodrome.WAD);
    NothingDivided(unit);
  }

  /** The slope at the reserves of a stable pool vanishes: an input side of next to nothing. */
  predicate NoSlope(p: Aerodrome.Pool, fromToken0: bool)
    requires p.unit0 != 0 && p.unit1 != 0
  {
    var (a, b, _) := Aerodrome.Sides(p, 0, fromToken0);
    Aerodrome.D(a, b) == 0
  }

  /** What the output side amounts to when all of it is paid. */
  function WholeReserve(p: Aerodrome.Pool, fromToken0: bool): Word
    requires p.unit0 != 0 && p.unit1 != 0
  {
    Mul(Aerodrome.Sides(p, 0, fromToken0).1, Aerodrome.OutSide(p, fromToken0).1) / Aerodrome.WAD
  }

  lemma StableOfNothing(p: Aerodrome.Pool, fromToken0: bool)
    requires p.unit0 != 0 && p.unit1 != 0
    ensures Aerodrome.StableQuote(p, 0, fromToken0) == if NoSlope(p, fromToken0) then WholeReserve(p, fromToken0) else 0
  {
    hide Aerodrome.Newton, Aerodrome.F, Aerodrome.D, Aerodrome.Scale, Mul;
    var (a, b, amount) := Aerodrome.Sides(p, 0, fromToken0);
    var (s0, s1) := (Aerodrome.Scale(p.reserve0, p.unit0), Aerodrome.Scale(p.reserve1, p.unit1));
    NothingScaled(p.unit0);
    NothingScaled(p.unit1);
    CurveSymmetric(s0, s1);
    TargetOfReserves(p);
    RootOfNothing(255, a, b, p.unit0, p.unit1);
    NothingTimes(p.unit0);
    NothingTimes(p.unit1);
  }

  lemma TargetOfReserves(p: Aerodrome.Pool)
    requires p.unit0 != 0 && p.unit1 != 0
    ensures Aerodrome.K(p.reserve0, p.reserve1, true, p.unit0, p.unit1)
         == Aerodrome.F(Aerodrome.Scale(p.reserve0, p.unit0), Aerodrome.Scale(p.reserve1, p.unit1))
  {
    hide Mul, Aerodrome.Scale, Aerodrome.P;
  }

  lemma VolatileOfNothing(p: Aerodrome.Pool, fromToken0: bool)
    ensures var out := Aerodrome.VolatileQuote(p, 0, fromToken0); out.Some? ==> out.value == 0
  {
    hide Mul, Div;
    NothingTimes(p.reserve0);
    NothingTimes(p.reserve1);
    if p.reserve0 != 0 { NothingDivided(p.reserve0); }
    if p.reserve1 != 0 { NothingDivided(p.reserve1); }
  }

  /** The one step that can pay something for nothing: a stable pool without a slope. */
  predicate PaysForNothing(s: PoolState, step: SwapStep) {
    && s.AerodromePool? && step.protocol == Swaps.Aerodrome && s.pool.unit0 != 0 && s.pool.unit1 != 0
    && s.pool.stable && NoSlope(s.pool, s.token0 == step.tokenIn) && WholeReserve(s.pool, s.token0 == step.tokenIn) != 0
  }

  /** Over all pools and all steps, nothing in gives nothing out but for that one. */
  lemma ZeroOutIff(s: PoolState, step: SwapStep)
    ensures AmountOut(s, step, 0) == 0 <==> !PaysForNothing(s, step)
  {
    hide V2Quote, Aerodrome.StableQuote, Aerodrome.VolatileQuote, NoSlope, WholeReserve, Mul;
    if s.ConstantProductPool? {
      V2OfNothing(s.v2, step);
    } else if s.AerodromePool? && s.pool.unit0 != 0 && s.pool.unit1 != 0 {
      NothingTimes(s.pool.fee);
      StableOfNothing(s.pool, s.token0 == step.tokenIn);
      VolatileOfNothing(s.pool, s.token0 == step.tokenIn);
    }
  }

  lemma NoSlopeAtNothing(b: Word)
    ensures Aerodrome.D(0, b) == 0
  {
    hide Mul;
    ProductCommutes(3, 0);
    NothingTimes(3);
    NothingTimes(0);
    NothingTimes(Aerodrome.P(b, b));
  }

  lemma ReserveInWad(reserve: Word)
    requires reserve < Aerodrome.RESERVE_BOUND
    ensures Aerodrome.Scale(reserve, Aerodrome.WAD) == reserve && Mul(reserve, Aerodrome.WAD) / Aerodrome.WAD == reserve
  {
    hide Mul, Div;
    MulExact(reserve, Aerodrome.WAD);
    DivIsFloor(reserve * Aerodrome.WAD, Aerodrome.WAD);
    QuotientExact(reserve * Aerodrome.WAD, Aerodrome.WAD, reserve);
  }

  /** Such a pool can be met: with an empty input side the whole reserve is quoted for nothing. */
  lemma EmptySidePays(reserve: Word, token0: Address, step: SwapStep)
    requires 0 < reserve < Aerodrome.RESERVE_BOUND && step.tokenIn == token0 && step.protocol == Swaps.Aerodrome
    ensures AmountOut(AerodromePool(token0, Aerodrome.Pool(0, reserve, 0, Aerodrome.WAD, Aerodrome.WAD, true)), step, 0) == reserve
  {
    hide Mul, Div, Aerodrome.StableQuote, Aerodrome.Scale, Aerodrome.D;
    var p := Aerodrome.Pool(0, reserve, 0, Aerodrome.WAD, Aerodrome.WAD, true);
    NothingTimes(0);
    NothingScaled(Aerodrome.WAD);
    ReserveInWad(reserve);
    NoSlopeAtNothing(reserve);
    StableOfNothing(p, true);
  }

  // ----- the cache over all kinds of pools -----

  predicate NonePaysForNothing(db: map<Address, PoolState>, path: SwapPath)
    requires Tracked(db, path)
  {
    forall s :: s in path ==> !PaysForNothing(db[s.pool], s)
  }

  /** What the cache relies on holds of a path if and only if no stable pool on it has lost its slope. */
  lemma ZeroYieldsZeroIff(db: map<Address, PoolState>, path: SwapPath)
    requires Tracked(db, path)
    ensures ZeroYieldsZero(AmountOut, db, path) <==> NonePaysForNothing(db, path)
  {
    hide AmountOut, PaysForNothing;
    forall s | s in path ensures AmountOut(db[s.pool], s, 0) == 0 <==> !PaysForNothing(db[s.pool], s) {
      ZeroOutIff(db[s.pool], s);
    }
  }

  /** So over pools of all kinds: with nothing in flight, the cached output of a path is the uncached one. */
  lemma {:induction false} QuietMeansFreshForPools(asker: Askers, cycles: seq<SwapPath>, s0: Protocol.State<PoolState>,
                                actions: seq<Protocol.Action<PoolState>>, path: SwapPath)
    requires var c := Protocol.Context(AmountOut, asker, cycles);
             && Protocol.Initial(s0) && Protocol.ValidRun(c, s0, actions)
             && var s := Protocol.Run(c, s0, actions);
                && Protocol.NothingInFlight(s) && Tracked(s.db, path)
                && PathAskedAlike(AmountOut, asker, s.db, path, AMOUNT) && NonePaysForNothing(s.db, path)
    ensures var s := Protocol.Run(Protocol.Context(AmountOut, asker, cycles), s0, actions);
            Calculate(AmountOut, s.db, path, AMOUNT, s.entries).amount == Fresh(AmountOut, s.db, path, AMOUNT)
  {
    hide AmountOut, NonePaysForNothing;
    var c := Protocol.Context(AmountOut, asker, cycles);
    var s := Protocol.Run(c, s0, actions);
    ZeroYieldsZeroIff(s.db, path);
    Protocol.QuietMeansFresh(c, s0, actions, path);
  }
}
