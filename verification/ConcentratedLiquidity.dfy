/**
  The swap loop of a concentrated-liquidity pool (Uniswap v3 Core whitepaper, sections 6.2.3 and 6.3).  The
  loop carries a running liquidity across ticks and looks at three bitmap words; `Walk` recomputes the liquidity
  from the whole tick table at every segment and looks at the whole bitmap.  The loop refines the walk.
*/
module ConcentratedLiquidity {
  import opened Outcomes
  import opened TickBitmap
  import opened U256

  const MIN_SQRT_RATIO: nat := 4295128739
  const MAX_SQRT_RATIO: nat := 1461446703485210103287273052203988822378723970342
  const U128_BOUND: int := 0x1_0000_0000_0000_0000_0000_0000_0000_0000

  /** One step inside a constant-liquidity range: the price reached and the three amounts. */
  datatype Step = Step(price: Word, amountIn: Word, amountOut: Word, feeAmount: Word)

  /** The tick search, tick prices and swap arithmetic of the `uniswap_v3_math` crate. */
  datatype TickMath = TickMath(
    nextTick: (int -> Word, int, int, bool) -> (int, bool),
    sqrtRatio: int -> Word,
    tickAt: Word -> int,
    step: (Word, Word, int, int, nat) -> Option<Step>)

  /** The crate's search is the one of section 6.2.4, as defined in `TickBitmap`. */
  ghost predicate SearchesOneWord(m: TickMath, word: int -> Word, tick: int, spacing: int, lte: bool) {
    spacing > 0 ==> m.nextTick(word, tick, spacing, lte) == NextTick(word, tick, spacing, lte)
  }

  ghost predicate RatioIncreases(m: TickMath, s: int, t: int) {
    MIN_TICK <= s < t <= MAX_TICK ==> m.sqrtRatio(s) < m.sqrtRatio(t)
  }

  /** The tick of a price is the one whose range contains it. */
  ghost predicate TickContains(m: TickMath, price: Word) {
    MIN_SQRT_RATIO <= price < MAX_SQRT_RATIO ==>
      && MIN_TICK <= m.tickAt(price) < MAX_TICK
      && m.sqrtRatio(m.tickAt(price)) <= price < m.sqrtRatio(m.tickAt(price) + 1)
  }

  ghost predicate StepsExactIn(m: TickMath, price: Word, target: Word, liquidity: int, remaining: int, fee: nat) {
    0 < remaining < SIGN && m.step(price, target, liquidity, remaining, fee).Some? ==>
      ExactInStep(m.step(price, target, liquidity, remaining, fee).value, price, target, remaining)
  }

  /** What the crate documents of its four functions. */
  ghost predicate Contracts(m: TickMath) {
    && (forall word: int -> Word, tick, spacing, lte {:trigger SearchesOneWord(m, word, tick, spacing, lte)} ::
          SearchesOneWord(m, word, tick, spacing, lte))
    && m.sqrtRatio(MIN_TICK) == MIN_SQRT_RATIO && m.sqrtRatio(MAX_TICK) == MAX_SQRT_RATIO
    && (forall s, t {:trigger RatioIncreases(m, s, t)} :: RatioIncreases(m, s, t))
    && (forall price: Word {:trigger TickContains(m, price)} :: TickContains(m, price))
    && (forall price: Word, target: Word, liquidity, remaining, fee
          {:trigger StepsExactIn(m, price, target, liquidity, remaining, fee)} ::
          StepsExactIn(m, price, target, liquidity, remaining, fee))
  }

  /** An exact-input step stays between the prices, and either reaches its target or spends everything. */
  predicate ExactInStep(s: Step, price: Word, target: Word, remaining: int) {
    && (price <= s.price <= target || target <= s.price <= price)
    && s.amountIn + s.feeAmount <= remaining
    && (s.price != target ==> s.amountIn + s.feeAmount == remaining)
  }

  function AnyNext(word: int -> Word, tick: int, spacing: int, lte: bool): (int, bool) {
    if spacing > 0 then NextTick(word, tick, spacing, lte) else (tick, false)
  }

  function AnyRatio(tick: int): Word {
    if tick >= MAX_TICK then MAX_SQRT_RATIO
    else if tick <= MIN_TICK then MIN_SQRT_RATIO
    else MIN_SQRT_RATIO + (tick - MIN_TICK)
  }

  function AnyTick(price: Word): int {
    if price < MIN_SQRT_RATIO then MIN_TICK
    else if price - MIN_SQRT_RATIO >= MAX_TICK - MIN_TICK then MAX_TICK - 1
    else MIN_TICK + (price - MIN_SQRT_RATIO)
  }

  function AnyStep(price: Word, target: Word, liquidity: int, remaining: int, fee: nat): Option<Step> {
    if 0 < remaining < SIGN then Some(Step(price, remaining, 0, 0)) else None
  }

  /** The contracts contradict neither each other nor themselves. */
  lemma ContractsAreSatisfiable()
    ensures exists m :: Contracts(m)
  {
    var m := TickMath(AnyNext, AnyRatio, AnyTick, AnyStep);
    assert Contracts(m);
  }

  datatype Slot0 = Slot0(price: Word, tick: int, liquidity: int)

  datatype Failure = StepFailed | InsufficientLiquidity | LiquidityOverflow

  function Limit(zeroToOne: bool): Word {
    if zeroToOne then MIN_SQRT_RATIO + 1 else MAX_SQRT_RATIO - 1
  }

  // ----- the liquidity curve defined by the tick table -----

  /** Net liquidity added when the price rises through tick `t`. */
  ghost function Crossing(p: Ticks, t: int): int {
    if Initialized(p, t) then p.net(t) else 0
  }

  /** Sum of the net liquidity over all initialized ticks at or below `t`. */
  ghost function Prefix(p: Ticks, t: int): int
    decreases t - MIN_TICK
  {
    if t < MIN_TICK then 0 else Prefix(p, t - 1) + Crossing(p, t)
  }

  ghost predicate FitsU128(p: Ticks, t: int) {
    0 <= Prefix(p, t) < U128_BOUND
  }

  lemma {:induction false} PrefixFlat(p: Ticks, low: int, high: int)
    requires MIN_TICK - 1 <= low <= high
    requires forall t :: low < t <= high ==> !Initialized(p, t)
    ensures Prefix(p, high) == Prefix(p, low)
    decreases high - low
  {
    if low < high {
      PrefixFlat(p, low, high - 1);
    }
  }

  function CheckU128(liquidity: int): Result<int, Failure> {
    if liquidity < 0 then Err(InsufficientLiquidity)
    else if liquidity >= U128_BOUND then Err(LiquidityOverflow)
    else Ok(liquidity)
  }

  // ----- one segment of the reference walk -----

  /** The price lies in the range of the tick, upper end included: the state after crossing downward. */
  ghost predicate AtPosition(m: TickMath, price: Word, tick: int) {
    MIN_TICK <= tick < MAX_TICK && m.sqrtRatio(tick) <= price <= m.sqrtRatio(tick + 1)
  }

  ghost predicate BeforeLimit(price: Word, zeroToOne: bool) {
    if zeroToOne then Limit(true) <= price < MAX_SQRT_RATIO else MIN_SQRT_RATIO <= price <= Limit(false)
  }

  function Clamp(tick: int): int {
    if tick < MIN_TICK then MIN_TICK else if tick > MAX_TICK then MAX_TICK else tick
  }

  function Boundary(m: TickMath, p: Ticks, tick: int, zeroToOne: bool): int {
    Clamp(m.nextTick(p.word, tick, p.spacing, zeroToOne).0)
  }

  function Target(m: TickMath, boundary: int, zeroToOne: bool): Word {
    var next := m.sqrtRatio(boundary);
    if zeroToOne then
      if next < Limit(true) then Limit(true) else next
    else
      if next > Limit(false) then Limit(false) else next
  }

  function NewTick(m: TickMath, price: Word, tick: int, newPrice: Word, boundary: int, zeroToOne: bool): int {
    if newPrice == m.sqrtRatio(boundary) then
      if zeroToOne then boundary - 1 else boundary
    else if newPrice != price then
      m.tickAt(newPrice)
    else
      tick
  }

  /** The boundary of a segment: where it lies, and that the tick table is flat up to it. */
  lemma {:induction false} BoundaryIsNext(m: TickMath, p: Ticks, tick: int, zeroToOne: bool)
    requires Contracts(m) && ValidTicks(p) && MIN_TICK <= tick < MAX_TICK
    ensures var b := Boundary(m, p, tick, zeroToOne);
            && MIN_TICK <= b <= MAX_TICK
            && (if zeroToOne then b <= tick else tick < b)
            && (zeroToOne ==> forall t :: b <= t <= tick ==> Prefix(p, t) == Prefix(p, tick))
            && (!zeroToOne ==> forall t :: tick <= t < b ==> Prefix(p, t) == Prefix(p, tick))
    ensures var (n, initialized) := m.nextTick(p.word, tick, p.spacing, zeroToOne);
            MIN_TICK < Boundary(m, p, tick, zeroToOne) < MAX_TICK ==>
              n == Boundary(m, p, tick, zeroToOne) && (initialized <==> Initialized(p, n))
  {
    var b := Boundary(m, p, tick, zeroToOne);
    assert SearchesOneWord(m, p.word, tick, p.spacing, zeroToOne);
    if zeroToOne {
      NextTickDown(p, tick);
      forall t | b <= t <= tick ensures Prefix(p, t) == Prefix(p, tick) {
        PrefixFlat(p, t, tick);
      }
    } else {
      NextTickUp(p, tick);
      forall t | tick <= t < b ensures Prefix(p, t) == Prefix(p, tick) {
        PrefixFlat(p, tick, t);
      }
    }
  }

  /** What one step does to the position, whatever the direction. */
  lemma {:induction false} SegmentMoves(m: TickMath, p: Ticks, zeroToOne: bool, price: Word, tick: int,
                                        remaining: int, s: Step)
    requires Contracts(m) && ValidTicks(p) && AtPosition(m, price, tick) && BeforeLimit(price, zeroToOne)
    requires 0 < remaining && price != Limit(zeroToOne)
    requires ExactInStep(s, price, Target(m, Boundary(m, p, tick, zeroToOne), zeroToOne), remaining)
    ensures var b := Boundary(m, p, tick, zeroToOne);
            var tick' := NewTick(m, price, tick, s.price, b, zeroToOne);
            && AtPosition(m, s.price, tick') && BeforeLimit(s.price, zeroToOne)
            && (if zeroToOne then s.price <= price && tick' <= tick else price <= s.price && tick <= tick')
            && (s.price == m.sqrtRatio(b) ==> MIN_TICK < b < MAX_TICK && tick' != tick)
            && (s.price != m.sqrtRatio(b) ==> Prefix(p, tick') == Prefix(p, tick))
            && (s.amountIn + s.feeAmount < remaining && s.price != Limit(zeroToOne) ==> s.price == m.sqrtRatio(b))
  {
    BoundaryIsNext(m, p, tick, zeroToOne);
    var b := Boundary(m, p, tick, zeroToOne);
    var t := m.tickAt(s.price);
    assert TickContains(m, s.price);
    assert RatioIncreases(m, b - 1, b) && RatioIncreases(m, b, b + 1);
    assert RatioIncreases(m, tick + 1, t) && RatioIncreases(m, t + 1, b) && RatioIncreases(m, b, t);
    assert RatioIncreases(m, t + 1, tick) && RatioIncreases(m, b, tick) && RatioIncreases(m, tick + 1, b);
  }

  // ----- the reference walk -----

  /** A pool, the arithmetic it is traded with, the direction and the fee. */
  datatype Market = Market(m: TickMath, p: Ticks, zeroToOne: bool, fee: nat)

  ghost predicate ValidMarket(e: Market) {
    Contracts(e.m) && ValidTicks(e.p)
  }

  /** A position in the middle of a swap, with the input left to spend. */
  datatype Position = At(price: Word, tick: int, remaining: int)

  ghost predicate Live(e: Market, at: Position) {
    AtPosition(e.m, at.price, at.tick) && BeforeLimit(at.price, e.zeroToOne) && 0 <= at.remaining < SIGN
  }

  predicate Done(zeroToOne: bool, at: Position) {
    at.remaining == 0 || at.price == Limit(zeroToOne)
  }

  function TicksLeft(zeroToOne: bool, tick: int): int {
    if zeroToOne then tick - MIN_TICK else MAX_TICK - tick
  }

  /** What a segment or a whole swap pays out, takes in and takes as fees. */
  datatype Flow = Flow(out: nat, amountIn: nat, fees: nat)

  function Plus(a: Flow, b: Flow): Flow {
    Flow(a.out + b.out, a.amountIn + b.amountIn, a.fees + b.fees)
  }

  datatype Fill = Fill(flow: Flow, end: Position)

  type Outcome = Result<Fill, Failure>

  /** One segment, using the liquidity summed afresh over all ticks at or below the current one. */
  ghost function Segment(e: Market, at: Position): Outcome {
    var b := Boundary(e.m, e.p, at.tick, e.zeroToOne);
    match e.m.step(at.price, Target(e.m, b, e.zeroToOne), Prefix(e.p, at.tick), at.remaining, e.fee)
    case None => Err(StepFailed)
    case Some(s) =>
      var tick := NewTick(e.m, at.price, at.tick, s.price, b, e.zeroToOne);
      match CheckU128(Prefix(e.p, tick))
      case Err(failure) => Err(failure)
      case Ok(_) =>
        Ok(Fill(Flow(s.amountOut, s.amountIn, s.feeAmount), At(s.price, tick, at.remaining - (s.amountIn + s.feeAmount))))
  }

  /** Input is conserved and the price does not turn back; unless the swap is done the tick moves strictly. */
  ghost predicate Advances(e: Market, at: Position, f: Fill) {
    && Live(e, f.end) && at.remaining == f.flow.amountIn + f.flow.fees + f.end.remaining
    && (if e.zeroToOne then f.end.price <= at.price && f.end.tick <= at.tick else at.price <= f.end.price && at.tick <= f.end.tick)
    && (Done(e.zeroToOne, f.end) || f.end.tick != at.tick)
  }

  lemma SegmentAdvances(e: Market, at: Position)
    requires ValidMarket(e) && Live(e, at) && !Done(e.zeroToOne, at)
    ensures var r := Segment(e, at); r.Ok? ==> Advances(e, at, r.value)
  {
    var b := Boundary(e.m, e.p, at.tick, e.zeroToOne);
    var target, liquidity := Target(e.m, b, e.zeroToOne), Prefix(e.p, at.tick);
    assert StepsExactIn(e.m, at.price, target, liquidity, at.remaining, e.fee);
    var step := e.m.step(at.price, target, liquidity, at.remaining, e.fee);
    if step.Some? {
      SegmentMoves(e.m, e.p, e.zeroToOne, at.price, at.tick, at.remaining, step.value);
    }
  }

  ghost function Segments(e: Market): Position -> Outcome {
    at => Segment(e, at)
  }

  ghost predicate Advancing(e: Market, segments: Position -> Outcome) {
    forall at :: Live(e, at) && !Done(e.zeroToOne, at) && segments(at).Ok? ==> Advances(e, at, segments(at).value)
  }

  /**
    A swap made of the given segments, until the input is spent or the price limit is reached.  Each segment that
    is not the last brings the tick closer to the end of its range.
  */
  ghost function WalkBy(e: Market, segments: Position -> Outcome, at: Position): Outcome
    requires Advancing(e, segments) && Live(e, at)
    decreases !Done(e.zeroToOne, at), TicksLeft(e.zeroToOne, at.tick)
  {
    if Done(e.zeroToOne, at) then
      Ok(Fill(Flow(0, 0, 0), at))
    else
      var r := segments(at);
      if r.Err? then r else Before(r.value.flow, WalkBy(e, segments, r.value.end))
  }

  function Before(flow: Flow, rest: Outcome): Outcome {
    match rest
    case Err(failure) => Err(failure)
    case Ok(f) => Ok(Fill(Plus(flow, f.flow), f.end))
  }

  /** The swap as the tick table defines it. */
  ghost function Walk(e: Market, at: Position): Outcome
    requires ValidMarket(e) && Live(e, at)
  {
    SegmentsAdvance(e);
    WalkBy(e, Segments(e), at)
  }

  lemma SegmentsAdvance(e: Market)
    requires ValidMarket(e)
    ensures Advancing(e, Segments(e))
  {
    forall at | Live(e, at) && !Done(e.zeroToOne, at) && Segments(e)(at).Ok?
      ensures Advances(e, at, Segments(e)(at).value)
    {
      SegmentAdvances(e, at);
    }
  }

  /**
    Everything is spent or the limit is reached; input taken, fees and what remains add up to the input; and the
    price neither turned back nor passed the limit.
  */
  ghost predicate Completed(e: Market, at: Position, f: Fill) {
    && Done(e.zeroToOne, f.end) && Live(e, f.end)
    && at.remaining == f.flow.amountIn + f.flow.fees + f.end.remaining
    && (if e.zeroToOne then Limit(true) <= f.end.price <= at.price && f.end.tick <= at.tick
        else at.price <= f.end.price <= Limit(false) && at.tick <= f.end.tick)
  }

  lemma {:induction false} WalkByCompletes(e: Market, segments: Position -> Outcome, at: Position)
    requires Advancing(e, segments) && Live(e, at)
    ensures var r := WalkBy(e, segments, at); r.Ok? ==> Completed(e, at, r.value)
    decreases !Done(e.zeroToOne, at), TicksLeft(e.zeroToOne, at.tick)
  {
    if !Done(e.zeroToOne, at) && segments(at).Ok? {
      WalkByCompletes(e, segments, segments(at).value.end);
    }
  }

  lemma WalkCompletes(e: Market, at: Position)
    requires ValidMarket(e) && Live(e, at)
    ensures var r := Walk(e, at); r.Ok? ==> Completed(e, at, r.value)
  {
    SegmentsAdvance(e);
    WalkByCompletes(e, Segments(e), at);
  }

  /** With every prefix sum in range, as on chain, the liquidity checks never fail. */
  lemma LiquidityChecksNeverFail(e: Market, at: Position)
    requires ValidMarket(e) && Live(e, at)
    requires forall t :: MIN_TICK <= t < MAX_TICK ==> FitsU128(e.p, t)
    ensures var r := Walk(e, at); r.Err? ==> r.error == StepFailed
  {
    SegmentsAdvance(e);
    forall at | Live(e, at) && !Done(e.zeroToOne, at) && Segments(e)(at).Err?
      ensures Segments(e)(at).error == StepFailed
    {
      SegmentFits(e, at);
    }
    WalkByError(e, Segments(e), at, StepFailed);
  }

  lemma {:induction false} WalkByError(e: Market, segments: Position -> Outcome, at: Position, only: Failure)
    requires Advancing(e, segments) && Live(e, at)
    requires forall at :: Live(e, at) && !Done(e.zeroToOne, at) && segments(at).Err? ==> segments(at).error == only
    ensures var r := WalkBy(e, segments, at); r.Err? ==> r.error == only
    decreases !Done(e.zeroToOne, at), TicksLeft(e.zeroToOne, at.tick)
  {
    if !Done(e.zeroToOne, at) && segments(at).Ok? {
      WalkByError(e, segments, segments(at).value.end, only);
    }
  }

  lemma SegmentFits(e: Market, at: Position)
    requires ValidMarket(e) && Live(e, at) && !Done(e.zeroToOne, at)
    requires forall t :: MIN_TICK <= t < MAX_TICK ==> FitsU128(e.p, t)
    ensures var r := Segment(e, at); r.Err? ==> r.error == StepFailed
  {
    var b := Boundary(e.m, e.p, at.tick, e.zeroToOne);
    var target, liquidity := Target(e.m, b, e.zeroToOne), Prefix(e.p, at.tick);
    assert StepsExactIn(e.m, at.price, target, liquidity, at.remaining, e.fee);
    var step := e.m.step(at.price, target, liquidity, at.remaining, e.fee);
    if step.Some? {
      SegmentMoves(e.m, e.p, e.zeroToOne, at.price, at.tick, at.remaining, step.value);
      assert FitsU128(e.p, NewTick(e.m, at.price, at.tick, step.value.price, b, e.zeroToOne));
    }
  }

  // ----- the loop -----

  function NegateI128(i: int): int {
    if i == I128_MIN then I128_MIN else -i
  }

  /** The running liquidity after crossing an initialized tick, with the program's checked arithmetic. */
  function CrossTick(liquidity: int, net: int, zeroToOne: bool): Result<int, Failure> {
    var liquidityNet := if zeroToOne then NegateI128(net) else net;
    if liquidityNet < 0 then
      if liquidity < -liquidityNet then Err(InsufficientLiquidity) else Ok(liquidity + liquidityNet)
    else
      if liquidity + liquidityNet >= U128_BOUND then Err(LiquidityOverflow) else Ok(liquidity + liquidityNet)
  }

  lemma CrossTickChecks(liquidity: int, net: int, zeroToOne: bool)
    requires 0 <= liquidity < U128_BOUND && I128_MIN < net <= I128_MAX
    ensures CrossTick(liquidity, net, zeroToOne) == CheckU128(if zeroToOne then liquidity - net else liquidity + net)
  {
  }

  /** Crossing a boundary tick turns one prefix sum into the next, or fails exactly when that one is out of range. */
  lemma {:induction false} CrossTickIsPrefix(m: TickMath, p: Ticks, tick: int, zeroToOne: bool)
    requires Contracts(m) && ValidTicks(p) && MIN_TICK <= tick < MAX_TICK && FitsU128(p, tick)
    requires MIN_TICK < Boundary(m, p, tick, zeroToOne) < MAX_TICK
    ensures var (b, initialized) := m.nextTick(p.word, tick, p.spacing, zeroToOne);
            var next := Prefix(p, if zeroToOne then b - 1 else b);
            && b == Boundary(m, p, tick, zeroToOne)
            && (!initialized ==> next == Prefix(p, tick))
            && (initialized ==> CrossTick(Prefix(p, tick), p.net(b), zeroToOne) == CheckU128(next))
  {
    BoundaryIsNext(m, p, tick, zeroToOne);
    var b := Boundary(m, p, tick, zeroToOne);
    var atTick, atB, below := Prefix(p, tick), Prefix(p, b), Prefix(p, b - 1);
    assert atB == below + Crossing(p, b);
    assert if zeroToOne then atB == atTick else below == atTick;
    CrossTickChecks(atTick, p.net(b), zeroToOne);
  }

  /** Searching the three loaded words finds what searching the whole bitmap finds. */
  lemma LoadedWordsSuffice(m: TickMath, p: Ticks, tick: int, zeroToOne: bool)
    requires Contracts(m) && ValidTicks(p) && MIN_TICK <= tick < MAX_TICK
    ensures m.nextTick(ThreeWords(p, tick), tick, p.spacing, zeroToOne) == m.nextTick(p.word, tick, p.spacing, zeroToOne)
  {
    ThreeWordsSuffice(p, tick, zeroToOne);
    assert SearchesOneWord(m, p.word, tick, p.spacing, zeroToOne);
    assert SearchesOneWord(m, ThreeWords(p, tick), tick, p.spacing, zeroToOne);
  }

  /** The signed, wrapping accumulator holds minus the output, modulo 2^256. */
  ghost predicate Accumulates(calculated: int, out: nat) {
    ToRaw(-calculated) == ToRaw(out)
  }

  lemma SameRaw(i: int, j: int, k: int)
    requires i == j + k * MODULUS
    ensures ToRaw(i) == ToRaw(j)
  {
  }

  lemma AccumulateOne(calculated: int, out: nat, amount: Word)
    requires Accumulates(calculated, out)
    ensures Accumulates(ToSigned(ToRaw(calculated - ToSigned(amount))), out + amount)
  {
    var next := calculated - ToSigned(amount);
    var w := ToRaw(next);
    var q, k, j := next / MODULUS, -calculated / MODULUS, out / MODULUS;
    var signed := ToSigned(w);
    assert next == q * MODULUS + w && -calculated == k * MODULUS + ToRaw(out) && out == j * MODULUS + ToRaw(out);
    var a, b := if amount < SIGN then 0 else 1, if w < SIGN then 0 else 1;
    SameRaw(-signed, out + amount, q + b - a + k - j);
  }

  /** The program subtracts each output as a signed word. */
  method Accumulate(calculated: int, amount: Word, ghost flow: Flow, ghost more: Flow) returns (next: int)
    requires Accumulates(calculated, flow.out) && more.out == amount
    ensures Accumulates(next, Plus(flow, more).out)
  {
    next := ToSigned(ToRaw(calculated - ToSigned(amount)));
    AccumulateOne(calculated, flow.out, amount);
  }

  lemma SpendWithoutWrap(s: Step, remaining: int)
    requires s.amountIn + s.feeAmount <= remaining < SIGN
    ensures ToSigned(Add(s.amountIn, s.feeAmount)) == s.amountIn + s.feeAmount
  {
  }

  /** Peeling one segment off the rest of the walk. */
  lemma {:induction false} WalkByOnce(e: Market, segments: Position -> Outcome, at: Position, flow: Flow)
    requires Advancing(e, segments) && Live(e, at) && !Done(e.zeroToOne, at)
    ensures var whole, r := Before(flow, WalkBy(e, segments, at)), segments(at);
            && (r.Err? ==> whole == r)
            && (r.Ok? ==>
                  && Live(e, r.value.end) && whole == Before(Plus(flow, r.value.flow), WalkBy(e, segments, r.value.end))
                  && (Done(e.zeroToOne, r.value.end)
                      || 0 <= TicksLeft(e.zeroToOne, r.value.end.tick) < TicksLeft(e.zeroToOne, at.tick)))
  {
  }

  /** Tick and liquidity after a step that moved the price from `start` to `price`. */
  method MoveTick(m: TickMath, p: Ticks, start: Word, price: Word, tickNext: int, initialized: bool, tick: int,
                  liquidity: int, zeroToOne: bool)
    returns (r: Result<(int, int), Failure>)
    requires Contracts(m) && ValidTicks(p) && MIN_TICK <= tick < MAX_TICK
    requires liquidity == Prefix(p, tick) && FitsU128(p, tick)
    requires tickNext == Boundary(m, p, tick, zeroToOne)
    requires initialized == m.nextTick(p.word, tick, p.spacing, zeroToOne).1
    requires price == m.sqrtRatio(tickNext) ==> MIN_TICK < tickNext < MAX_TICK
    requires price != m.sqrtRatio(tickNext) ==> Prefix(p, NewTick(m, start, tick, price, tickNext, zeroToOne)) == liquidity
    ensures var tick' := NewTick(m, start, tick, price, tickNext, zeroToOne);
            match CheckU128(Prefix(p, tick'))
            case Ok(l) => r == Ok((tick', l))
            case Err(e) => r == Err(e)
  {
    var newTick, newLiquidity := tick, liquidity;
    if price == m.sqrtRatio(tickNext) {
      CrossTickIsPrefix(m, p, tick, zeroToOne);
      if initialized {
        var crossed := CrossTick(liquidity, p.net(tickNext), zeroToOne);
        if crossed.Err? {
          return Err(crossed.error);
        }
        newLiquidity := crossed.value;
      }
      newTick := if zeroToOne then tickNext - 1 else tickNext;
    } else if price != start {
      newTick := m.tickAt(price);
    }
    return Ok((newTick, newLiquidity));
  }

  datatype Swapped = Swapped(amountOut: Word, end: Position, liquidity: int)

  /** One pass of the loop body: the step, then tick and liquidity. */
  method SwapStep(e: Market, at: Position, liquidity: int) returns (r: Result<Swapped, Failure>)
    requires ValidMarket(e) && Live(e, at) && !Done(e.zeroToOne, at)
    requires liquidity == Prefix(e.p, at.tick) && FitsU128(e.p, at.tick)
    ensures match Segment(e, at)
            case Err(failure) => r == Err(failure)
            case Ok(f) => f.flow.out < MODULUS && r == Ok(Swapped(f.flow.out, f.end, Prefix(e.p, f.end.tick))) && FitsU128(e.p, f.end.tick)
  {
    hide Prefix, ThreeWords;
    var limit := Limit(e.zeroToOne);
    LoadedWordsSuffice(e.m, e.p, at.tick, e.zeroToOne);
    var (tickNext, initialized) := e.m.nextTick(ThreeWords(e.p, at.tick), at.tick, e.p.spacing, e.zeroToOne);
    tickNext := Clamp(tickNext);
    var priceNext := e.m.sqrtRatio(tickNext);
    var target := if e.zeroToOne then (if priceNext < limit then limit else priceNext)
                  else (if priceNext > limit then limit else priceNext);
    var step := e.m.step(at.price, target, liquidity, at.remaining, e.fee);
    if step == None {
      return Err(StepFailed);
    }
    var s := step.value;
    assert StepsExactIn(e.m, at.price, target, liquidity, at.remaining, e.fee);
    SegmentMoves(e.m, e.p, e.zeroToOne, at.price, at.tick, at.remaining, s);
    var moved := MoveTick(e.m, e.p, at.price, s.price, tickNext, initialized, at.tick, liquidity, e.zeroToOne);
    if moved.Err? {
      return Err(moved.error);
    }
    SpendWithoutWrap(s, at.remaining);
    var remaining := at.remaining - ToSigned(Add(s.amountIn, s.feeAmount));
    return Ok(Swapped(s.amountOut, At(s.price, moved.value.0, remaining), moved.value.1));
  }

  /**
    What holds at every loop head: the running liquidity is the prefix sum at the current tick, and the flow so far
    followed by the walk from here is the whole walk.
  */
  ghost predicate OnTrack(e: Market, whole: Outcome, flow: Flow, at: Position, liquidity: int, calculated: int) {
    && ValidMarket(e) && Live(e, at)
    && liquidity == Prefix(e.p, at.tick) && FitsU128(e.p, at.tick)
    && Accumulates(calculated, flow.out)
    && whole == Before(flow, Walk(e, at))
  }

  /** The flow with that of the next segment. */
  ghost function FlowAfter(e: Market, at: Position, flow: Flow): Flow {
    match Segment(e, at)
    case Err(_) => flow
    case Ok(f) => Plus(flow, f.flow)
  }

  datatype State = State(at: Position, liquidity: int, calculated: int)

  /** One turn of the loop. */
  method Turn(e: Market, s: State, ghost whole: Outcome, ghost flow: Flow) returns (r: Result<State, Failure>)
    requires OnTrack(e, whole, flow, s.at, s.liquidity, s.calculated) && !Done(e.zeroToOne, s.at)
    ensures match r
            case Err(failure) => whole == Err(failure)
            case Ok(t) =>
              && OnTrack(e, whole, FlowAfter(e, s.at, flow), t.at, t.liquidity, t.calculated)
              && (Done(e.zeroToOne, t.at) || 0 <= TicksLeft(e.zeroToOne, t.at.tick) < TicksLeft(e.zeroToOne, s.at.tick))
  {
    SegmentsAdvance(e);
    WalkByOnce(e, Segments(e), s.at, flow);
    var step := SwapStep(e, s.at, s.liquidity);
    if step.Err? {
      return Err(step.error);
    }
    var calculated := Accumulate(s.calculated, step.value.amountOut, flow, Segment(e, s.at).value.flow);
    r := Ok(State(step.value.end, step.value.liquidity, calculated));
  }

  /**
    The loop computes what the reference walk defines, over every tick table and every price: its running
    liquidity is the prefix sum at each loop head, and its output is the walk's, modulo 2^256.
  */
  method UniswapV3Out(e: Market, slot0: Slot0, amountIn: Word) returns (r: Result<Word, Failure>)
    requires ValidMarket(e) && amountIn < SIGN
    requires Live(e, At(slot0.price, slot0.tick, amountIn))
    requires slot0.liquidity == Prefix(e.p, slot0.tick) && FitsU128(e.p, slot0.tick)
    ensures match Walk(e, At(slot0.price, slot0.tick, amountIn))
            case Ok(f) => r == Ok(ToRaw(f.flow.out))
            case Err(failure) => r == Err(failure)
  {
    if amountIn == 0 {
      return Ok(0);
    }
    var s := State(At(slot0.price, slot0.tick, ToSigned(amountIn)), slot0.liquidity, 0);
    ghost var whole := Walk(e, s.at);
    ghost var flow := Flow(0, 0, 0);
    while s.at.remaining != 0 && s.at.price != Limit(e.zeroToOne)
      invariant OnTrack(e, whole, flow, s.at, s.liquidity, s.calculated)
      decreases !Done(e.zeroToOne, s.at), TicksLeft(e.zeroToOne, s.at.tick)
    {
      var next := Turn(e, s, whole, flow);
      if next.Err? {
        return Err(next.error);
      }
      flow := FlowAfter(e, s.at, flow);
      s := next.value;
    }
    return Ok(ToRaw(-s.calculated));
  }
}
