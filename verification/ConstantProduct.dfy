/**
  The constant-product swap (Uniswap v2 Core whitepaper, section 3.2.1) and what it implies for a path of
  swaps.  The formula is the one used off chain by the calculator and on chain by the two contracts.
*/
module ConstantProduct {
  import opened Arithmetic
  import opened Outcomes
  import opened U256

  const SCALAR: nat := 10_000

  /** Reserves are 112-bit on chain; amounts in are taken below 2^128. */
  const RESERVE_BOUND: nat := 0x1_0000_0000_0000_0000_0000_0000_0000
  const AMOUNT_BOUND: nat := 0x1_0000_0000_0000_0000_0000_0000_0000_0000

  /** `uniswap_v2_out` on directed reserves; None stands for the division by zero that aborts the program. */
  function V2Out(amountIn: Word, reserveIn: Word, reserveOut: Word, fee: Word): Option<Word> {
    var amountInWithFee := Mul(amountIn, fee);
    var numerator := Mul(amountInWithFee, reserveOut);
    var denominator := Add(Mul(reserveIn, SCALAR), amountInWithFee);
    if denominator == 0 then None else Some(Div(numerator, denominator))
  }

  predicate InBounds(amountIn: Word, reserveIn: Word, reserveOut: Word, fee: Word) {
    amountIn < AMOUNT_BOUND && reserveIn < RESERVE_BOUND && reserveOut < RESERVE_BOUND && fee <= SCALAR
  }

  /** The fee-adjusted product does not drop when `out` is paid. */
  predicate KeepsProduct(amountIn: int, reserveIn: int, reserveOut: int, fee: int, out: int) {
    (reserveIn * SCALAR + amountIn * fee) * (reserveOut - out) >= reserveIn * SCALAR * reserveOut
  }

  lemma ProductFits(a: Word, b: Word, m: nat, n: nat)
    requires a <= m && b <= n && m * n < MODULUS
    ensures Mul(a, b) == a * b <= m * n
  {
    MulMono(a, m, b, n);
    MulExact(a, b);
  }

  lemma QuotientOfWords(numerator: Word, denominator: Word, n: nat, d: nat)
    requires numerator == n && denominator == d && d != 0
    ensures Div(numerator, denominator) == n / d
  {
    DivIsFloor(numerator, denominator);
  }

  /** The fee-adjusted reserve after the input. */
  function Denominator(amountIn: nat, reserveIn: nat, fee: nat): nat {
    reserveIn * SCALAR + amountIn * fee
  }

  /** The output before anything is rounded to words: the input's share of the fee-adjusted reserves. */
  function Share(amountIn: nat, reserveIn: nat, reserveOut: nat, fee: nat): int
    requires Denominator(amountIn, reserveIn, fee) > 0
  {
    LongDivision(Times(Times(amountIn, fee), reserveOut), Denominator(amountIn, reserveIn, fee)).0
  }

  lemma ShareIsQuotient(amountIn: nat, reserveIn: nat, reserveOut: nat, fee: nat)
    requires Denominator(amountIn, reserveIn, fee) > 0
    ensures Share(amountIn, reserveIn, reserveOut, fee)
         == amountIn * fee * reserveOut / (reserveIn * SCALAR + amountIn * fee)
  {
    hide Times, LongDivision;
    TimesIsProduct(amountIn, fee);
    TimesIsProduct(amountIn * fee, reserveOut);
    LongDivisionIsFloor(amountIn * fee * reserveOut, reserveIn * SCALAR + amountIn * fee);
  }

  lemma ProductsFit(amountIn: Word, reserveIn: Word, reserveOut: Word, fee: Word)
    requires InBounds(amountIn, reserveIn, reserveOut, fee)
    ensures amountIn * fee * reserveOut < MODULUS && Denominator(amountIn, reserveIn, fee) < MODULUS
  {
    MulMono(amountIn, AMOUNT_BOUND, fee, SCALAR);
    MulMono(amountIn * fee, AMOUNT_BOUND * SCALAR, reserveOut, RESERVE_BOUND);
  }

  /** What the formula computes; a proof about it needs no more than this, and `Share` stays folded. */
  lemma OutputValue(amountIn: Word, reserveIn: Word, reserveOut: Word, fee: Word)
    requires InBounds(amountIn, reserveIn, reserveOut, fee)
    ensures V2Out(amountIn, reserveIn, reserveOut, fee)
         == if Denominator(amountIn, reserveIn, fee) == 0 then None else Some(Share(amountIn, reserveIn, reserveOut, fee))
  {
    if Denominator(amountIn, reserveIn, fee) > 0 {
      ShareIsQuotient(amountIn, reserveIn, reserveOut, fee);
    }
    hide Times, LongDivision, Share;
    ProductFits(amountIn, fee, AMOUNT_BOUND, SCALAR);
    var a: Word := amountIn * fee;
    ProductFits(a, reserveOut, AMOUNT_BOUND * SCALAR, RESERVE_BOUND);
    var n: Word, d: Word := a * reserveOut, reserveIn * SCALAR + a;
    ProductFits(reserveIn, SCALAR, RESERVE_BOUND, SCALAR);
    assert Add(Mul(reserveIn, SCALAR), a) == d;
    if d != 0 {
      QuotientOfWords(n, d, a * reserveOut, d);
    }
  }

  /** Nothing wraps: this is also why the contracts' unchecked arithmetic is safe. */
  lemma NothingWraps(amountIn: Word, reserveIn: Word, reserveOut: Word, fee: Word)
    requires InBounds(amountIn, reserveIn, reserveOut, fee)
    ensures amountIn * fee * reserveOut < MODULUS && Denominator(amountIn, reserveIn, fee) < MODULUS
    ensures V2Out(amountIn, reserveIn, reserveOut, fee)
         == if Denominator(amountIn, reserveIn, fee) == 0 then None else Some(Share(amountIn, reserveIn, reserveOut, fee))
  {
    hide V2Out, Share, Denominator;
    ProductsFit(amountIn, reserveIn, reserveOut, fee);
    OutputValue(amountIn, reserveIn, reserveOut, fee);
  }

  lemma LargestShare(amountIn: nat, reserveIn: nat, reserveOut: nat, fee: nat, out: nat)
    requires Denominator(amountIn, reserveIn, fee) > 0
    ensures out <= Share(amountIn, reserveIn, reserveOut, fee) <==> KeepsProduct(amountIn, reserveIn, reserveOut, fee, out)
  {
    hide Share;
    ShareIsQuotient(amountIn, reserveIn, reserveOut, fee);
    LargestArithmetic(amountIn * fee, reserveIn * SCALAR, reserveOut, out);
  }

  lemma LargestArithmetic(a: nat, s: nat, reserve: nat, out: nat)
    requires s + a > 0
    ensures out <= a * reserve / (s + a) <==> (s + a) * (reserve - out) >= s * reserve
  {
    var n, d := a * reserve, s + a;
    FloorIsGreatest(n, d, out);
    assert d * (reserve - out) == d * reserve - out * d;
    assert d * reserve == s * reserve + n;
  }

  /** The output is the largest amount that keeps the product. */
  lemma OutputIsLargest(amountIn: Word, reserveIn: Word, reserveOut: Word, fee: Word, out: nat)
    requires InBounds(amountIn, reserveIn, reserveOut, fee) && V2Out(amountIn, reserveIn, reserveOut, fee).Some?
    ensures out <= V2Out(amountIn, reserveIn, reserveOut, fee).value <==> KeepsProduct(amountIn, reserveIn, reserveOut, fee, out)
  {
    hide V2Out, KeepsProduct, Share, Denominator;
    OutputValue(amountIn, reserveIn, reserveOut, fee);
    LargestShare(amountIn, reserveIn, reserveOut, fee, out);
  }

  lemma ShareBounds(amount: nat, fee: nat, rIn: nat, rOut: nat)
    requires fee <= SCALAR && Denominator(amount, rIn, fee) > 0
    ensures var out := Share(amount, rIn, rOut, fee);
            0 <= out <= rOut && (rIn > 0 && rOut > 0 ==> out < rOut) && out * rIn <= amount * rOut
  {
    hide Share;
    ShareIsQuotient(amount, rIn, rOut, fee);
    var a, s := amount * fee, rIn * SCALAR;
    FloorIsGreatest(a * rOut, s + a, 0);
    FloorBounds(a * rOut, s + a);
    var out := a * rOut / (s + a);
    BelowReserve(out, a, s, rOut);
    MulMono(amount, amount, fee, SCALAR);
    SpotArithmetic(out, a, s, amount, rIn, rOut);
  }

  lemma SpotArithmetic(out: nat, a: nat, s: nat, amount: nat, rIn: nat, rOut: nat)
    requires out * (s + a) <= a * rOut && a <= amount * SCALAR && s == rIn * SCALAR
    ensures out * rIn <= amount * rOut
  {
    MulMono(a, amount * SCALAR, rOut, rOut);
    MulMono(out, out, s, s + a);
    assert out * s == SCALAR * (out * rIn);
    assert amount * SCALAR * rOut == SCALAR * (amount * rOut);
  }

  lemma BelowReserve(out: nat, a: nat, s: nat, reserve: nat)
    requires s + a > 0 && out * (s + a) <= a * reserve
    ensures out <= reserve && (s > 0 && reserve > 0 ==> out < reserve)
  {
    assert reserve * (s + a) == reserve * s + a * reserve;
    if out > reserve {
      MulMono(reserve + 1, out, s + a, s + a);
    }
    if s > 0 && reserve > 0 {
      MulMono(1, reserve, 1, s);
    }
  }

  /** It stays below the reserve, and at most in proportion to the spot price. */
  lemma OutputBounds(amountIn: Word, reserveIn: Word, reserveOut: Word, fee: Word)
    requires InBounds(amountIn, reserveIn, reserveOut, fee) && V2Out(amountIn, reserveIn, reserveOut, fee).Some?
    ensures var out := V2Out(amountIn, reserveIn, reserveOut, fee).value;
            && out <= reserveOut && (reserveIn > 0 && reserveOut > 0 ==> out < reserveOut)
            && out * reserveIn <= amountIn * reserveOut
  {
    hide V2Out, Share, Denominator;
    OutputValue(amountIn, reserveIn, reserveOut, fee);
    ShareBounds(amountIn, fee, reserveIn, reserveOut);
  }

  /** A pool with a reserve on the input side always answers. */
  lemma SomeOutput(amountIn: Word, reserveIn: Word, reserveOut: Word, fee: Word)
    requires InBounds(amountIn, reserveIn, reserveOut, fee) && reserveIn > 0
    ensures V2Out(amountIn, reserveIn, reserveOut, fee).Some?
  {
    PositiveDenominator(amountIn, reserveIn, fee);
    hide V2Out, Share, Denominator;
    OutputValue(amountIn, reserveIn, reserveOut, fee);
  }

  lemma PositiveDenominator(amountIn: nat, reserveIn: nat, fee: nat)
    requires reserveIn > 0 || (amountIn > 0 && fee > 0)
    ensures Denominator(amountIn, reserveIn, fee) > 0
  {
    MulMono(0, amountIn, 0, fee);
    if amountIn > 0 && fee > 0 {
      MulMono(1, amountIn, 1, fee);
    }
  }

  lemma ZeroInZeroOut(reserveIn: Word, reserveOut: Word, fee: Word)
    requires 0 < reserveIn < RESERVE_BOUND
    ensures V2Out(0, reserveIn, reserveOut, fee) == Some(0)
  {
    assert Mul(0, fee) == 0 && Mul(0, reserveOut) == 0;
    ProductFits(reserveIn, SCALAR, RESERVE_BOUND, SCALAR);
    DivIsFloor(0, reserveIn * SCALAR);
    QuotientAtMost(0, reserveIn * SCALAR, 0, 1);
  }

  // ----- a path of swaps -----

  datatype Hop = Hop(reserveIn: Word, reserveOut: Word, fee: Word)

  predicate ValidHop(h: Hop) {
    0 < h.reserveIn < RESERVE_BOUND && 0 < h.reserveOut < RESERVE_BOUND && h.fee <= SCALAR
  }

  predicate ValidHops(hops: seq<Hop>) {
    forall i :: 0 <= i < |hops| ==> ValidHop(hops[i])
  }

  /** The amount after all hops, each fed with the output of the one before. */
  function PathOut(hops: seq<Hop>, amount: Word): Word {
    if hops == [] then amount
    else
      match V2Out(amount, hops[0].reserveIn, hops[0].reserveOut, hops[0].fee)
      case None => 0
      case Some(out) => PathOut(hops[1..], out)
  }

  function ProductIn(hops: seq<Hop>): nat {
    if hops == [] then 1 else hops[0].reserveIn * ProductIn(hops[1..])
  }

  function ProductOut(hops: seq<Hop>): nat {
    if hops == [] then 1 else hops[0].reserveOut * ProductOut(hops[1..])
  }

  /** Along any path the amount grows at most by the product of the spot prices. */
  lemma {:induction false} PathBounded(hops: seq<Hop>, amount: Word)
    requires ValidHops(hops) && amount < AMOUNT_BOUND
    ensures PathOut(hops, amount) * ProductIn(hops) <= amount * ProductOut(hops)
    decreases |hops|
  {
    if hops != [] {
      var h, rest := hops[0], hops[1..];
      hide V2Out;
      SomeOutput(amount, h.reserveIn, h.reserveOut, h.fee);
      OutputBounds(amount, h.reserveIn, h.reserveOut, h.fee);
      var out := V2Out(amount, h.reserveIn, h.reserveOut, h.fee).value;
      PathBounded(rest, out);
      ChainBounds(PathOut(rest, out), out, amount, h.reserveIn, h.reserveOut, ProductIn(rest), ProductOut(rest));
    }
  }

  lemma ChainBounds(last: nat, mid: nat, first: nat, rIn: nat, rOut: nat, pIn: nat, pOut: nat)
    requires last * pIn <= mid * pOut && mid * rIn <= first * rOut
    ensures last * (rIn * pIn) <= first * (rOut * pOut)
  {
    MulMono(last * pIn, mid * pOut, rIn, rIn);
    MulMono(mid * rIn, first * rOut, pOut, pOut);
    assert last * pIn * rIn == last * (rIn * pIn);
    assert mid * pOut * rIn == mid * rIn * pOut;
    assert first * rOut * pOut == first * (rOut * pOut);
  }

  /** A calculated profit means that the product of the spot prices along the path exceeds one. */
  lemma {:induction false} ProfitNeedsSpotPrices(hops: seq<Hop>, amount: Word)
    requires ValidHops(hops) && amount < AMOUNT_BOUND && PathOut(hops, amount) > amount
    ensures ProductOut(hops) > ProductIn(hops)
  {
    hide *;
    PathBounded(hops, amount);
    PositiveProduct(hops);
    MulMono(amount + 1, PathOut(hops, amount), ProductIn(hops), ProductIn(hops));
    if ProductOut(hops) <= ProductIn(hops) {
      MulMono(amount, amount, ProductOut(hops), ProductIn(hops));
    }
  }

  lemma {:induction false} PositiveProduct(hops: seq<Hop>)
    requires ValidHops(hops)
    ensures ProductIn(hops) > 0
  {
    if hops != [] {
      PositiveProduct(hops[1..]);
      MulMono(1, hops[0].reserveIn, 1, ProductIn(hops[1..]));
    }
  }
}
