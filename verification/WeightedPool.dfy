/**
  The weighted-pool swap and its directed rounding.  The fixed-point helpers wrap like the program's 256-bit
  words; for balances below 2^112 nothing wraps, and the rounding always favours the pool.
*/
module WeightedPool {
  import opened Arithmetic
  import opened Outcomes
  import opened U256
  import LogExpMath

  const ONE: nat := 1_000_000_000_000_000_000

  function DivUp(a: Word, b: Word): Word
    requires a == 0 || b != 0
  {
    if a == 0 then 0 else Add(Div(Sub(Mul(a, ONE), 1), b), 1)
  }

  function DivDown(a: Word, b: Word): Word
    requires a == 0 || b != 0
  {
    if a == 0 then 0 else Div(Mul(a, ONE), b)
  }

  function MulUp(a: Word, b: Word): Word {
    var product := Mul(a, b);
    if product == 0 then 0 else Add(Sub(product, 1) / ONE, 1)
  }

  function MulDown(a: Word, b: Word): Word {
    Mul(a, b) / ONE
  }

  function Complement(x: Word): Word {
    if x < ONE then ONE - x else 0
  }

  const MAX_POW_RELATIVE_ERROR: nat := 10_000

  /** None where the general power fails its assertions. */
  function PowUp(x: Word, y: Word): Option<Word> {
    if y == ONE then Some(x)
    else if y == 2 * ONE then Some(MulUp(x, x))
    else if y == 4 * ONE then var square := MulUp(x, x); Some(MulUp(square, square))
    else
      match LogExpMath.Power(x, y)
      case None => None
      case Some(raw) => Some(Add(raw, Add(MulUp(raw, MAX_POW_RELATIVE_ERROR), 1)))
  }

  function Exp(b: nat, n: nat): nat {
    if n == 0 then 1 else b * Exp(b, n - 1)
  }

  // ----- what each helper rounds to -----

  /** Balances and amounts below this never wrap against the fixed-point one. */
  const BOUND: nat := 0x1_0000_0000_0000_0000_0000_0000_0000_0000

  lemma CeilingBounds(n: nat, d: nat)
    requires n > 0 && d > 0
    ensures var q := (n - 1) / d + 1; q > 0 && (q - 1) * d < n <= q * d
  {
    FloorIsGreatest(n - 1, d, 0);
    FloorBounds(n - 1, d);
  }

  /** The base is rounded up and never exceeds one. */
  lemma DivUpIsCeiling(a: Word, b: Word)
    requires a <= b < BOUND && b > 0
    ensures a * ONE <= DivUp(a, b) * b && DivUp(a, b) <= ONE
    ensures a > 0 ==> (DivUp(a, b) - 1) * b < a * ONE
  {
    if a > 0 {
      var n := a * ONE;
      MulExact(a, ONE);
      assert Sub(n, 1) == n - 1;
      DivIsFloor(n - 1, b);
      CeilingBounds(n, b);
      MulMono(a, b, ONE, ONE);
      QuotientAtMost(n - 1, b, ONE - 1, b);
      assert Add((n - 1) / b, 1) == (n - 1) / b + 1;
    }
  }

  lemma MulUpIsCeiling(a: Word, b: Word)
    requires a < BOUND && b <= ONE
    ensures a * b <= MulUp(a, b) * ONE < a * b + ONE && MulUp(a, b) <= a
  {
    MulMono(a, a, b, ONE);
    var n := a * b;
    MulExact(a, b);
    if n > 0 {
      CeilingBounds(n, ONE);
      assert Sub(n, 1) == n - 1;
    }
  }

  /** Paying out a share of the complement leaves at least the share `power` behind. */
  lemma PayoutLeavesShare(balance: Word, power: Word)
    requires balance < BOUND
    ensures var out := MulDown(balance, Complement(power));
            out <= balance && (if power < ONE then (balance - out) * ONE >= balance * power else out == 0)
  {
    var c := Complement(power);
    MulMono(balance, balance, c, ONE);
    MulExact(balance, c);
    if power < ONE {
      assert balance * c == balance * ONE - balance * power;
    }
  }

  // ----- the invariant for integral weight ratios -----

  /** `power` is at least (b/d)^n, where bn and dn are the two powers. */
  predicate AtLeastRatio(power: nat, bn: nat, dn: nat) {
    power * dn >= ONE * bn
  }

  /** Squaring with rounding up keeps the bound. */
  lemma SquareKeepsRatio(p: nat, q: nat, bn: nat, dn: nat)
    requires AtLeastRatio(p, bn, dn) && q * ONE >= p * p
    ensures AtLeastRatio(q, bn * bn, dn * dn)
  {
    MulMono(ONE * bn, p * dn, ONE * bn, p * dn);
    MulMono(p * p, q * ONE, dn * dn, dn * dn);
    assert (p * dn) * (p * dn) == (p * p) * (dn * dn);
    assert (ONE * bn) * (ONE * bn) == ONE * (ONE * (bn * bn));
    assert (q * ONE) * (dn * dn) == ONE * (q * (dn * dn));
  }

  /** With such a power, the product of balances to their weights does not drop. */
  lemma PayoutKeepsInvariant(balance: Word, power: Word, bn: nat, dn: nat)
    requires balance < BOUND && AtLeastRatio(power, bn, dn) && bn <= dn
    ensures var out := MulDown(balance, Complement(power)); out <= balance && dn * (balance - out) >= bn * balance
  {
    PayoutLeavesShare(balance, power);
    var left := balance - MulDown(balance, Complement(power));
    if power < ONE {
      ShareArithmetic(balance, power, left, bn, dn);
    } else {
      MulMono(bn, dn, balance, balance);
    }
  }

  lemma ShareArithmetic(balance: nat, power: nat, left: nat, bn: nat, dn: nat)
    requires balance * power <= left * ONE && ONE * bn <= power * dn
    ensures dn * left >= bn * balance
  {
    MulMono(balance * power, left * ONE, dn, dn);
    MulMono(balance, balance, ONE * bn, power * dn);
    assert balance * power * dn == balance * (power * dn);
    assert balance * (ONE * bn) == ONE * (bn * balance);
    assert left * ONE * dn == ONE * (dn * left);
  }

  /** The rounded-up power, for ratios 1, 2 and 4. */
  lemma {:induction false} IntegralPower(b: Word, d: Word, n: nat)
    requires b <= d < BOUND && d > 0 && n in {1, 2, 4}
    ensures var power := PowUp(DivUp(b, d), n * ONE);
            power.Some? && AtLeastRatio(power.value, Exp(b, n), Exp(d, n)) && Exp(b, n) <= Exp(d, n)
  {
    var base := DivUp(b, d);
    DivUpIsCeiling(b, d);
    MulUpIsCeiling(base, base);
    var square := MulUp(base, base);
    MulUpIsCeiling(square, square);
    SquareKeepsRatio(base, square, b, d);
    SquareKeepsRatio(square, MulUp(square, square), b * b, d * d);
    ExpValues(b);
    ExpValues(d);
    MulMono(b, d, b, d);
    MulMono(b * b, d * d, b * b, d * d);
  }

  lemma {:induction false} ExpValues(b: nat)
    ensures Exp(b, 1) == b && Exp(b, 2) == b * b && Exp(b, 4) == b * b * (b * b)
  {
    assert Exp(b, 2) == b * Exp(b, 1);
    assert Exp(b, 3) == b * Exp(b, 2);
    assert Exp(b, 4) == b * Exp(b, 3);
    assert b * (b * (b * b)) == b * b * (b * b);
  }

  // ----- the swap -----

  datatype Pool = Pool(balanceIn: Word, balanceOut: Word, weightIn: Word, weightOut: Word, swapFee: Word, factor: Word)

  /** The scaled input less the fee. */
  function NetInput(p: Pool, amountIn: Word): Word {
    var scaled := Mul(amountIn, p.factor);
    Sub(scaled, MulUp(scaled, p.swapFee))
  }

  /** The input as the formula uses it: scaled, less the fee, and scaled again by the program. */
  function AmountUsed(p: Pool, amountIn: Word): Word {
    Mul(NetInput(p, amountIn), p.factor)
  }

  /** A fee of at most the input, rounded up. */
  predicate IsFee(scaled: nat, swapFee: nat, fee: int) {
    0 <= fee <= scaled && scaled * swapFee <= fee * ONE < scaled * swapFee + ONE
  }

  /** The fee is rounded up, and never takes more than the input. */
  lemma FeeIsCeiling(p: Pool, amountIn: Word)
    requires amountIn * p.factor < BOUND && p.swapFee <= ONE
    ensures IsFee(amountIn * p.factor, p.swapFee, amountIn * p.factor - NetInput(p, amountIn))
  {
    MulExact(amountIn, p.factor);
    var scaled: Word := amountIn * p.factor;
    MulUpIsCeiling(scaled, p.swapFee);
  }

  lemma TwiceArithmetic(net: nat, f: nat)
    requires f > 0
    ensures net * f == net / f <==> f == 1 || net == 0
  {
    QuotientAtMost(net, f, net, 1);
    if net > 0 && f > 1 {
      MulMono(net, net, 2, f);
    }
  }

  /** Scaling a second time, where scaling back was due, is harmless only without scaling at all. */
  lemma ScaledTwice(p: Pool, amountIn: Word)
    requires p.factor > 0 && NetInput(p, amountIn) * p.factor < MODULUS
    ensures var net := NetInput(p, amountIn);
            AmountUsed(p, amountIn) == net / p.factor <==> p.factor == 1 || net == 0
  {
    MulExact(NetInput(p, amountIn), p.factor);
    TwiceArithmetic(NetInput(p, amountIn), p.factor);
  }

  /** The output for the amount used; None where the program aborts. */
  function SwapOut(p: Pool, amount: Word): Option<Word> {
    var denominator := Add(p.balanceIn, amount);
    if p.balanceIn != 0 && denominator == 0 then None
    else if p.weightIn != 0 && p.weightOut == 0 then None
    else
      match PowUp(DivUp(p.balanceIn, denominator), DivDown(p.weightIn, p.weightOut))
      case None => None
      case Some(power) => Some(MulDown(p.balanceOut, Complement(power)))
  }

  /** Whatever the weights, a swap never pays out more than the pool holds. */
  lemma NeverOverpays(p: Pool, amount: Word)
    requires p.balanceOut < BOUND
    ensures SwapOut(p, amount).Some? ==> SwapOut(p, amount).value <= p.balanceOut
  {
    if SwapOut(p, amount).Some? {
      var power := PowUp(DivUp(p.balanceIn, Add(p.balanceIn, amount)), DivDown(p.weightIn, p.weightOut));
      PayoutLeavesShare(p.balanceOut, power.value);
    }
  }

  /** The weight of the token in, as a multiple of that of the token out. */
  predicate HasRatio(p: Pool, n: nat) {
    p.weightOut != 0 && DivDown(p.weightIn, p.weightOut) == n * ONE
  }

  /** The product of the balances, each to its weight, does not drop. */
  predicate KeepsWeightedProduct(p: Pool, amount: nat, n: nat, out: nat) {
    out <= p.balanceOut && Exp(p.balanceIn + amount, n) * (p.balanceOut - out) >= Exp(p.balanceIn, n) * p.balanceOut
  }

  /** For weight ratios 1, 2 and 4 the rounding favours the pool: its weighted product does not drop. */
  lemma RoundingFavoursPool(p: Pool, amount: Word, n: nat)
    requires n in {1, 2, 4} && HasRatio(p, n)
    requires 0 < p.balanceIn + amount < BOUND && p.balanceOut < BOUND
    ensures SwapOut(p, amount).Some? && KeepsWeightedProduct(p, amount, n, SwapOut(p, amount).value)
  {
    var d := p.balanceIn + amount;
    assert Add(p.balanceIn, amount) == d;
    IntegralPower(p.balanceIn, d, n);
    var power := PowUp(DivUp(p.balanceIn, d), n * ONE).value;
    PayoutKeepsInvariant(p.balanceOut, power, Exp(p.balanceIn, n), Exp(d, n));
  }

  method BalancerV2Out(p: Pool, amountIn: Word) returns (r: Option<Word>)
    ensures r == SwapOut(p, AmountUsed(p, amountIn))
    ensures amountIn * p.factor < BOUND && p.swapFee <= ONE ==>
              IsFee(amountIn * p.factor, p.swapFee, amountIn * p.factor - NetInput(p, amountIn))
    ensures p.balanceOut < BOUND && r.Some? ==> r.value <= p.balanceOut
    ensures forall n | n in {1, 2, 4} && HasRatio(p, n) ::
              var amount := AmountUsed(p, amountIn);
              0 < p.balanceIn + amount < BOUND && p.balanceOut < BOUND ==>
                r.Some? && KeepsWeightedProduct(p, amount, n, r.value)
  {
    if amountIn * p.factor < BOUND && p.swapFee <= ONE {
      FeeIsCeiling(p, amountIn);
    }
    hide Exp, PowUp, DivUp, DivDown, MulDown, MulUp, Mul, Sub, KeepsWeightedProduct, HasRatio, IsFee;
    if p.balanceOut < BOUND {
      NeverOverpays(p, AmountUsed(p, amountIn));
      forall n | n in {1, 2, 4} && HasRatio(p, n) && 0 < p.balanceIn + AmountUsed(p, amountIn) < BOUND {
        RoundingFavoursPool(p, AmountUsed(p, amountIn), n);
      }
    }
    var scaled := Mul(amountIn, p.factor);
    var withoutFees := Sub(scaled, MulUp(scaled, p.swapFee));
    var amount := Mul(withoutFees, p.factor);
    var denominator := Add(p.balanceIn, amount);
    if p.balanceIn != 0 && denominator == 0 {
      return None;
    }
    var base := DivUp(p.balanceIn, denominator);
    if p.weightIn != 0 && p.weightOut == 0 {
      return None;
    }
    var exponent := DivDown(p.weightIn, p.weightOut);
    var power := PowUp(base, exponent);
    if power == None {
      return None;
    }
    return Some(MulDown(p.balanceOut, Complement(power.value)));
  }

  lemma Reassociate(a: nat, b: nat, c: nat)
    ensures a * b * c == a * c * b
  {
  }

  /** A ratio computed from weights in the proportion n : 1 is exact. */
  lemma ExactRatio(weight: Word, n: nat)
    requires 0 < weight < BOUND && n in {1, 2, 4}
    ensures DivDown(n * weight, weight) == n * ONE
  {
    var w: Word := n * weight;
    MulExact(w, ONE);
    DivIsFloor(w * ONE, weight);
    Reassociate(n, weight, ONE);
    QuotientExact(w * ONE, weight, n * ONE);
  }
}
