/**
  The stable-pair solver: the invariant x^3*y + x*y^3 over 18-decimal fixed point, and the integer Newton
  iteration that inverts it.  `F`, `D`, `K` and `Newton` are the program's wrapping 256-bit arithmetic;
  `Curve` and `Slope` are the same formulas over unbounded integers, and they are what is reasoned about.
*/
module StableSwap {
  import opened Arithmetic
  import opened Outcomes
  import opened U256

  const WAD: nat := 1_000_000_000_000_000_000

  /** Bound on scaled amounts inside which no intermediate product leaves 256 bits. */
  const LIMIT: nat := 0x2000_0000_0000_0000_0000_0000

  /** From this input-side balance on, 0.00249 token, no rounded Newton step can pass below zero. */
  const FLOOR_BALANCE: nat := 2_490_000_000_000_000

  // ----- the program's functions -----

  /** Fixed-point product, `a * b / 1e18`, over words. */
  function P(a: Word, b: Word): Word {
    Mul(a, b) / WAD
  }

  function F(x0: Word, y: Word): Word {
    P(P(x0, y), Add(P(x0, x0), P(y, y)))
  }

  function D(x0: Word, y: Word): Word {
    Add(P(Mul(3, x0), P(y, y)), P(P(x0, x0), x0))
  }

  /** A raw token amount as an 18-decimal one; `unit` is ten to the token's decimals. */
  function Scale(amount: Word, unit: Word): Word
    requires unit != 0
  {
    Div(Mul(amount, WAD), unit)
  }

  function K(x: Word, y: Word, stable: bool, decimals0: Word, decimals1: Word): Word
    requires decimals0 != 0 && decimals1 != 0
  {
    if stable then
      var x' := Scale(x, decimals0);
      var y' := Scale(y, decimals1);
      P(P(x', y'), Add(P(x', x'), P(y', y')))
    else
      Mul(x, y)
  }

  // ----- exact arithmetic -----

  /** Fixed-point product over unbounded integers. */
  function Fp(a: nat, b: nat): nat {
    Times(a, b) / WAD
  }

  lemma FpIsFloor(a: nat, b: nat)
    ensures Fp(a, b) * WAD <= a * b < Fp(a, b) * WAD + WAD
  {
    TimesIsProduct(a, b);
  }

  function Curve(x: nat, y: nat): nat {
    Fp(Fp(x, y), Fp(x, x) + Fp(y, y))
  }

  function Slope(x: nat, y: nat): nat {
    Fp(3 * x, Fp(y, y)) + Fp(Fp(x, x), x)
  }

  lemma FpMono(a: nat, b: nat, a': nat, b': nat)
    requires a <= a' && b <= b'
    ensures Fp(a, b) <= Fp(a', b')
  {
    FpIsFloor(a, b);
    FpIsFloor(a', b');
    MulMono(a, a', b, b');
  }

  lemma CurveSymmetric(x: nat, y: nat)
    ensures Curve(x, y) == Curve(y, x)
  {
    FpIsFloor(x, y);
    FpIsFloor(y, x);
  }

  lemma CurveMonotone(x: nat, y: nat, x': nat, y': nat)
    requires x <= x' && y <= y'
    ensures Curve(x, y) <= Curve(x', y')
  {
    FpMono(x, y, x', y');
    FpMono(x, x, x', x');
    FpMono(y, y, y', y');
    FpMono(Fp(x, y), Fp(x, x) + Fp(y, y), Fp(x', y'), Fp(x', x') + Fp(y', y'));
  }

  /** A fixed-point product of bounded factors does not wrap. */
  lemma Exact(a: nat, b: nat, m: nat, n: nat)
    requires a <= m && b <= n && m < MODULUS && n < MODULUS && m * n < MODULUS
    ensures P(a, b) == Fp(a, b) <= m * n / WAD && Fp(a, b) * WAD < MODULUS
  {
    MulMono(a, m, b, n);
    MulExact(a, b);
    FpIsFloor(a, b);
    TimesIsProduct(a, b);
    FloorIsGreatest(m * n, WAD, Fp(a, b));
  }

  /** Largest fixed-point product of two amounts inside the limit. */
  const SQUARE: nat := LIMIT * LIMIT / WAD

  /** Inside the limit every intermediate fits in 256 bits, so the wrapping functions are the exact ones. */
  lemma CurveDoesNotWrap(x: nat, y: nat)
    requires x <= LIMIT && y <= LIMIT
    ensures F(x, y) == Curve(x, y) && Curve(x, y) * WAD < MODULUS
  {
    hide P, Fp;
    Exact(x, y, LIMIT, LIMIT);
    Exact(x, x, LIMIT, LIMIT);
    Exact(y, y, LIMIT, LIMIT);
    SumDoesNotWrap(Fp(x, x), Fp(y, y), 2 * SQUARE);
    Exact(Fp(x, y), Fp(x, x) + Fp(y, y), SQUARE, 2 * SQUARE);
  }

  lemma SlopeDoesNotWrap(x: nat, y: nat)
    requires x <= LIMIT && y <= LIMIT
    ensures D(x, y) == Slope(x, y)
  {
    hide P, Fp, Times;
    Exact(x, x, LIMIT, LIMIT);
    Exact(y, y, LIMIT, LIMIT);
    MulExact(3, x);
    Exact(3 * x, Fp(y, y), 3 * LIMIT, SQUARE);
    Exact(Fp(x, x), x, SQUARE, LIMIT);
    SumDoesNotWrap(Fp(3 * x, Fp(y, y)), Fp(Fp(x, x), x), MODULUS / WAD + MODULUS / WAD);
  }

  lemma SumDoesNotWrap(a: nat, b: nat, m: nat)
    requires a + b <= m < MODULUS
    ensures Add(a, b) == a + b
  {
  }

  // ----- one rounded Newton step -----

  /** W^2 * Curve is at most y * (p + q), where p and q are the two numerators of the slope. */
  lemma CurveFromAbove(x: nat, y: nat)
    ensures Curve(x, y) * WAD * WAD <= y * (x * Fp(x, x) + x * Fp(y, y))
  {
    hide Times;
    FpIsFloor(x, y);
    FpIsFloor(Fp(x, y), Fp(x, x) + Fp(y, y));
    CurveArithmetic(x, y, Fp(x, y), Fp(x, x), Fp(y, y), Curve(x, y));
  }


  lemma CurveArithmetic(x: nat, y: nat, a: nat, f: nat, g: nat, k: nat)
    requires a * WAD <= x * y && k * WAD <= a * (f + g)
    ensures k * WAD * WAD <= y * (x * f + x * g)
  {
    var b := f + g;
    MulMono(a * WAD, x * y, b, b);
    assert a * b * WAD == a * WAD * b;
    assert x * y * b == y * (x * f + x * g) by {
      assert x * y * b == y * (x * b);
    }
  }

  /** The two floors of the slope against its numerators. */
  lemma SlopeFloors(x: nat, y: nat)
    ensures var (p, q) := (x * Fp(x, x), x * Fp(y, y));
            var (s, t) := (Fp(3 * x, Fp(y, y)), Fp(Fp(x, x), x));
            && Slope(x, y) == s + t
            && s * WAD <= 3 * q < s * WAD + WAD && t * WAD <= p < t * WAD + WAD
  {
    hide Times;
    FpIsFloor(3 * x, Fp(y, y));
    FpIsFloor(Fp(x, x), x);
    assert 3 * x * Fp(y, y) == 3 * (x * Fp(y, y));
  }

  /** The numerator of the step against the floors `s` and `t` of the slope. */
  lemma StepNumerator(k: nat, y: nat, p: nat, q: nat, s: nat, t: nat)
    requires k * WAD * WAD <= y * (p + q) && y > 0
    requires 3 * q < s * WAD + WAD && p < t * WAD + WAD
    ensures 3 * (k * WAD) < y * (3 * t + s + 4)
  {
    var m := 3 * t + s + 4;
    MulMono(y, y, 3 * (p + q), m * WAD - 4);
    assert y * (3 * (p + q)) == 3 * (y * (p + q));
    assert y * (m * WAD - 4) == y * m * WAD - 4 * y;
  }

  /** With at least two units in the first floor, the step is below y. */
  lemma StepBelow(n: nat, y: nat, s: nat, t: nat)
    requires 3 * n < y * (3 * t + s + 4) && s >= 2
    ensures n / (s + t) < y
  {
    MulMono(y, y, 3 * t + s + 4, 3 * (s + t));
    assert y * (3 * (s + t)) == 3 * (y * (s + t));
    FloorIsGreatest(n, s + t, y);
  }

  /** With one or none, the second floor has to make up for the remainders. */
  lemma StepAtMostOne(n: nat, y: nat, t: nat)
    requires 3 * n < y * (3 * t + 5) && 2 * y <= 3 * t + 3
    ensures n / (1 + t) <= y
  {
    assert y * (3 * t + 5) == 3 * (y * t) + 5 * y;
    assert (y + 1) * (1 + t) == y * t + y + t + 1;
    FloorIsGreatest(n, 1 + t, y + 1);
  }

  lemma StepAtMostZero(n: nat, y: nat, t: nat)
    requires 3 * n < y * (3 * t + 4) && 4 * y <= 3 * t && t > 0
    ensures n / t <= y
  {
    assert y * (3 * t + 4) == 3 * (y * t) + 4 * y;
    assert (y + 1) * t == y * t + t;
    FloorIsGreatest(n, t, y + 1);
  }

  /** From the floor balance on, the second floor is large enough whenever the first is below two. */
  lemma SecondFloor(x: nat, y: nat, xx: nat, yy: nat, s: nat, t: nat)
    requires x >= FLOOR_BALANCE && x * x < xx * WAD + WAD && y * y < yy * WAD + WAD
    requires 3 * (x * yy) < s * WAD + WAD && x * xx < t * WAD + WAD
    ensures t >= LEAST_SLOPE
    ensures s == 0 ==> 4 * y <= 3 * t
    ensures s == 1 ==> 2 * y <= 3 * t + 3
  {
    var least := FLOOR_BALANCE * FLOOR_BALANCE / WAD;
    MulMono(FLOOR_BALANCE, x, FLOOR_BALANCE, x);
    MulMono(FLOOR_BALANCE, x, least, xx);
    if s == 0 {
      AtMostRoot(x, y, yy, 133, 11_575_836_903);
    } else if s == 1 {
      AtMostRoot(x, y, yy, 267, 16_370_705_544);
    }
  }

  lemma AtMostRoot(x: nat, y: nat, yy: nat, n: nat, root: nat)
    requires x >= FLOOR_BALANCE && y * y < yy * WAD + WAD
    requires x * yy < FLOOR_BALANCE * (n + 1) && (n + 1) * WAD <= root * root
    ensures y < root
  {
    if yy > n {
      MulMono(FLOOR_BALANCE, x, n + 1, yy);
      assert false;
    }
    if y >= root {
      MulMono(root, y, root, y);
      assert false;
    }
  }

  /** Smallest slope from the floor balance on. */
  const LEAST_SLOPE: nat := 15_438_249_000

  /**
    The rounded step never reaches past zero: with x * y^2 large enough it stays strictly above, and from the
    floor balance on it is never more than y, whatever y is.
  */
  lemma StepStaysAboveZero(x: nat, y: nat)
    ensures 3 * (x * Fp(y, y)) >= 2 * WAD ==> Slope(x, y) > 0 && Curve(x, y) * WAD / Slope(x, y) < y
    ensures x >= FLOOR_BALANCE ==> Slope(x, y) >= LEAST_SLOPE && Curve(x, y) * WAD / Slope(x, y) <= y
  {
    hide Times, Fp, Curve, Slope;
    var p, q, s, t := x * Fp(x, x), x * Fp(y, y), Fp(3 * x, Fp(y, y)), Fp(Fp(x, x), x);
    var k := Curve(x, y);
    SlopeFloors(x, y);
    CurveFromAbove(x, y);
    FpIsFloor(x, x);
    FpIsFloor(y, y);
    if x >= FLOOR_BALANCE {
      SecondFloor(x, y, Fp(x, x), Fp(y, y), s, t);
    }
    if y == 0 {
      assert k == 0 && Fp(y, y) == 0;
    } else {
      StepNumerator(k, y, p, q, s, t);
      if s >= 2 {
        StepBelow(k * WAD, y, s, t);
      } else if x >= FLOOR_BALANCE {
        if s == 1 { StepAtMostOne(k * WAD, y, t); } else { StepAtMostZero(k * WAD, y, t); }
      }
    }
  }

  // ----- how far a downward step can fall short -----

  /** The curve without rounding, times 1e54. */
  function Poly(x: nat, y: nat): nat {
    x * x * x * y + x * (y * y * y)
  }

  /** The derivative of it in y. */
  function Derivative(x: nat, y: nat): nat {
    x * x * x + 3 * (x * (y * y))
  }

  lemma PolyFactors(x: nat, y: nat)
    ensures Poly(x, y) == x * y * (x * x + y * y)
    ensures Poly(x, y) == y * (x * (x * x) + x * (y * y))
  {
    assert x * y * (x * x) == x * x * x * y;
    assert x * y * (y * y) == x * (y * y * y);
  }

  lemma CurveBelowPoly(x: nat, y: nat)
    ensures Curve(x, y) * WAD * WAD * WAD <= Poly(x, y)
  {
    FpIsFloor(x, x);
    FpIsFloor(y, y);
    CurveFromAbove(x, y);
    PolyFactors(x, y);
    BelowPolyArithmetic(x, y, Curve(x, y), Fp(x, x), Fp(y, y), x * x, y * y);
  }

  lemma BelowPolyArithmetic(x: nat, y: nat, k: nat, f: nat, g: nat, xx: nat, yy: nat)
    requires k * WAD * WAD <= y * (x * f + x * g) && f * WAD <= xx && g * WAD <= yy
    ensures k * WAD * WAD * WAD <= y * (x * xx + x * yy)
  {
    MulMono(x, x, f * WAD, xx);
    MulMono(x, x, g * WAD, yy);
    MulMono(y, y, WAD * (x * f + x * g), x * xx + x * yy);
    assert y * (WAD * (x * f + x * g)) == WAD * (y * (x * f + x * g));
  }

  lemma CrossOfFloors(m: nat, n: nat, a: nat, b: nat)
    requires a * WAD > m - WAD && b * WAD > n - 2 * WAD
    ensures a * b * WAD * WAD >= m * n - WAD * n - 2 * WAD * m
  {
    if m >= WAD && n >= 2 * WAD {
      MulMono(m - WAD, a * WAD, n - 2 * WAD, b * WAD);
      assert (a * WAD) * (b * WAD) == a * b * WAD * WAD;
      assert (m - WAD) * (n - 2 * WAD) == m * n - WAD * n - 2 * WAD * m + 2 * WAD * WAD;
    } else if m < WAD {
      MulMono(m, WAD, n, n);
    } else {
      MulMono(m, m, n, 2 * WAD);
    }
  }

  lemma CurveAbovePoly(x: nat, y: nat)
    ensures Curve(x, y) * WAD * WAD * WAD >= Poly(x, y) - WAD * ((x + y) * (x + y)) - WAD * WAD * WAD
  {
    var a, b := Fp(x, y), Fp(x, x) + Fp(y, y);
    FpIsFloor(x, y);
    FpIsFloor(x, x);
    FpIsFloor(y, y);
    FpIsFloor(a, b);
    PolyFactors(x, y);
    CrossOfFloors(x * y, x * x + y * y, a, b);
    assert WAD * (x * x + y * y) + 2 * WAD * (x * y) == WAD * ((x + y) * (x + y));
  }

  lemma TimesFloor(x: nat, m: nat, f: nat)
    requires m <= f * WAD + WAD
    ensures x * m <= (x * f) * WAD + WAD * x
  {
    MulMono(x, x, m, f * WAD + WAD);
    assert x * (f * WAD) == (x * f) * WAD;
  }

  lemma SlopeAgainstDerivative(x: nat, y: nat)
    ensures Derivative(x, y) <= Slope(x, y) * WAD * WAD + 4 * WAD * x + 2 * WAD * WAD
  {
    FpIsFloor(x, x);
    FpIsFloor(y, y);
    SlopeFloors(x, y);
    DerivativeArithmetic(x, y, Fp(x, x), Fp(y, y), Slope(x, y));
  }

  lemma DerivativeArithmetic(x: nat, y: nat, f: nat, g: nat, d: nat)
    requires x * x < f * WAD + WAD && y * y < g * WAD + WAD
    requires WAD * d >= x * f + 3 * (x * g) - 2 * (WAD - 1)
    ensures Derivative(x, y) <= d * WAD * WAD + 4 * WAD * x + 2 * WAD * WAD
  {
    TimesFloor(x, x * x, f);
    TimesFloor(x, y * y, g);
    assert x * (x * x) == x * x * x;
  }

  lemma CubeDifference(y: nat, z: nat, dy: nat)
    requires y == z + dy
    ensures y * y * y - z * z * z <= dy * (3 * (y * y))
  {
    assert y * y * y - z * z * z == dy * (y * y + y * z + z * z);
    MulMono(z, y, z, y);
    MulMono(y, y, z, y);
    MulMono(dy, dy, y * y + y * z + z * z, 3 * (y * y));
  }

  /** The curve is convex in y: it lies above its tangent. */
  lemma PolyConvex(x: nat, y: nat, dy: nat)
    requires dy <= y
    ensures Poly(x, y - dy) >= Poly(x, y) - dy * Derivative(x, y)
  {
    var z := y - dy;
    CubeDifference(y, z, dy);
    TangentArithmetic(x, x * x * x, y, z, dy, y * y, y * y * y, z * z * z);
  }

  lemma TangentArithmetic(x: nat, cube: nat, y: nat, z: nat, dy: nat, yy: nat, y3: nat, z3: nat)
    requires y == z + dy && y3 - z3 <= dy * (3 * yy)
    ensures cube * z + x * z3 >= cube * y + x * y3 - dy * (cube + 3 * (x * yy))
  {
    assert cube * y == cube * z + cube * dy;
    MulMono(x, x, y3, z3 + dy * (3 * yy));
    assert x * (dy * (3 * yy)) == dy * (3 * (x * yy));
  }

  lemma UndershootArithmetic(k: nat, k': nat, target: nat, dy: nat, y: nat, d: nat, g: nat, g0: nat, g1: nat, e: nat,
                             s: nat)
    requires k * WAD * WAD * WAD <= g0
    requires k' * WAD * WAD * WAD >= g1 - WAD * s - WAD * WAD * WAD
    requires g1 >= g0 - dy * g
    requires g <= d * WAD * WAD + WAD * e
    requires dy * d <= (k - target) * WAD
    requires dy <= y <= LIMIT
    ensures (target - k') * WAD * WAD <= LIMIT * e + s + WAD * WAD
  {
    MulMono(dy, dy, g, d * WAD * WAD + WAD * e);
    MulMono(dy, LIMIT, e, e);
    assert dy * (d * WAD * WAD + WAD * e) == (dy * d) * WAD * WAD + WAD * (dy * e);
  }

  /** What rounding can leave between the target and the curve at an iterate, times 1e36. */
  function Slack(x: nat, y: nat): nat {
    LIMIT * (4 * x + 2 * WAD) + (x + y) * (x + y) + WAD * WAD
  }

  /** Derivative and values of the unrounded curve at both ends of a step, against the rounded ones. */
  lemma Unrounded(x: nat, y: nat, dy: nat) returns (g: nat, g0: nat, g1: nat)
    requires dy <= y
    ensures Curve(x, y) * WAD * WAD * WAD <= g0
    ensures Curve(x, y - dy) * WAD * WAD * WAD >= g1 - WAD * ((x + (y - dy)) * (x + (y - dy))) - WAD * WAD * WAD
    ensures g <= Slope(x, y) * WAD * WAD + 4 * WAD * x + 2 * WAD * WAD
    ensures g1 >= g0 - dy * g
  {
    hide Times, Fp, Curve, Slope, Poly;
    g, g0, g1 := Derivative(x, y), Poly(x, y), Poly(x, y - dy);
    CurveBelowPoly(x, y);
    CurveAbovePoly(x, y - dy);
    SlopeAgainstDerivative(x, y);
    PolyConvex(x, y, dy);
  }

  /** After a downward step the curve undershoots the target by no more than the accumulated rounding. */
  lemma Undershoot(x: nat, y: nat, target: nat, dy: nat)
    requires dy <= y <= LIMIT && target <= Curve(x, y)
    requires dy * Slope(x, y) <= (Curve(x, y) - target) * WAD
    ensures (target - Curve(x, y - dy)) * WAD * WAD <= Slack(x, y - dy)
  {
    hide Times, Fp, Curve, Slope;
    var g, g0, g1 := Unrounded(x, y, dy);
    UndershootArithmetic(Curve(x, y), Curve(x, y - dy), target, dy, y, Slope(x, y), g, g0, g1, 4 * x + 2 * WAD,
                         (x + (y - dy)) * (x + (y - dy)));
  }

  // ----- the Newton iteration -----

  datatype Round = Stop(root: Word) | Next(y: Word)

  /** The rounded step for a gap of `high - low`. */
  function StepSize(high: Word, low: Word, d: Word): Word
    requires d != 0
  {
    Div(Mul(Sub(high, low), WAD), d)
  }

  /**
    The branches of the loop body, given the curve `k` at `y`, the rounded step `dy`, the value `above` that
    the upward exit tests, and the curve `below` one unit lower.
  */
  function Decide(k: Word, xy: Word, y: Word, dy: Word, above: Word, below: Word): Round {
    if k < xy then
      if dy != 0 then Next(Add(y, dy)) else if above > xy then Stop(Add(y, 1)) else Next(Add(y, 1))
    else
      if dy != 0 then Next(Sub(y, dy)) else if k == xy || below < xy then Stop(y) else Next(Sub(y, 1))
  }

  function NewtonRound(x0: Word, xy: Word, y: Word, stable: bool, decimals0: Word, decimals1: Word): Round
    requires decimals0 != 0 && decimals1 != 0
  {
    var k, d := F(x0, y), D(x0, y);
    if d == 0 then
      Stop(0)
    else
      var dy := if k < xy then StepSize(xy, k, d) else StepSize(k, xy, d);
      Decide(k, xy, y, dy, K(x0, Add(y, 1), stable, decimals0, decimals1), F(x0, Sub(y, 1)))
  }

  /** The answer after at most `rounds` passes; zero also stands for giving up. */
  function Newton(rounds: nat, x0: Word, xy: Word, y: Word, stable: bool, decimals0: Word, decimals1: Word): Word
    requires decimals0 != 0 && decimals1 != 0
    decreases rounds
  {
    if rounds == 0 then
      0
    else
      match NewtonRound(x0, xy, y, stable, decimals0, decimals1)
      case Stop(root) => root
      case Next(y') => Newton(rounds - 1, x0, xy, y', stable, decimals0, decimals1)
  }

  // ----- correctness of the iteration -----

  /** The part of the guard that concerns the reserve and the wrapping of products. */
  predicate Small(x0: nat, reserve: nat) {
    x0 <= LIMIT && 2 * reserve <= LIMIT
  }

  /** What a caller checks: enough on the input side, and amounts that cannot overflow. */
  predicate Guard(x0: nat, reserve: nat) {
    FLOOR_BALANCE <= x0 && Small(x0, reserve)
  }

  /** A least solution up to an equality plateau; with at least 18 decimals on both sides it also meets the target. */
  ghost predicate IsRoot(x0: nat, xy: nat, root: nat, decimals0: nat, decimals1: nat) {
    && (Curve(x0, root) == xy || (root > 0 && Curve(x0, root - 1) < xy))
    && (decimals0 >= WAD && decimals1 >= WAD ==> Curve(x0, root) >= xy)
  }

  /** With at least 18 decimals a unit scales down, without wrapping. */
  lemma ScaleAtMost(amount: Word, unit: Word)
    requires amount <= LIMIT && unit >= WAD
    ensures Scale(amount, unit) <= amount
    ensures unit == WAD ==> Scale(amount, unit) == amount
  {
    hide Times, LongDivision;
    MulExact(amount, WAD);
    DivIsFloor(amount * WAD, unit);
    QuotientAtMost(amount * WAD, unit, amount, WAD);
  }

  /** With at least 18 decimals `_k` is at most the curve, and with exactly 18 it is `_f`. */
  lemma KAtMostCurve(x: Word, y: Word, decimals0: Word, decimals1: Word)
    requires x <= LIMIT && y <= LIMIT && decimals0 >= WAD && decimals1 >= WAD
    ensures K(x, y, true, decimals0, decimals1) <= Curve(x, y)
    ensures decimals0 == decimals1 == WAD ==> K(x, y, true, decimals0, decimals1) == F(x, y)
  {
    hide Times, LongDivision, Scale, P, Curve;
    ScaleAtMost(x, decimals0);
    ScaleAtMost(y, decimals1);
    CurveDoesNotWrap(Scale(x, decimals0), Scale(y, decimals1));
    CurveMonotone(Scale(x, decimals0), Scale(y, decimals1), x, y);
  }

  /** The values that a round looks at, without wrapping. */
  lemma RoundValues(x0: Word, y: Word)
    requires x0 <= LIMIT && y <= LIMIT
    ensures F(x0, y) == Curve(x0, y) && D(x0, y) == Slope(x0, y) && Curve(x0, y) * WAD < MODULUS
    ensures y > 0 ==> F(x0, Sub(y, 1)) == Curve(x0, y - 1)
    ensures y == 0 ==> Curve(x0, y) == 0
  {
    hide Times, F, D, P, Curve, Slope, Fp;
    CurveDoesNotWrap(x0, y);
    SlopeDoesNotWrap(x0, y);
    if y > 0 {
      assert Sub(y, 1) == y - 1;
      CurveDoesNotWrap(x0, y - 1);
    } else {
      CurveFromAbove(x0, 0);
    }
  }

  /** An answer of a round at an iterate that did not wrap is a root within the reserve. */
  lemma RoundAnswers(x0: Word, xy: Word, y: Word, reserve: Word, decimals0: Word, decimals1: Word)
    requires decimals0 != 0 && decimals1 != 0
    requires Small(x0, reserve) && y <= LIMIT && xy < Curve(x0, reserve)
    ensures match NewtonRound(x0, xy, y, true, decimals0, decimals1)
            case Stop(root) => root != 0 ==> root <= reserve && IsRoot(x0, xy, root, decimals0, decimals1)
            case Next(_) => true
  {
    hide Times, LongDivision, F, D, K, P, Curve, Slope, StepSize;
    RoundValues(x0, y);
    if Curve(x0, y) < xy {
      if y >= reserve {
        CurveMonotone(x0, reserve, x0, y);
        assert false;
      }
      assert Add(y, 1) == y + 1;
      if decimals0 >= WAD && decimals1 >= WAD {
        KAtMostCurve(x0, y + 1, decimals0, decimals1);
      }
    } else if y > reserve {
      CurveMonotone(x0, reserve, x0, y);
      CurveMonotone(x0, reserve, x0, y - 1);
    }
  }

  /** Every iterate of a run is inside the limit: no step has wrapped. */
  predicate StaysWithin(rounds: nat, x0: Word, xy: Word, y: Word, decimals0: Word, decimals1: Word)
    requires decimals0 != 0 && decimals1 != 0
    decreases rounds
  {
    && y <= LIMIT
    && (rounds > 0 ==>
          match NewtonRound(x0, xy, y, true, decimals0, decimals1)
          case Stop(_) => true
          case Next(y') => StaysWithin(rounds - 1, x0, xy, y', decimals0, decimals1))
  }

  /** Over any number of rounds, whatever the input-side balance, a run that does not wrap answers with a root. */
  lemma {:induction false} RunAnswers(rounds: nat, x0: Word, xy: Word, y: Word, reserve: Word, decimals0: Word,
                                      decimals1: Word)
    requires decimals0 != 0 && decimals1 != 0
    requires Small(x0, reserve) && xy < Curve(x0, reserve)
    requires StaysWithin(rounds, x0, xy, y, decimals0, decimals1)
    ensures var root := Newton(rounds, x0, xy, y, true, decimals0, decimals1);
            root != 0 ==> root <= reserve && IsRoot(x0, xy, root, decimals0, decimals1)
    decreases rounds
  {
    hide NewtonRound, IsRoot, Curve;
    if rounds > 0 {
      RoundAnswers(x0, xy, y, reserve, decimals0, decimals1);
      match NewtonRound(x0, xy, y, true, decimals0, decimals1)
      case Stop(_) =>
      case Next(y') => RunAnswers(rounds - 1, x0, xy, y', reserve, decimals0, decimals1);
    }
  }

  // ----- the guard keeps every run inside the limit -----

  /** Every iterate stays inside the limit and not far below the target. */
  predicate Tracked(x0: nat, xy: nat, y: nat) {
    y <= LIMIT && (xy - Curve(x0, y)) * WAD * WAD <= Slack(x0, y)
  }

  lemma StepWithoutWrap(m: Word, n: Word, d: Word)
    requires n <= m && (m - n) * WAD < MODULUS && d > 0
    ensures StepSize(m, n, d) == (m - n) * WAD / d
  {
    hide Times, LongDivision;
    assert Sub(m, n) == m - n;
    MulExact(m - n, WAD);
    DivIsFloor((m - n) * WAD, d);
  }

  /** Cubes and squares of a balance from the floor on. */
  lemma LargePowers(x: nat, y: nat)
    requires x >= FLOOR_BALANCE
    ensures x * x * x >= FLOOR_BALANCE * (x * x) >= FLOOR_BALANCE * FLOOR_BALANCE * x
    ensures x * (y * y) >= FLOOR_BALANCE * (y * y)
  {
    MulMono(FLOOR_BALANCE, x, x * x, x * x);
    MulMono(FLOOR_BALANCE, x, x, x);
    MulMono(FLOOR_BALANCE, x, y * y, y * y);
  }

  /** The square of a sum is at most twice the sum of the squares. */
  lemma SquareOfSum(x: nat, y: nat)
    ensures (x + y) * (x + y) <= 2 * (x * x) + 2 * (y * y)
  {
    assert (x - y) * (x - y) >= 0;
    assert (x + y) * (x + y) + (x - y) * (x - y) == 2 * (x * x) + 2 * (y * y);
  }

  /** Slack and slope grow with the same squares, so a gap inside the slack is closed by a step of at most half the limit. */
  lemma GapArithmetic(x: nat, x2: nat, x3: nat, y2: nat, q: nat, gap: nat, d: nat)
    requires gap * WAD * WAD <= LIMIT * (4 * x + 2 * WAD) + 2 * x2 + 2 * y2 + WAD * WAD
    requires x3 + 3 * q <= d * WAD * WAD + 4 * WAD * x + 2 * WAD * WAD
    requires x >= FLOOR_BALANCE && x3 >= FLOOR_BALANCE * x2 >= FLOOR_BALANCE * FLOOR_BALANCE * x
    requires q >= FLOOR_BALANCE * y2
    ensures gap * WAD < (LIMIT / 2 + 1) * d
  {
  }

  lemma UpwardStep(x0: nat, xy: nat, y: nat)
    requires FLOOR_BALANCE <= x0 <= LIMIT && Tracked(x0, xy, y) && Curve(x0, y) <= xy
    ensures Slope(x0, y) > 0
    ensures var gap := xy - Curve(x0, y); gap * WAD < MODULUS && 0 <= gap * WAD / Slope(x0, y) <= LIMIT / 2
  {
    hide Times, Fp, Curve, Slope;
    var gap, d := xy - Curve(x0, y), Slope(x0, y);
    StepStaysAboveZero(x0, y);
    SlopeAgainstDerivative(x0, y);
    LargePowers(x0, y);
    SquareOfSum(x0, y);
    GapArithmetic(x0, x0 * x0, x0 * x0 * x0, y * y, x0 * (y * y), gap, d);
    FloorIsGreatest(gap * WAD, d, 0);
    FloorIsGreatest(gap * WAD, d, LIMIT / 2 + 1);
    MulMono(x0 + y, 2 * LIMIT, x0 + y, 2 * LIMIT);
  }

  lemma DownwardStep(x0: nat, xy: nat, y: nat)
    requires FLOOR_BALANCE <= x0 <= LIMIT && y <= LIMIT && xy <= Curve(x0, y)
    ensures Slope(x0, y) > 0
    ensures var dy := (Curve(x0, y) - xy) * WAD / Slope(x0, y); 0 <= dy <= y && Tracked(x0, xy, y - dy)
  {
    hide Times, Fp, Curve, Slope;
    StepStaysAboveZero(x0, y);
    var k, d := Curve(x0, y), Slope(x0, y);
    DivMono((k - xy) * WAD, k * WAD, d);
    FloorIsGreatest((k - xy) * WAD, d, 0);
    FloorBounds((k - xy) * WAD, d);
    Undershoot(x0, y, xy, (k - xy) * WAD / d);
  }

  /** The slack grows with the iterate, and so does the curve. */
  lemma TrackedUpward(x0: nat, xy: nat, y: nat, y': nat)
    requires Tracked(x0, xy, y) && y <= y' <= LIMIT
    ensures Tracked(x0, xy, y')
  {
    hide Times, Fp, Curve;
    CurveMonotone(x0, y, x0, y');
    MulMono(x0 + y, x0 + y', x0 + y, x0 + y');
  }

  lemma TrackedAbove(x0: nat, xy: nat, y: nat)
    requires y <= LIMIT && xy <= Curve(x0, y)
    ensures Tracked(x0, xy, y)
  {
    hide Times, Fp, Curve;
  }

  /** The two steps as the program computes them. */
  lemma UpwardSize(x0: Word, xy: Word, y: Word)
    requires FLOOR_BALANCE <= x0 <= LIMIT && Tracked(x0, xy, y) && Curve(x0, y) <= xy
    ensures F(x0, y) == Curve(x0, y) && D(x0, y) > 0
    ensures StepSize(xy, F(x0, y), D(x0, y)) <= LIMIT / 2
  {
    assert y <= LIMIT;
    hide Times, LongDivision, F, D, P, Curve, Slope, StepSize, Tracked;
    UpwardStep(x0, xy, y);
    RoundValues(x0, y);
    StepWithoutWrap(xy, F(x0, y), D(x0, y));
  }

  lemma DownwardSize(x0: Word, xy: Word, y: Word)
    requires FLOOR_BALANCE <= x0 <= LIMIT && y <= LIMIT && xy <= Curve(x0, y)
    ensures F(x0, y) == Curve(x0, y) && D(x0, y) > 0
    ensures var dy := StepSize(F(x0, y), xy, D(x0, y)); dy <= y && Tracked(x0, xy, y - dy)
  {
    hide Times, LongDivision, F, D, P, Curve, Slope, StepSize, Tracked;
    DownwardStep(x0, xy, y);
    RoundValues(x0, y);
    StepWithoutWrap(F(x0, y), xy, D(x0, y));
  }

  lemma RoundStaysBelow(x0: Word, xy: Word, y: Word, reserve: Word, decimals0: Word, decimals1: Word)
    requires decimals0 != 0 && decimals1 != 0
    requires Guard(x0, reserve) && Tracked(x0, xy, y) && Curve(x0, y) < xy < Curve(x0, reserve)
    ensures match NewtonRound(x0, xy, y, true, decimals0, decimals1)
            case Stop(_) => true
            case Next(y') => Tracked(x0, xy, y')
  {
    hide Times, F, D, K, P, Curve, Slope, StepSize, Tracked;
    if y >= reserve {
      CurveMonotone(x0, reserve, x0, y);
      assert false;
    }
    UpwardSize(x0, xy, y);
    TrackedUpward(x0, xy, y, y + StepSize(xy, F(x0, y), D(x0, y)));
    TrackedUpward(x0, xy, y, y + 1);
  }

  lemma RoundStaysAbove(x0: Word, xy: Word, y: Word, decimals0: Word, decimals1: Word)
    requires decimals0 != 0 && decimals1 != 0
    requires FLOOR_BALANCE <= x0 <= LIMIT && y <= LIMIT && xy <= Curve(x0, y)
    ensures match NewtonRound(x0, xy, y, true, decimals0, decimals1)
            case Stop(_) => true
            case Next(y') => Tracked(x0, xy, y')
  {
    hide Times, F, D, K, P, Curve, Slope, StepSize, Tracked;
    DownwardSize(x0, xy, y);
    RoundValues(x0, y);
    if y > 0 && Curve(x0, y - 1) >= xy {
      TrackedAbove(x0, xy, y - 1);
    }
  }

  /** Inside the guard no step of any run wraps. */
  lemma {:induction false} GuardedRunStays(rounds: nat, x0: Word, xy: Word, y: Word, reserve: Word, decimals0: Word,
                                           decimals1: Word)
    requires decimals0 != 0 && decimals1 != 0
    requires Guard(x0, reserve) && Tracked(x0, xy, y) && xy < Curve(x0, reserve)
    ensures StaysWithin(rounds, x0, xy, y, decimals0, decimals1)
    decreases rounds
  {
    hide NewtonRound, Curve, Slack;
    if rounds > 0 {
      if Curve(x0, y) < xy {
        RoundStaysBelow(x0, xy, y, reserve, decimals0, decimals1);
      } else {
        RoundStaysAbove(x0, xy, y, decimals0, decimals1);
      }
      match NewtonRound(x0, xy, y, true, decimals0, decimals1)
      case Stop(_) =>
      case Next(y') => GuardedRunStays(rounds - 1, x0, xy, y', reserve, decimals0, decimals1);
    }
  }

  // ----- answers that meet the target -----

  /** One token, or at least one and a half, on the input side. */
  predicate Ample(x0: nat) {
    x0 == WAD || 2 * x0 >= 3 * WAD
  }

  /** The iterate is at most one unit short of the target. */
  predicate Ahead(x0: nat, xy: nat, y: nat) {
    xy <= Curve(x0, y + 1)
  }

  /** How much the unrounded curve grows from z to z + 1. */
  function Growth(x: nat, z: nat): int {
    x * x * x + x * (3 * (z * z) + 3 * z + 1)
  }

  /** How far it lies above its tangent after a step of `dy` down from y. */
  function Gain(x: nat, y: nat, dy: nat): int {
    x * (dy * dy * (3 * y - dy))
  }

  function Square(n: nat): nat {
    n * n
  }

  function Cross(x: nat, z: nat): nat {
    x * z
  }

  lemma SquareExpands(x: nat, z: nat)
    ensures Square(x + z) == Square(x) + 2 * Cross(x, z) + Square(z)
  {
  }

  lemma CrossAtMost(x: nat, z: nat)
    ensures 20 * Cross(x, z) <= 4 * Square(x) + 34 * Square(z)
  {
    var u := 2 * x - 5 * z;
    assert u * u == 4 * (x * x) - 20 * (x * z) + 25 * (z * z);
    assert u * u >= 0;
  }

  lemma DerivativeAtLeast(x: nat, z: nat)
    requires 2 * x >= 3 * WAD
    ensures 2 * Derivative(x, z) >= 3 * WAD * (Square(x) + 3 * Square(z))
  {
    var s, t := x * x, z * z;
    MulMono(3 * WAD, 2 * x, s + 3 * t, s + 3 * t);
    assert 2 * x * (s + 3 * t) == 2 * (x * s) + 6 * (x * t);
    assert x * s == x * x * x;
  }

  /** What a step down loses by rounding the slope, against what it gains by convexity. */
  lemma ConvexityBeatsSlope(x: nat, y: nat, dy: nat)
    requires 2 * x >= 3 * WAD && dy <= y
    ensures dy * (4 * WAD * x + 2 * WAD * WAD) <= Gain(x, y, dy) + x * (20_000_000_000 * WAD)
  {
    MulMono(dy, dy, 4 * WAD * x + 2 * WAD * WAD, 6 * WAD * x);
    assert dy * (6 * WAD * x) == x * (6 * WAD * dy);
    StepCube(y, dy);
    MulMono(x, x, 6 * WAD * dy, dy * dy * (3 * y - dy) + 20_000_000_000 * WAD);
  }

  lemma StepCube(y: nat, dy: nat)
    requires dy <= y
    ensures 6 * WAD * dy <= dy * dy * (3 * y - dy) + 20_000_000_000 * WAD
  {
    MulMono(dy * dy, dy * dy, 2 * dy, 3 * y - dy);
    if dy >= 2_000_000_000 {
      MulMono(2_000_000_000, dy, 2_000_000_000, dy);
      MulMono(8 * WAD, 2 * (dy * dy), dy, dy);
      assert 2 * (dy * dy) * dy == dy * dy * (2 * dy);
    }
  }

  /** The unrounded curve one unit above the end of a step, against its tangent at the start. */
  lemma TangentGap(x: nat, y: nat, z: nat, dy: nat)
    requires y == z + dy
    ensures Poly(x, z + 1) == Poly(x, y) - dy * Derivative(x, y) + Growth(x, z) + Gain(x, y, dy)
  {
    CubeOfDifference(y, z, dy);
    CubeOfNext(z);
    assert y * y * y - dy * (3 * (y * y)) + dy * dy * (3 * y - dy) + (3 * (z * z) + 3 * z + 1)
        == (z + 1) * (z + 1) * (z + 1);
    var cube, y3, w3 := x * x * x, y * y * y, (z + 1) * (z + 1) * (z + 1);
    var d2, n := dy * dy * (3 * y - dy), 3 * (z * z) + 3 * z + 1;
    GapArithmeticOfTangent(x, cube, y, z, dy, y * y, y3, w3, d2, n);
  }

  lemma CubeOfDifference(y: nat, z: nat, dy: nat)
    requires y == z + dy
    ensures z * z * z == y * y * y - dy * (3 * (y * y)) + dy * dy * (3 * y - dy)
  {
    assert z == y - dy;
    assert z * z == y * y - 2 * (y * dy) + dy * dy;
    assert z * z * z == (y * y - 2 * (y * dy) + dy * dy) * (y - dy);
  }

  lemma CubeOfNext(z: nat)
    ensures (z + 1) * (z + 1) * (z + 1) == z * z * z + (3 * (z * z) + 3 * z + 1)
  {
    assert (z + 1) * (z + 1) == z * z + 2 * z + 1;
  }

  lemma GapArithmeticOfTangent(x: nat, cube: nat, y: nat, z: nat, dy: nat, yy: nat, y3: nat, w3: nat, d2: int, n: nat)
    requires y == z + dy && w3 == y3 - dy * (3 * yy) + d2 + n
    ensures cube * (z + 1) + x * w3 == cube * y + x * y3 - dy * (cube + 3 * (x * yy)) + cube + x * n + x * d2
  {
    assert cube * y == cube * z + cube * dy;
    assert x * w3 == x * y3 - x * (dy * (3 * yy)) + x * d2 + x * n;
    assert x * (dy * (3 * yy)) == dy * (3 * (x * yy));
    assert dy * (cube + 3 * (x * yy)) == dy * cube + dy * (3 * (x * yy));
  }

  /** The parts of the argument, so that only their relations are in sight where they are put together. */
  lemma AheadParts(x: nat, y: nat, z: nat, dy: nat)
    returns (g: nat, e: nat, g0: nat, g1: nat, s: nat, grow: int, gain: int, loss: nat)
    requires 2 * x >= 3 * WAD && y == z + dy
    ensures Curve(x, y) * WAD * WAD * WAD <= g0
    ensures Curve(x, z + 1) * WAD * WAD * WAD >= g1 - WAD * s - WAD * WAD * WAD
    ensures g <= Slope(x, y) * WAD * WAD + e
    ensures g1 == g0 - dy * g + grow + gain
    ensures dy * e <= gain + loss && grow > WAD * s + loss
  {
    hide Times, Fp, Curve, Slope, Poly, Derivative, Growth, Gain, Square, Cross;
    g, e := Derivative(x, y), 4 * WAD * x + 2 * WAD * WAD;
    g0, g1, s := Poly(x, y), Poly(x, z + 1), Square(x + (z + 1));
    grow, gain := Growth(x, z), Gain(x, y, dy);
    loss := x * (20_000_000_000 * WAD);
    CurveBelowPoly(x, y);
    CurveAbovePoly(x, z + 1);
    SquareOf(x + (z + 1));
    SlopeAgainstDerivative(x, y);
    TangentGap(x, y, z, dy);
    ConvexityBeatsSlope(x, y, dy);
    // the curve grows faster than its rounding can lose
    SquareExpands(x, z);
    CrossAtMost(x, z);
    DerivativeAtLeast(x, z);
    GrowthIsMore(x, z);
    NextSquare(x + z);
    SquareAtLeast(z, 10);
    HundredIsSquare();
    LargeSquare(x, 1_000_000_000_000);
    CrossOf(10, z);
    CrossOf(1_000_000_000_000, x);
  }

  /** A step down ends at most one unit short of the target, and the exit on the way up adds that unit. */
  lemma StepEndsAhead(x: nat, y: nat, xy: nat, dy: nat)
    requires 2 * x >= 3 * WAD && dy <= y && xy <= Curve(x, y)
    requires dy * Slope(x, y) <= (Curve(x, y) - xy) * WAD
    ensures Ahead(x, xy, y - dy)
  {
    hide Times, Fp, Curve, Slope;
    var g, e, g0, g1, s, grow, gain, loss := AheadParts(x, y, y - dy, dy);
    AheadArithmetic(Curve(x, y), Curve(x, y - dy + 1), xy, dy, Slope(x, y), g, e, g0, g1, s, grow, gain, loss);
  }

  lemma GrowthIsMore(x: nat, z: nat)
    ensures Growth(x, z) >= Derivative(x, z)
  {
    var u := x * (3 * z + 1);
    MulMono(0, x, 0, 3 * z + 1);
    assert x * (3 * (z * z) + 3 * z + 1) == 3 * (x * (z * z)) + u;
  }

  lemma SquareAtLeast(n: nat, m: nat)
    ensures 2 * Cross(m, n) <= Square(n) + Square(m)
  {
    assert (n - m) * (n - m) == n * n - 2 * (m * n) + m * m >= 0;
  }

  lemma LargeSquare(x: nat, m: nat)
    requires x >= m
    ensures Square(x) >= Cross(m, x)
  {
    MulMono(m, x, x, x);
  }

  lemma CrossOf(m: nat, x: nat)
    ensures Cross(m, x) == m * x
  {
  }

  lemma NextSquare(n: nat)
    ensures Square(n + 1) == Square(n) + 2 * n + 1
  {
  }

  lemma SquareOf(n: nat)
    ensures Square(n) == n * n
  {
  }

  lemma HundredIsSquare()
    ensures Square(10) == 100
  {
  }

  lemma AheadArithmetic(k: nat, k': nat, xy: nat, dy: nat, d: nat, g: nat, e: nat, g0: nat, g1: nat, s: nat, grow: int,
                        gain: int, loss: nat)
    requires k * WAD * WAD * WAD <= g0
    requires k' * WAD * WAD * WAD >= g1 - WAD * s - WAD * WAD * WAD
    requires g <= d * WAD * WAD + e && dy * d <= (k - xy) * WAD
    requires g1 == g0 - dy * g + grow + gain
    requires dy * e <= gain + loss && grow > WAD * s + loss
    ensures xy <= k'
  {
    MulMono(dy, dy, g, d * WAD * WAD + e);
    assert dy * (d * WAD * WAD + e) == (dy * d) * WAD * WAD + dy * e;
  }

  /** The same for one token, where the curve is y + y * floor(y * y / 1e18) / 1e18. */
  lemma TokenEndsAhead(y: nat, xy: nat, dy: nat)
    requires dy <= y && xy <= Curve(WAD, y)
    requires dy * Slope(WAD, y) <= (Curve(WAD, y) - xy) * WAD
    ensures Ahead(WAD, xy, y - dy)
  {
    hide Times, Fp;
    var z: nat := y - dy;
    TokenValues(y);
    TokenValues(z + 1);
    FpIsFloor(y, y);
    FpIsFloor(z + 1, z + 1);
    TokenStep(y, z, dy, xy, Curve(WAD, y), Fp(y, y), Fp(z + 1, z + 1));
    FloorIsGreatest((z + 1) * (WAD + Fp(z + 1, z + 1)), WAD, xy);
  }

  lemma TokenValues(y: nat)
    ensures Curve(WAD, y) == y * (WAD + Fp(y, y)) / WAD && Slope(WAD, y) == 3 * Fp(y, y) + WAD
  {
    hide Times;
    TimesIsProduct(WAD, y);
    TimesIsProduct(WAD, WAD);
    TimesIsProduct(3 * WAD, Fp(y, y));
    TimesIsProduct(y, WAD + Fp(y, y));
  }

  lemma TokenStep(y: nat, z: nat, dy: nat, xy: nat, k: nat, yy: nat, ww: nat)
    requires y == z + dy && k * WAD <= y * (WAD + yy) && dy * (3 * yy + WAD) <= (k - xy) * WAD
    requires yy * WAD <= y * y && (z + 1) * (z + 1) < ww * WAD + WAD
    ensures xy * WAD <= (z + 1) * (WAD + ww)
  {
    TokenCubes(y, z, dy, yy, ww);
    Distribute(y, WAD, yy);
    Distribute(dy, 3 * yy, WAD);
    Distribute(z + 1, WAD, ww);
    TripleProduct(y, dy, yy);
    TokenSum(y, z, dy, xy, k, y * yy, dy * (3 * yy), (z + 1) * ww, yy * (y - 3 * dy));
  }

  lemma Distribute(a: nat, b: nat, c: nat)
    ensures a * (b + c) == a * b + a * c
  {
  }

  lemma TripleProduct(y: nat, dy: nat, yy: nat)
    ensures yy * (y - 3 * dy) == y * yy - dy * (3 * yy)
  {
  }

  lemma TokenSum(y: nat, z: nat, dy: nat, xy: nat, k: nat, q: int, p: int, r: int, m: int)
    requires y == z + dy && k * WAD <= y * WAD + q && p + dy * WAD <= (k - xy) * WAD
    requires m == q - p && m <= WAD + r
    ensures xy * WAD <= (z + 1) * WAD + r
  {
  }

  lemma BelowCube(y: nat, z: nat, dy: nat, yy: nat)
    requires y == z + dy && yy * WAD <= y * y && y >= 3 * dy
    ensures yy * (y - 3 * dy) * WAD <= z * z * z
  {
    var rest: nat := y - 3 * dy;
    MulMono(yy * WAD, y * y, rest, rest);
    assert yy * rest * WAD == yy * WAD * rest;
    CubeOfDifference(y, z, dy);
    assert y * y * rest == y * y * y - dy * (3 * (y * y));
    MulMono(0, dy * dy, 0, 3 * y - dy);
  }

  lemma NextCube(z: nat, ww: nat)
    requires (z + 1) * (z + 1) < ww * WAD + WAD
    ensures z * z * z + (3 * (z * z) + 3 * z + 1) <= (z + 1) * ww * WAD + (z + 1) * WAD
  {
    CubeOfNext(z);
    MulMono(z + 1, z + 1, (z + 1) * (z + 1), ww * WAD + WAD);
    assert (z + 1) * (ww * WAD + WAD) == (z + 1) * ww * WAD + (z + 1) * WAD;
    assert (z + 1) * ((z + 1) * (z + 1)) == (z + 1) * (z + 1) * (z + 1);
  }

  lemma TokenGlue(z: nat, p: int, q: int, cube: int, n: int)
    requires p * WAD <= cube && cube + n <= q * WAD + (z + 1) * WAD && n + WAD * WAD >= (z + 1) * WAD
    ensures p <= WAD + q
  {
  }

  lemma TokenCubes(y: nat, z: nat, dy: nat, yy: nat, ww: nat)
    requires y == z + dy && yy * WAD <= y * y && (z + 1) * (z + 1) < ww * WAD + WAD
    ensures yy * (y - 3 * dy) <= WAD + (z + 1) * ww
  {
    if y >= 3 * dy {
      BelowCube(y, z, dy, yy);
      NextCube(z, ww);
      TokenQuadratic(z);
      TokenGlue(z, yy * (y - 3 * dy), (z + 1) * ww, z * z * z, 3 * (z * z) + 3 * z + 1);
    } else {
      NotPositive(yy, 3 * dy - y);
      MulMono(0, z + 1, 0, ww);
    }
  }

  lemma NotPositive(a: nat, b: nat)
    ensures a * (0 - b) <= 0
  {
    MulMono(0, a, 0, b);
  }

  lemma TokenQuadratic(z: nat)
    ensures 3 * (z * z) + 3 * z + 1 + WAD * WAD >= (z + 1) * WAD
  {
    var u := 6 * z - WAD;
    assert u * u == 36 * (z * z) - 12 * (z * WAD) + WAD * WAD >= 0;
  }

  lemma FallsAhead(x0: nat, y: nat, xy: nat, dy: nat)
    requires Ample(x0) && dy <= y && xy <= Curve(x0, y)
    requires dy * Slope(x0, y) <= (Curve(x0, y) - xy) * WAD
    ensures Ahead(x0, xy, y - dy)
  {
    hide Times, Fp, Curve, Slope, Ahead;
    if x0 == WAD {
      TokenEndsAhead(y, xy, dy);
    } else {
      StepEndsAhead(x0, y, xy, dy);
    }
  }

  lemma AheadUpward(x0: nat, xy: nat, y: nat, y': nat)
    requires Ahead(x0, xy, y) && y <= y'
    ensures Ahead(x0, xy, y')
  {
    hide Times, Fp, Curve;
    CurveMonotone(x0, y + 1, x0, y' + 1);
  }

  /** The step down, as the program computes it, ends ahead. */
  lemma DownwardEndsAhead(x0: Word, xy: Word, y: Word)
    requires Ample(x0) && x0 <= LIMIT && y <= LIMIT && xy <= Curve(x0, y) && D(x0, y) > 0
    requires StepSize(F(x0, y), xy, D(x0, y)) <= y
    ensures Ahead(x0, xy, y - StepSize(F(x0, y), xy, D(x0, y)))
  {
    hide Times, LongDivision, F, D, P, Curve, Slope, StepSize, Ahead, Ample;
    RoundValues(x0, y);
    StepWithoutWrap(F(x0, y), xy, D(x0, y));
    FloorBounds((Curve(x0, y) - xy) * WAD, Slope(x0, y));
    FallsAhead(x0, y, xy, StepSize(F(x0, y), xy, D(x0, y)));
  }

  /** What a round does with an iterate that is ahead: an answer on the target, or the next one ahead. */
  ghost predicate RoundMeets(x0: nat, xy: nat, r: Round) {
    match r
    case Stop(root) => root != 0 ==> Curve(x0, root) >= xy
    case Next(y) => Ahead(x0, xy, y)
  }

  lemma RoundBelowMeets(x0: Word, xy: Word, y: Word, reserve: Word, decimals0: Word, decimals1: Word)
    requires decimals0 != 0 && decimals1 != 0
    requires Guard(x0, reserve) && Tracked(x0, xy, y) && Ahead(x0, xy, y) && Curve(x0, y) < xy < Curve(x0, reserve)
    ensures RoundMeets(x0, xy, NewtonRound(x0, xy, y, true, decimals0, decimals1))
  {
    hide Times, F, D, K, P, Curve, Slope, StepSize, Tracked;
    if y >= reserve {
      CurveMonotone(x0, reserve, x0, y);
      assert false;
    }
    UpwardSize(x0, xy, y);
    AheadUpward(x0, xy, y, y + StepSize(xy, F(x0, y), D(x0, y)));
    AheadUpward(x0, xy, y, y + 1);
  }

  lemma RoundAboveMeets(x0: Word, xy: Word, y: Word, decimals0: Word, decimals1: Word)
    requires decimals0 != 0 && decimals1 != 0
    requires Ample(x0) && x0 <= LIMIT && y <= LIMIT && xy <= Curve(x0, y)
    ensures RoundMeets(x0, xy, NewtonRound(x0, xy, y, true, decimals0, decimals1))
  {
    hide Times, F, D, K, P, Curve, Slope, StepSize, Tracked;
    DownwardSize(x0, xy, y);
    DownwardEndsAhead(x0, xy, y);
    RoundValues(x0, y);
  }

  /** From one and a half tokens on the input side, or with exactly one, answers meet the target, whatever the decimals. */
  lemma {:induction false} AmpleRunMeets(rounds: nat, x0: Word, xy: Word, y: Word, reserve: Word,
                                         decimals0: Word, decimals1: Word)
    requires decimals0 != 0 && decimals1 != 0 && Ample(x0)
    requires Guard(x0, reserve) && Tracked(x0, xy, y) && Ahead(x0, xy, y) && xy < Curve(x0, reserve)
    ensures var root := Newton(rounds, x0, xy, y, true, decimals0, decimals1);
            root != 0 ==> Curve(x0, root) >= xy
    decreases rounds
  {
    hide NewtonRound, Curve, Slack, Ample;
    if rounds > 0 {
      if Curve(x0, y) < xy {
        RoundStaysBelow(x0, xy, y, reserve, decimals0, decimals1);
        RoundBelowMeets(x0, xy, y, reserve, decimals0, decimals1);
      } else {
        RoundStaysAbove(x0, xy, y, decimals0, decimals1);
        RoundAboveMeets(x0, xy, y, decimals0, decimals1);
      }
      match NewtonRound(x0, xy, y, true, decimals0, decimals1)
      case Stop(_) =>
      case Next(y') => AmpleRunMeets(rounds - 1, x0, xy, y', reserve, decimals0, decimals1);
    }
  }

  // ----- from the reserve -----

  /** From the reserve itself, where the answer is the reserve if the target is the curve there. */
  lemma RoundAtRoot(x0: Word, reserve: Word, decimals0: Word, decimals1: Word)
    requires decimals0 != 0 && decimals1 != 0 && Small(x0, reserve)
    ensures Curve(x0, reserve) < MODULUS
    ensures NewtonRound(x0, Curve(x0, reserve), reserve, true, decimals0, decimals1)
         == Stop(if Slope(x0, reserve) == 0 then 0 else reserve)
  {
    hide Times, LongDivision, F, D, K, P, Curve, Slope, Fp;
    RoundValues(x0, reserve);
    if Slope(x0, reserve) > 0 {
      hide StepSize;
      StepWithoutWrap(Curve(x0, reserve), Curve(x0, reserve), D(x0, reserve));
      FloorIsGreatest(0, D(x0, reserve), 1);
      FloorIsGreatest(0, D(x0, reserve), 0);
    }
  }

  /**
    What the swap relies on.  From the reserve, at or above the target, a nonzero answer is at most the reserve and
    solves the curve: inside the guard, and for any smaller input-side balance if no step of the run has wrapped.
    With an ample input side it also meets the target.
  */
  lemma {:induction false} NewtonFromReserve(rounds: nat, x0: Word, xy: Word, reserve: Word, decimals0: Word,
                                             decimals1: Word)
    requires decimals0 != 0 && decimals1 != 0
    requires Small(x0, reserve) && xy <= Curve(x0, reserve)
    ensures Guard(x0, reserve) ==> StaysWithin(rounds, x0, xy, reserve, decimals0, decimals1)
    ensures StaysWithin(rounds, x0, xy, reserve, decimals0, decimals1) ==>
              var root := Newton(rounds, x0, xy, reserve, true, decimals0, decimals1);
              root != 0 ==> root <= reserve && IsRoot(x0, xy, root, decimals0, decimals1)
    ensures Ample(x0) ==>
              var root := Newton(rounds, x0, xy, reserve, true, decimals0, decimals1);
              root != 0 ==> Curve(x0, root) >= xy
  {
    hide NewtonRound, Curve, Slope, Slack;
    if xy < Curve(x0, reserve) {
      TrackedAbove(x0, xy, reserve);
      if Ample(x0) {
        hide Times, Fp;
        CurveMonotone(x0, reserve, x0, reserve + 1);
        AmpleRunMeets(rounds, x0, xy, reserve, reserve, decimals0, decimals1);
      }
      if Guard(x0, reserve) {
        GuardedRunStays(rounds, x0, xy, reserve, reserve, decimals0, decimals1);
      }
      if StaysWithin(rounds, x0, xy, reserve, decimals0, decimals1) {
        RunAnswers(rounds, x0, xy, reserve, reserve, decimals0, decimals1);
      }
    } else {
      RoundAtRoot(x0, reserve, decimals0, decimals1);
    }
  }

  method GetY(x0: Word, xy: Word, y0: Word, stable: bool, decimals0: Word, decimals1: Word) returns (root: Word)
    requires decimals0 != 0 && decimals1 != 0
    ensures root == Newton(255, x0, xy, y0, stable, decimals0, decimals1)
  {
    root := Iterate(255, x0, xy, y0, stable, decimals0, decimals1);
  }

  method Iterate(rounds: nat, x0: Word, xy: Word, y0: Word, stable: bool, decimals0: Word,
                 decimals1: Word) returns (root: Word)
    requires decimals0 != 0 && decimals1 != 0
    ensures root == Newton(rounds, x0, xy, y0, stable, decimals0, decimals1)
  {
    var y := y0;
    for i := 0 to rounds
      invariant Newton(rounds, x0, xy, y0, stable, decimals0, decimals1)
             == Newton(rounds - i, x0, xy, y, stable, decimals0, decimals1)
    {
      var round := Pass(x0, xy, y, stable, decimals0, decimals1);
      match round
      case Stop(answer) => return answer;
      case Next(next) => y := next;
    }
    return 0;
  }

  /** One pass of the loop: an answer, or the next y. */
  method Pass(x0: Word, xy: Word, y: Word, stable: bool, decimals0: Word, decimals1: Word) returns (round: Round)
    requires decimals0 != 0 && decimals1 != 0
    ensures round == NewtonRound(x0, xy, y, stable, decimals0, decimals1)
  {
    var k := F(x0, y);
    var d := D(x0, y);
    if d == 0 {
      return Stop(0);
    }
    if k < xy {
      var dy := StepSize(xy, k, d);
      if dy == 0 {
        if k == xy {
          return Stop(y);
        }
        if K(x0, Add(y, 1), stable, decimals0, decimals1) > xy {
          return Stop(Add(y, 1));
        }
        dy := 1;
      }
      return Next(Add(y, dy));
    } else {
      var dy := StepSize(k, xy, d);
      if dy == 0 {
        if k == xy || F(x0, Sub(y, 1)) < xy {
          return Stop(y);
        }
        dy := 1;
      }
      return Next(Sub(y, dy));
    }
  }

  // ----- the swap -----

  datatype Pool = Pool(reserve0: Word, reserve1: Word, fee: Word, unit0: Word, unit1: Word, stable: bool)

  ghost predicate ValidPool(p: Pool) {
    p.unit0 != 0 && p.unit1 != 0 && p.fee <= 10_000 && p.reserve0 < RESERVE_BOUND && p.reserve1 < RESERVE_BOUND
  }

  /** Reserves are 112-bit on chain; amounts in are taken below 2^128. */
  const RESERVE_BOUND: nat := 0x1_0000_0000_0000_0000_0000_0000_0000
  const AMOUNT_BOUND: nat := 0x1_0000_0000_0000_0000_0000_0000_0000_0000

  function AfterFee(amountIn: Word, fee: Word): Word {
    Sub(amountIn, Mul(amountIn, fee) / 10_000)
  }

  /** Input-side reserve, output-side reserve and input, all with 18 decimals. */
  function Sides(p: Pool, amountIn: Word, fromToken0: bool): (Word, Word, Word)
    requires p.unit0 != 0 && p.unit1 != 0
  {
    var (s0, s1) := (Scale(p.reserve0, p.unit0), Scale(p.reserve1, p.unit1));
    if fromToken0 then (s0, s1, Scale(amountIn, p.unit0)) else (s1, s0, Scale(amountIn, p.unit1))
  }

  lemma FeeKeepsBound(amountIn: Word, fee: Word)
    requires amountIn < AMOUNT_BOUND && fee <= 10_000
    ensures 0 <= AfterFee(amountIn, fee) <= amountIn
  {
    MulMono(amountIn, amountIn, fee, 10_000);
    MulExact(amountIn, fee);
  }

  /** The curve over the two scaled reserves is the target handed to the solver. */
  lemma TargetIsCurve(reserve0: Word, reserve1: Word, unit0: Word, unit1: Word)
    requires unit0 != 0 && unit1 != 0
    ensures var s0, s1 := Scale(reserve0, unit0), Scale(reserve1, unit1);
            s0 <= LIMIT && s1 <= LIMIT ==>
              K(reserve0, reserve1, true, unit0, unit1) == Curve(s0, s1) == Curve(s1, s0)
  {
    var s0, s1 := Scale(reserve0, unit0), Scale(reserve1, unit1);
    if s0 <= LIMIT && s1 <= LIMIT {
      CurveDoesNotWrap(s0, s1);
      CurveSymmetric(s0, s1);
    }
  }

  lemma OutputWithinReserve(reserve: Word, unit: Word, y: Word)
    requires unit != 0 && reserve < RESERVE_BOUND && y <= Scale(reserve, unit)
    ensures Mul(y, unit) == y * unit && Mul(y, unit) / WAD <= reserve
    ensures unit == WAD ==> Mul(y, unit) / WAD == y
  {
    MulExact(reserve, WAD);
    DivIsFloor(reserve * WAD, unit);
    MulMono(y, Scale(reserve, unit), unit, unit);
    MulExact(y, unit);
  }

  /** What the stable branch promises of an answer: within the reserve, and a root of the curve at the reserves. */
  ghost predicate StablePromise(p: Pool, a: Word, b: Word, amount: Word, root: Word) {
    && root <= b
    && (root != 0 ==> IsRoot(a + amount, Curve(a, b), root, p.unit0, p.unit1))
    && (root != 0 && Ample(a + amount) ==> Curve(a + amount, root) >= Curve(a, b))
  }

  /** No step of the run has wrapped; inside the guard none does. */
  ghost predicate Unwrapped(p: Pool, a: Word, b: Word, amount: Word)
    requires p.unit0 != 0 && p.unit1 != 0
  {
    var xy := K(p.reserve0, p.reserve1, true, p.unit0, p.unit1);
    Small(a + amount, b) && StaysWithin(255, a + amount, xy, b, p.unit0, p.unit1)
  }

  lemma {:induction false} SolverKeepsPromise(p: Pool, a: Word, b: Word, amount: Word, xy: Word)
    requires p.unit0 != 0 && p.unit1 != 0 && xy == K(p.reserve0, p.reserve1, true, p.unit0, p.unit1)
    requires Small(a + amount, b) ==> xy == Curve(a, b)
    ensures Guard(a + amount, b) ==> Unwrapped(p, a, b, amount)
    ensures Unwrapped(p, a, b, amount) ==>
              StablePromise(p, a, b, amount, Newton(255, Add(amount, a), xy, b, true, p.unit0, p.unit1))
  {
    hide Newton, StaysWithin, Curve, IsRoot, K;
    if Small(a + amount, b) {
      CurveMonotone(a, b, a + amount, b);
      NewtonFromReserve(255, a + amount, xy, b, p.unit0, p.unit1);
    }
  }

  lemma VolatileOutput(a: Word, b: Word, amount: Word)
    requires a < RESERVE_BOUND && b < RESERVE_BOUND && amount < AMOUNT_BOUND && a + amount > 0
    ensures Add(a, amount) == a + amount
    ensures var out := Div(Mul(amount, b), Add(a, amount));
            out <= b && forall o: nat :: o <= out <==> KeepsProduct(a, b, amount, o)
  {
    hide Times, LongDivision;
    MulMono(amount, AMOUNT_BOUND, b, RESERVE_BOUND);
    MulExact(amount, b);
    DivIsFloor(amount * b, a + amount);
    QuotientOfShare(amount, b, a + amount);
    forall o: nat ensures o <= amount * b / (a + amount) <==> KeepsProduct(a, b, amount, o) {
      FloorIsGreatest(amount * b, a + amount, o);
      ShareArithmetic(a, b, amount, o);
    }
  }

  lemma ShareArithmetic(a: nat, b: nat, amount: nat, o: nat)
    ensures o * (a + amount) <= amount * b <==> KeepsProduct(a, b, amount, o)
  {
    assert (a + amount) * (b - o) == a * b + amount * b - o * (a + amount);
  }

  lemma QuotientOfShare(m: nat, b: nat, d: nat)
    requires m <= d && d > 0
    ensures 0 <= m * b / d <= b
  {
    MulMono(m, d, b, b);
    FloorIsGreatest(m * b, d, 0);
    if m * b / d >= b + 1 {
      FloorIsGreatest(m * b, d, b + 1);
      assert false;
    }
  }

  /** The output side of a swap: raw reserve and unit. */
  function OutSide(p: Pool, fromToken0: bool): (Word, Word) {
    if fromToken0 then (p.reserve1, p.unit1) else (p.reserve0, p.unit0)
  }

  /** The solver's answer for a swap. */
  function Root(p: Pool, amountAfterFee: Word, fromToken0: bool): Word
    requires p.unit0 != 0 && p.unit1 != 0
  {
    var (a, b, amount) := Sides(p, amountAfterFee, fromToken0);
    Newton(255, Add(amount, a), K(p.reserve0, p.reserve1, true, p.unit0, p.unit1), b, true, p.unit0, p.unit1)
  }

  /** The output of the stable branch. */
  function StableQuote(p: Pool, amountAfterFee: Word, fromToken0: bool): Word
    requires p.unit0 != 0 && p.unit1 != 0
  {
    var (_, b, _) := Sides(p, amountAfterFee, fromToken0);
    Mul(Sub(b, Root(p, amountAfterFee, fromToken0)), OutSide(p, fromToken0).1) / WAD
  }

  /** That of the volatile branch; None stands for the division by zero that aborts the program. */
  function VolatileQuote(p: Pool, amount: Word, fromToken0: bool): Option<Word> {
    var (a, b) := if fromToken0 then (p.reserve0, p.reserve1) else (p.reserve1, p.reserve0);
    if Add(a, amount) == 0 then None else Some(Div(Mul(amount, b), Add(a, amount)))
  }

  /** Everything promised of a stable swap. */
  ghost predicate StableSpec(p: Pool, amountAfterFee: Word, fromToken0: bool, out: Word)
    requires ValidPool(p)
  {
    var (a, b, amount) := Sides(p, amountAfterFee, fromToken0);
    var (reserve, unit) := OutSide(p, fromToken0);
    var root := Root(p, amountAfterFee, fromToken0);
    && out == StableQuote(p, amountAfterFee, fromToken0)
    && (Guard(a + amount, b) ==> Unwrapped(p, a, b, amount))
    && (Unwrapped(p, a, b, amount) ==> StablePromise(p, a, b, amount, root) && out <= reserve && (unit == WAD ==> out == b - root))
  }

  method StableOut(p: Pool, amountAfterFee: Word, fromToken0: bool) returns (out: Word)
    requires ValidPool(p)
    ensures StableSpec(p, amountAfterFee, fromToken0, out)
  {
    hide Newton, StaysWithin, Curve, IsRoot, Scale, Guard, Mul, Sub, StablePromise, K;
    var xy := K(p.reserve0, p.reserve1, true, p.unit0, p.unit1);
    var reserve0 := Scale(p.reserve0, p.unit0);
    var reserve1 := Scale(p.reserve1, p.unit1);
    var (reserveA, reserveB) := if fromToken0 then (reserve0, reserve1) else (reserve1, reserve0);
    var amountIn := if fromToken0 then Scale(amountAfterFee, p.unit0) else Scale(amountAfterFee, p.unit1);
    assert (reserveA, reserveB, amountIn) == Sides(p, amountAfterFee, fromToken0);
    TargetIsCurve(p.reserve0, p.reserve1, p.unit0, p.unit1);
    SolverKeepsPromise(p, reserveA, reserveB, amountIn, xy);
    var root := GetY(Add(amountIn, reserveA), xy, reserveB, true, p.unit0, p.unit1);
    var y := Sub(reserveB, root);
    out := Mul(y, if fromToken0 then p.unit1 else p.unit0) / WAD;
    if Unwrapped(p, reserveA, reserveB, amountIn) {
      var (reserve, unit) := OutSide(p, fromToken0);
      RootWithinReserve(p, reserveA, reserveB, amountIn, reserve, unit, root);
    }
  }

  lemma RootWithinReserve(p: Pool, a: Word, b: Word, amount: Word, reserve: Word, unit: Word, root: Word)
    requires unit != 0 && reserve < RESERVE_BOUND && b == Scale(reserve, unit) && StablePromise(p, a, b, amount, root)
    ensures Mul(Sub(b, root), unit) / WAD <= reserve
    ensures unit == WAD ==> Mul(Sub(b, root), unit) / WAD == b - root
  {
    hide Times, Scale, Mul, IsRoot, Curve;
    assert Sub(b, root) == b - root;
    OutputWithinReserve(reserve, unit, b - root);
  }

  /** The volatile branch: an amount is at most the output if and only if paying it keeps the product. */
  ghost predicate VolatileSpec(p: Pool, amountIn: Word, fromToken0: bool, out: Option<Word>) {
    var (a, b) := if fromToken0 then (p.reserve0, p.reserve1) else (p.reserve1, p.reserve0);
    && out == VolatileQuote(p, amountIn, fromToken0)
    && (out.None? <==> a == 0 && amountIn == 0)
    && (out.Some? ==> out.value <= b && forall o: nat :: o <= out.value <==> KeepsProduct(a, b, amountIn, o))
  }

  predicate KeepsProduct(a: nat, b: nat, amount: nat, o: nat) {
    (a + amount) * (b - o) >= a * b
  }

  method VolatileOut(p: Pool, amountIn: Word, fromToken0: bool) returns (out: Option<Word>)
    requires ValidPool(p) && amountIn < AMOUNT_BOUND
    ensures VolatileSpec(p, amountIn, fromToken0, out)
  {
    var (reserveA, reserveB) := if fromToken0 then (p.reserve0, p.reserve1) else (p.reserve1, p.reserve0);
    if Add(reserveA, amountIn) == 0 {
      return None;
    }
    out := Some(Div(Mul(amountIn, reserveB), Add(reserveA, amountIn)));
    VolatileOutput(reserveA, reserveB, amountIn);
  }

  function AerodromeQuote(p: Pool, amountIn: Word, fromToken0: bool): Option<Word>
    requires p.unit0 != 0 && p.unit1 != 0
  {
    var amount := AfterFee(amountIn, p.fee);
    if p.stable then Some(StableQuote(p, amount, fromToken0)) else VolatileQuote(p, amount, fromToken0)
  }

  method AerodromeOut(p: Pool, amountIn0: Word, fromToken0: bool) returns (out: Option<Word>)
    requires ValidPool(p) && amountIn0 < AMOUNT_BOUND
    ensures var amount := AfterFee(amountIn0, p.fee);
            && out == AerodromeQuote(p, amountIn0, fromToken0)
            && if p.stable then out.Some? && StableSpec(p, amount, fromToken0, out.value)
               else VolatileSpec(p, amount, fromToken0, out)
  {
    hide Mul, Sub, StableQuote, VolatileQuote;
    var amountIn := amountIn0;
    amountIn := Sub(amountIn, Mul(amountIn, p.fee) / 10_000);
    FeeKeepsBound(amountIn0, p.fee);
    if p.stable {
      var y := StableOut(p, amountIn, fromToken0);
      out := Some(y);
    } else {
      out := VolatileOut(p, amountIn, fromToken0);
    }
  }
}
