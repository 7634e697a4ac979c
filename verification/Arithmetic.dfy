/** Small facts about products and floor division that the rest of the project leans on. */
module Arithmetic {

  lemma MulMono(a: nat, b: nat, c: nat, d: nat)
    requires a <= b && c <= d
    ensures a * c <= b * d
  {
    assert a * c <= b * c;
    assert b * c <= b * d;
  }

  /** The floor is the greatest multiplier that fits. */
  lemma FloorIsGreatest(n: nat, d: nat, q: nat)
    requires 0 < d
    ensures q <= n / d <==> q * d <= n
  {
    var f := n / d;
    assert f * d <= n < f * d + d;
    if q <= f {
      MulMono(q, f, d, d);
    } else {
      MulMono(f + 1, q, d, d);
    }
  }

  lemma FloorBounds(n: nat, d: nat)
    requires 0 < d
    ensures (n / d) * d <= n < (n / d) * d + d
  {
  }

  lemma DivMono(a: nat, b: nat, d: nat)
    requires a <= b && 0 < d
    ensures a / d <= b / d
  {
    FloorBounds(a, d);
    FloorIsGreatest(b, d, a / d);
  }

  /** A divisor of at least `least` keeps the quotient at most `m`. */
  lemma QuotientAtMost(n: nat, d: nat, m: nat, least: nat)
    requires 0 < least <= d && n < (m + 1) * least
    ensures 0 <= n / d <= m
  {
    FloorIsGreatest(n, d, 0);
    if n / d >= m + 1 {
      FloorIsGreatest(n, d, m + 1);
      MulMono(m + 1, m + 1, least, d);
      assert false;
    }
  }

  lemma QuotientExact(n: nat, d: nat, q: nat)
    requires d > 0 && q * d <= n < q * d + d
    ensures n / d == q
  {
    FloorIsGreatest(n, d, q);
    FloorIsGreatest(n, d, q + 1);
  }

  /** Floor division of any integer is determined by its bounds; so is the remainder. */
  lemma DivisionUnique(n: int, d: nat, q: int)
    requires d > 0 && q * d <= n < q * d + d
    ensures n / d == q && n % d == n - q * d
  {
    var f := n / d;
    assert f * d <= n < f * d + d by {
      assert n == f * d + n % d;
    }
    if q < f {
      assert (f - q) * d >= d by { MulMono(1, f - q, d, d); }
      assert false;
    } else if f < q {
      assert (q - f) * d >= d by { MulMono(1, q - f, d, d); }
      assert false;
    }
  }

  // ----- word arithmetic, digit by digit -----

  /** Shift and add.  A proof knows of it what it asks for: `TimesIsProduct`. */
  function Times(a: nat, b: nat): nat {
    if a == 0 then 0 else 2 * Times(a / 2, b) + if a % 2 == 1 then b else 0
  }

  /** One more binary digit `d` of a factor. */
  lemma DigitProduct(h: nat, d: nat, b: nat)
    requires d < 2
    ensures (2 * h + d) * b == 2 * (h * b) + if d == 1 then b else 0
  {
  }

  lemma {:induction false} TimesStep(a: nat, b: nat)
    ensures Times(a, b) == if a == 0 then 0 else 2 * Times(a / 2, b) + if a % 2 == 1 then b else 0
  {
  }

  lemma {:induction false} TimesIsProduct(a: nat, b: nat)
    ensures Times(a, b) == a * b
  {
    TimesStep(a, b);
    hide Times;
    if a > 0 {
      TimesIsProduct(a / 2, b);
      DigitProduct(a / 2, a % 2, b);
      assert 2 * (a / 2) + a % 2 == a;
    }
  }

  /** Long division: quotient and remainder. */
  function LongDivision(a: nat, b: nat): (nat, nat)
    requires b > 0
  {
    if a < b then (0, a)
    else
      var (q, r) := LongDivision(a / 2, b);
      var next := 2 * r + a % 2;
      if next < b then (2 * q, next) else (2 * q + 1, next - b)
  }

  /** One more binary digit `d` of the dividend. */
  lemma NextDigit(h: nat, d: nat, b: nat, q: nat, r: nat)
    requires b > 0 && d < 2 && r < b && h == q * b + r
    ensures var next := 2 * r + d;
            if next < b then (2 * h + d) / b == 2 * q && (2 * h + d) % b == next
            else (2 * h + d) / b == 2 * q + 1 && (2 * h + d) % b == next - b
  {
    var next := 2 * r + d;
    if next < b {
      assert 2 * q * b == 2 * (q * b);
      DivisionUnique(2 * h + d, b, 2 * q);
    } else {
      assert (2 * q + 1) * b == 2 * (q * b) + b;
      DivisionUnique(2 * h + d, b, 2 * q + 1);
    }
  }

  lemma DivideWithRemainder(n: nat, d: nat)
    requires d > 0
    ensures n == (n / d) * d + n % d && n / d >= 0 && 0 <= n % d < d
  {
    FloorIsGreatest(n, d, 0);
  }

  lemma {:induction false} LongDivisionIsFloor(a: nat, b: nat)
    requires b > 0
    ensures LongDivision(a, b) == (a / b, a % b)
  {
    if a < b {
      DivisionUnique(a, b, 0);
    } else {
      LongDivisionIsFloor(a / 2, b);
      DivideWithRemainder(a / 2, b);
      NextDigit(a / 2, a % 2, b, a / 2 / b, a / 2 % b);
    }
  }
}
