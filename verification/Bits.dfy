/** Bitwise operators on words, defined bit by bit, and the arithmetic they amount to on packed fields. */
module Bits {
  import opened Arithmetic
  import opened U256

  function Pow2(n: nat): (p: nat)
    ensures p > 0
  {
    if n == 0 then 1 else 2 * Pow2(n - 1)
  }

  function And(a: nat, b: nat): nat {
    if a == 0 || b == 0 then 0
    else 2 * And(a / 2, b / 2) + if a % 2 == 1 && b % 2 == 1 then 1 else 0
  }

  function Or(a: nat, b: nat): nat {
    if a == 0 then b
    else if b == 0 then a
    else 2 * Or(a / 2, b / 2) + if a % 2 == 1 || b % 2 == 1 then 1 else 0
  }

  lemma {:induction false} PowersMultiply(m: nat, n: nat)
    ensures Pow2(m + n) == Pow2(m) * Pow2(n)
  {
    if m > 0 {
      PowersMultiply(m - 1, n);
    }
  }

  lemma {:induction false} PowersGrow(m: nat, n: nat)
    requires m <= n
    ensures Pow2(m) <= Pow2(n)
  {
    if m < n {
      PowersGrow(m, n - 1);
    }
  }

  lemma WordsHave256Bits()
    ensures Pow2(16) == 0x1_0000
    ensures Pow2(256) == MODULUS
  {
    assert Pow2(8) == 0x100;
    PowersMultiply(8, 8);
    PowersMultiply(16, 16);
    PowersMultiply(32, 32);
    PowersMultiply(64, 64);
    PowersMultiply(128, 128);
    assert Pow2(128) == 0x1_0000000000000000_0000000000000000;
  }

  /** Doubling pushes a remainder and a quotient along. */
  lemma HalfRemainder(a: nat, p: nat)
    requires p > 0
    ensures a % (2 * p) == 2 * (a / 2 % p) + a % 2
  {
    var h := a / 2;
    var q := h / p;
    assert h == q * p + h % p;
    assert a == 2 * h + a % 2;
    assert q * (2 * p) == 2 * (q * p);
    DivisionUnique(a, 2 * p, q);
  }

  lemma {:induction false} AndOdd(a: nat, m: nat)
    requires a > 0
    ensures And(a, 2 * m + 1) == 2 * And(a / 2, m) + a % 2
  {
    var b := 2 * m + 1;
    assert b / 2 == m && b % 2 == 1;
  }

  /** Masking keeps the low bits. */
  lemma {:induction false} AndMask(a: nat, n: nat)
    ensures And(a, Pow2(n) - 1) == a % Pow2(n)
  {
    if n == 0 {
    } else if a == 0 {
      DivisionUnique(0, Pow2(n), 0);
    } else {
      var p := Pow2(n - 1);
      AndMask(a / 2, n - 1);
      HalfRemainder(a, p);
      AndOdd(a, p - 1);
    }
  }

  lemma {:induction false} OrSymmetric(a: nat, b: nat)
    ensures Or(a, b) == Or(b, a)
  {
    if a > 0 && b > 0 {
      OrSymmetric(a / 2, b / 2);
    }
  }

  lemma {:induction false} OrBelow(a: nat, b: nat, n: nat)
    requires a < Pow2(n) && b < Pow2(n)
    ensures Or(a, b) < Pow2(n)
  {
    if a > 0 && b > 0 {
      OrBelow(a / 2, b / 2, n - 1);
    }
  }

  /** Fields that do not overlap add up. */
  lemma {:induction false} OrDisjoint(high: nat, low: nat, n: nat)
    requires low < Pow2(n)
    ensures Or(high * Pow2(n), low) == high * Pow2(n) + low
  {
    if n > 0 && high > 0 && low > 0 {
      var p := Pow2(n - 1);
      var h := high * p;
      assert high * Pow2(n) == 2 * h by {
        assert high * (2 * p) == 2 * (high * p);
      }
      OrDisjoint(high, low / 2, n - 1);
      assert h > 0 by { MulMono(1, high, 1, p); }
    }
  }

  function OrWord(a: Word, b: Word): Word {
    WordsHave256Bits();
    OrBelow(a, b, 256);
    Or(a, b)
  }

  /** Shifting left loses what leaves the word. */
  function Shl(w: Word, n: nat): Word {
    assert w * Pow2(n) >= 0;
    Wrap(w * Pow2(n))
  }

  function Shr(w: Word, n: nat): Word {
    FloorBounds(w, Pow2(n));
    QuotientAtMost(w, Pow2(n), w, 1);
    w / Pow2(n)
  }

  /** The low `n` bits, by the mask of `n` ones. */
  function Low(w: Word, n: nat): (r: Word)
    ensures r == w % Pow2(n) < Pow2(n)
  {
    AndMask(w, n);
    RemainderAtMost(w, Pow2(n));
    And(w, Pow2(n) - 1)
  }

  lemma RemainderAtMost(a: nat, d: nat)
    requires d > 0
    ensures 0 <= a % d <= a && a % d < d
  {
    if a < d {
      DivisionUnique(a, d, 0);
    }
  }

  lemma {:induction false} LowOfSmall(w: Word, n: nat)
    requires w < Pow2(n)
    ensures Low(w, n) == w
  {
    DivisionUnique(w, Pow2(n), 0);
  }

  /** Two fields packed into a word are found again. */
  lemma {:induction false} Unpack(w: Word, high: nat, low: nat, n: nat)
    requires low < Pow2(n) && high * Pow2(n) + low == w
    ensures Low(w, n) == low && Shr(w, n) == high
  {
    DivisionUnique(w, Pow2(n), high);
  }

  lemma FitsWord(high: nat, low: nat, n: nat, width: nat)
    requires low < Pow2(n) && high < Pow2(width) && n + width <= 256
    ensures high * Pow2(n) + low < Pow2(n + width) <= MODULUS
  {
    WordsHave256Bits();
    PowersMultiply(width, n);
    PowersGrow(n + width, 256);
    MulMono(high + 1, Pow2(width), Pow2(n), Pow2(n));
  }

  /** A field shifted within the word keeps all its bits. */
  lemma {:induction false} ShlExact(field: Word, n: nat, width: nat)
    requires field < Pow2(width) && n + width <= 256
    ensures Shl(field, n) == field * Pow2(n)
  {
    hide Or;
    FitsWord(field, 0, n, width);
  }
}
