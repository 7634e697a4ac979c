/**
  Unsigned and signed 256-bit words as they behave in the program: the unsigned operators wrap modulo
  2^256, and division truncates toward zero.
*/
module U256 {
  import opened Arithmetic

  const MODULUS: int := 0x1_0000000000000000_0000000000000000_0000000000000000_0000000000000000

  /** 2^255, the bound of signed words. */
  const SIGN: int := 0x8000000000000000_0000000000000000_0000000000000000_0000000000000000

  type Word = w: nat | w < MODULUS

  function Add(a: Word, b: Word): Word {
    if a + b < MODULUS then a + b else a + b - MODULUS
  }

  function Sub(a: Word, b: Word): Word {
    if b <= a then a - b else a - b + MODULUS
  }

  /** The low 256 bits of a number. */
  function Wrap(n: nat): Word {
    if n < MODULUS then n else n % MODULUS
  }

  function Mul(a: Word, b: Word): Word {
    Wrap(Times(a, b))
  }

  /** A product that fits is the product. */
  lemma MulExact(a: Word, b: Word)
    requires a * b < MODULUS
    ensures Mul(a, b) == a * b >= 0
  {
    TimesIsProduct(a, b);
  }

  function Div(a: Word, b: Word): Word
    requires b != 0
  {
    LongDivisionIsFloor(a, b);
    QuotientAtMost(a, b, a, 1);
    LongDivision(a, b).0
  }

  /** Floor division; the quotient is the greatest multiplier of `b` that fits in `a`. */
  lemma DivIsFloor(a: Word, b: Word)
    requires b != 0
    ensures Div(a, b) == a / b && Div(a, b) * b <= a < Div(a, b) * b + b
  {
    LongDivisionIsFloor(a, b);
    FloorBounds(a, b);
  }

  /** `I256::from_raw`: the same 256 bits, read as a two's complement number. */
  function ToSigned(w: Word): int {
    if w < SIGN then w else w - MODULUS
  }

  /** `I256::into_raw`. */
  function ToRaw(i: int): Word {
    i % MODULUS
  }

  predicate FitsSigned(i: int) {
    -SIGN <= i < SIGN
  }

  /** Signed 256-bit operators; calling one is the claim that it does not overflow. */
  function SAdd(a: int, b: int): int
    requires FitsSigned(a) && FitsSigned(b) && FitsSigned(a + b)
  {
    a + b
  }

  function SSub(a: int, b: int): int
    requires FitsSigned(a) && FitsSigned(b) && FitsSigned(a - b)
  {
    a - b
  }

  function SMul(a: int, b: int): int
    requires FitsSigned(a) && FitsSigned(b) && FitsSigned(a * b)
  {
    a * b
  }

  /** Signed division, truncating toward zero. */
  function Quot(a: int, b: int): int
    requires b > 0
  {
    if a >= 0 then a / b else -(-a / b)
  }

  /** Signed remainder: it takes the sign of the dividend. */
  function Rem(a: int, b: int): int
    requires b > 0
  {
    a - b * Quot(a, b)
  }
}
