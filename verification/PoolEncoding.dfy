/** How pool state is packed into storage words, and read back. */
module PoolEncoding {
  import opened Arithmetic
  import opened Bits
  import opened U256

  // ----- reserves of a V2 pool -----

  function PackReserves(reserve0: Word, reserve1: Word): Word {
    OrWord(Shl(reserve1, 112), reserve0)
  }

  function UnpackReserves(cell: Word): (Word, Word) {
    (Low(Shr(cell, 0), 112), Low(Shr(cell, 112), 112))
  }

  /** Reserves survive exactly when both have at most 112 bits. */
  lemma ReservesRoundTrip(reserve0: Word, reserve1: Word)
    ensures UnpackReserves(PackReserves(reserve0, reserve1)) == (reserve0, reserve1)
      <==> reserve0 < Pow2(112) && reserve1 < Pow2(112)
  {
    if reserve0 < Pow2(112) && reserve1 < Pow2(112) {
      FitsWord(reserve1, reserve0, 112, 112);
      FitsWord(reserve1, 0, 112, 112);
      OrDisjoint(reserve1, reserve0, 112);
      var w := PackReserves(reserve0, reserve1);
      Unpack(w, w, 0, 0);
      Unpack(w, reserve1, reserve0, 112);
      LowOfSmall(reserve1, 112);
    }
  }

  // ----- slot 0 of a V3 pool -----

  datatype Slot0 = Slot0(
    sqrtPriceX96: Word,
    tick: int,
    observationIndex: Word,
    observationCardinality: Word,
    observationCardinalityNext: Word,
    feeProtocol: Word,
    unlocked: bool)

  /** Reading the low `n` bits of a number as two's complement. */
  function SignedBits(w: nat, n: nat): int
    requires n > 0
  {
    if w < Pow2(n - 1) then w else w - Pow2(n)
  }

  function UnsignedBits(i: int, n: nat): (w: nat)
    ensures w < Pow2(n)
  {
    i % Pow2(n)
  }

  /** The range of an `n`-bit two's complement number. */
  predicate FitsBits(i: int, n: nat)
    requires n > 0
  {
    0 <= i + Pow2(n - 1) && i < Pow2(n - 1)
  }

  lemma SignRoundTrip(i: int, n: nat)
    requires n > 0
    ensures SignedBits(UnsignedBits(i, n), n) == i <==> FitsBits(i, n)
  {
    var p := Pow2(n);
    if 0 <= i < p {
      DivisionUnique(i, p, 0);
    } else if 0 <= i + p && i < 0 {
      DivisionUnique(i, p, -1);
    }
  }

  lemma RemainderTwice(i: int, q: nat, p: nat)
    requires p > 0 && q * p > 0
    ensures i % (q * p) % p == i % p
  {
    var f, wide := i / (q * p), i % (q * p);
    var g, r := wide / p, wide % p;
    assert i == f * (q * p) + (g * p + r);
    assert (f * q + g) * p == f * (q * p) + g * p;
    DivisionUnique(i, p, f * q + g);
  }

  /** Cutting a number to 32 bits first does not change its low 24. */
  lemma CutTwice(i: int)
    ensures UnsignedBits(UnsignedBits(i, 32), 24) == UnsignedBits(i, 24)
  {
    PowersMultiply(8, 24);
    RemainderTwice(i, Pow2(8), Pow2(24));
  }

  function Narrow(w: nat, n: nat): (r: Word)
    requires n <= 256
    requires w < Pow2(n)
    ensures r == w
  {
    WordsHave256Bits();
    PowersGrow(n, 256);
    w
  }

  function PackSlot0(sqrtPrice: Word, tick: int): Word {
    var tickBits := Low(Narrow(UnsignedBits(tick, 32), 32), 24);
    OrWord(OrWord(OrWord(OrWord(OrWord(OrWord(
      sqrtPrice,
      Shl(tickBits, 160)),
      Shl(0, 184)),
      Shl(0, 200)),
      Shl(0, 216)),
      Shl(Low(0, 8), 232)),
      Shl(1, 240))
  }

  function UnpackSlot0(cell: Word): Slot0 {
    Slot0(
      Low(cell, 160),
      SignedBits(Low(Shr(cell, 160), 24), 24),
      Low(Shr(cell, 184), 16),
      Low(Shr(cell, 200), 16),
      Low(Shr(cell, 216), 16),
      Low(Shr(cell, 232), 8),
      Low(Shr(cell, 240), 1) == 1)
  }

  lemma OrEmpty(a: Word, n: nat)
    ensures OrWord(a, Shl(0, n)) == a
  {
    assert 0 * Pow2(n) == 0;
    OrSymmetric(a, 0);
  }

  /** `low` in the lower `n` bits, `high` above. */
  predicate IsPair(w: nat, high: nat, low: nat, n: nat) {
    w == high * Pow2(n) + low
  }

  /** A field above everything written so far is added. */
  lemma OrAbove(low: Word, field: Word, n: nat, width: nat)
    requires low < Pow2(n) && field < Pow2(width) && n + width <= 256
    ensures OrWord(low, Shl(field, n)) == field * Pow2(n) + low < Pow2(n + width)
  {
    hide Or, Pow2;
    FitsWord(field, low, n, width);
    FitsWord(field, 0, n, width);
    OrDisjoint(field, low, n);
    OrSymmetric(low, field * Pow2(n));
  }

  /** The packed slot: price and tick below, the unlocked bit far above them. */
  lemma PackedSlot0(sqrtPrice: Word, tick: int) returns (below: Word)
    requires sqrtPrice < Pow2(160)
    ensures below < Pow2(184) && IsPair(below, UnsignedBits(tick, 24), sqrtPrice, 160)
    ensures IsPair(PackSlot0(sqrtPrice, tick), 1, below, 240)
  {
    CutTwice(tick);
    var tickBits := Low(Narrow(UnsignedBits(tick, 32), 32), 24);
    OrAbove(sqrtPrice, tickBits, 160, 24);
    below := OrWord(sqrtPrice, Shl(tickBits, 160));
    OrEmpty(below, 184);
    OrEmpty(below, 200);
    OrEmpty(below, 216);
    LowOfSmall(0, 8);
    OrEmpty(below, 232);
    PowersGrow(184, 240);
    OrAbove(below, 1, 240, 16);
  }

  lemma MiddleArithmetic(cell: nat, r: nat, w: nat, p: nat, field: nat, below: nat)
    requires below < p && field < w && cell == r * w * p + (field * p + below)
    ensures cell % p == below && cell / p % w == field
  {
    assert (r * w + field) * p == r * w * p + field * p;
    assert r * w >= 0;
    DivisionUnique(cell, p, r * w + field);
    DivisionUnique(r * w + field, w, r);
  }

  /** A field of `width` bits at bit `n`, with one bit far above it and another field below. */
  lemma MiddleField(cell: Word, field: nat, below: nat, n: nat, width: nat, rest: nat)
    requires below < Pow2(n) && field < Pow2(width)
    requires cell == Pow2(rest + width + n) + (field * Pow2(n) + below)
    ensures Low(cell, n) == below && Low(Shr(cell, n), width) == field
  {
    PowersMultiply(rest + width, n);
    PowersMultiply(rest, width);
    MiddleArithmetic(cell, Pow2(rest), Pow2(width), Pow2(n), field, below);
  }

  /** A field between the tick and the unlocked bit is empty. */
  lemma {:induction false} EmptyField(cell: Word, below: nat, n: nat, width: nat, rest: nat)
    requires below < Pow2(n) && IsPair(cell, 1, below, rest + width + n)
    ensures Low(Shr(cell, n), width) == 0
  {
    MiddleField(cell, 0, below, n, width, rest);
  }

  lemma {:induction false} UnlockedBit(cell: Word, below: nat, n: nat)
    requires below < Pow2(n) && IsPair(cell, 1, below, n)
    ensures Low(Shr(cell, n), 1) == 1
  {
    Unpack(cell, 1, below, n);
    LowOfSmall(1, 1);
  }

  lemma {:induction false} TickField(cell: Word, below: nat, t: nat, sqrtPrice: nat, n: nat, width: nat, rest: nat)
    requires t < Pow2(width) && sqrtPrice < Pow2(n)
    requires IsPair(cell, 1, below, rest + width + n) && IsPair(below, t, sqrtPrice, n)
    ensures Low(cell, n) == sqrtPrice && Low(Shr(cell, n), width) == t
  {
    MiddleField(cell, t, sqrtPrice, n, width, rest);
  }

  lemma EmptyFields(cell: Word, below: nat, n: nat)
    requires below < Pow2(n) && IsPair(cell, 1, below, n + 56)
    ensures Low(Shr(cell, n), 16) == 0 && Low(Shr(cell, n + 16), 16) == 0 && Low(Shr(cell, n + 32), 16) == 0
    ensures Low(Shr(cell, n + 48), 8) == 0 && Low(Shr(cell, n + 56), 1) == 1
  {
    PowersGrow(n, n + 16);
    PowersGrow(n, n + 32);
    PowersGrow(n, n + 48);
    PowersGrow(n, n + 56);
    EmptyField(cell, below, n, 16, 40);
    EmptyField(cell, below, n + 16, 16, 24);
    EmptyField(cell, below, n + 32, 16, 8);
    EmptyField(cell, below, n + 48, 8, 0);
    UnlockedBit(cell, below, n + 56);
  }

  /** Everything comes back, the tick exactly when it has at most 24 bits. */
  lemma Slot0RoundTrip(sqrtPrice: Word, tick: int)
    requires sqrtPrice < Pow2(160)
    ensures var s := UnpackSlot0(PackSlot0(sqrtPrice, tick));
            && s == Slot0(sqrtPrice, s.tick, 0, 0, 0, 0, true)
            && (s.tick == tick <==> FitsBits(tick, 24))
  {
    var cell := PackSlot0(sqrtPrice, tick);
    var below := PackedSlot0(sqrtPrice, tick);
    hide PackSlot0, FitsBits, UnsignedBits, SignedBits, Low, Shr, IsPair, Pow2;
    EmptyFields(cell, below, 184);
    TickField(cell, below, UnsignedBits(tick, 24), sqrtPrice, 160, 24, 56);
    SignRoundTrip(tick, 24);
  }

  // ----- net liquidity of a tick -----

  function PackNet(net: int): Word {
    Shl(Narrow(UnsignedBits(net, 128), 128), 128)
  }

  function UnpackNet(cell: Word): int {
    SignedBits(Shr(cell, 128), 128)
  }

  lemma NetRoundTrip(net: int)
    ensures UnpackNet(PackNet(net)) == net <==> FitsBits(net, 128)
  {
    var u := Narrow(UnsignedBits(net, 128), 128);
    ShlExact(u, 128, 128);
    Unpack(PackNet(net), u, 0, 128);
    SignRoundTrip(net, 128);
  }

  // ----- saturating readers -----

  /** `saturating_to` a type of `n` value bits. */
  function Saturate(w: Word, n: nat): (r: nat)
    ensures r == w <==> w < Pow2(n)
  {
    if w < Pow2(n) then w else Pow2(n) - 1
  }

  function PackLiquidity(liquidity: nat): Word
    requires liquidity < Pow2(128)
  {
    Narrow(liquidity, 128)
  }

  /** The program panics on a negative spacing. */
  function PackSpacing(spacing: int): Word
    requires IsI32(spacing) && spacing >= 0
  {
    spacing
  }

  lemma SaturatedRoundTrip(liquidity: nat, spacing: int)
    requires liquidity < Pow2(128) && IsI32(spacing) && spacing >= 0
    ensures Saturate(PackLiquidity(liquidity), 128) == liquidity
    ensures Saturate(PackSpacing(spacing), 31) == spacing
  {
    WordsHave256Bits();
    PowersMultiply(16, 16);
    assert 2 * Pow2(31) == Pow2(32);
  }

  // ----- slots of mappings -----

  const TICKS: Word := 5
  const BITMAP: Word := 6

  /** Hash of a 32-byte key and a 32-byte slot number. */
  type Hash = (Word, Word) -> Word

  predicate IsI16(i: int) { -0x8000 <= i < 0x8000 }

  predicate IsI32(i: int) { -0x8000_0000 <= i < 0x8000_0000 }

  function FixedSlots(): set<Word> {
    {0, 4, 6, 7, 8, 14}
  }

  function TickSlots(hash: Hash): int -> Word {
    (tick: int) => hash(ToRaw(tick), TICKS)
  }

  function WordSlots(hash: Hash): int -> Word {
    (word: int) => hash(ToRaw(word), BITMAP)
  }

  /** The slots of ticks, of bitmap words and the fixed slots do not meet. */
  ghost predicate Apart(tickSlot: int -> Word, wordSlot: int -> Word) {
    && (forall s, t :: IsI32(s) && IsI32(t) && s != t ==> tickSlot(s) != tickSlot(t))
    && (forall s, t :: IsI16(s) && IsI16(t) && s != t ==> wordSlot(s) != wordSlot(t))
    && (forall s, t :: IsI32(s) && IsI16(t) ==> tickSlot(s) != wordSlot(t))
    && (forall s :: IsI32(s) ==> tickSlot(s) !in FixedSlots())
    && (forall s :: IsI16(s) ==> wordSlot(s) !in FixedSlots())
  }

  /** On the keys that pools use, the hash has no collisions and misses the fixed slots. */
  ghost predicate Spreads(hash: Hash) {
    Apart(TickSlots(hash), WordSlots(hash))
  }

  function Shifted(item: Word, slot: Word): Word {
    if slot == TICKS then Add(item, 0x8000_1000) else Add(item, 0x2_0000_0000)
  }

  /** Such a hash exists. */
  lemma SpreadingHashExists()
    ensures exists hash :: Spreads(hash)
  {
    hide ToRaw;
    var hash: Hash := Shifted;
    forall t: int | IsI32(t) ensures TickSlots(hash)(t) == t + 0x8000_1000 {
      RawOf(t);
      assert TickSlots(hash)(t) == Shifted(ToRaw(t), TICKS);
    }
    forall t: int | IsI16(t) ensures WordSlots(hash)(t) == t + 0x2_0000_0000 {
      RawOf(t);
      assert WordSlots(hash)(t) == Shifted(ToRaw(t), BITMAP);
    }
    assert Spreads(hash);
  }

  lemma RawOf(t: int)
    requires IsI32(t)
    ensures ToRaw(t) == if t >= 0 then t else t + MODULUS
  {
    DivisionUnique(t, MODULUS, if t >= 0 then 0 else -1);
  }
}
