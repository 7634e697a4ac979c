/**
  The tick bitmap of a concentrated-liquidity pool: where the bit of a tick lives, and the search for the next
  initialized tick within one 256-bit word (Uniswap v3 Core whitepaper, section 6.2.4).
*/
module TickBitmap {
  import opened Arithmetic
  import opened U256

  const MIN_TICK: int := -887272
  const MAX_TICK: int := 887272

  /** A pool's tick table: spacing, bitmap words by word position, and net liquidity by tick. */
  datatype Ticks = Ticks(spacing: int, word: int -> Word, net: int -> int)

  ghost predicate ValidTicks(p: Ticks) {
    0 < p.spacing <= MAX_TICK && forall t :: I128_MIN < p.net(t) <= I128_MAX
  }

  const I128_MAX: int := 0x7FFF_FFFF_FFFF_FFFF_FFFF_FFFF_FFFF_FFFF
  const I128_MIN: int := -I128_MAX - 1

  /** Bit `i` of a word, counted from the least significant. */
  predicate Bit(w: nat, i: nat) {
    if i == 0 then w % 2 == 1 else Bit(w / 2, i - 1)
  }

  function AsI16(i: int): int {
    (i + 0x8000) % 0x10000 - 0x8000
  }

  function AsU8(i: int): nat {
    i % 256
  }

  /** Word position and bit position of a compressed tick, with the program's shift, remainder and casts. */
  function Position(tick: int): (int, nat) {
    (AsI16(tick / 256), AsU8(Rem(tick, 256)))
  }

  /** For every compressed tick the casts lose nothing, and the remainder's sign does not matter. */
  lemma PositionIsEuclidean(c: int)
    requires MIN_TICK - 1 <= c <= MAX_TICK + 1
    ensures Position(c) == (c / 256, c % 256)
  {
    if c >= 0 {
      assert Rem(c, 256) == c % 256;
    } else {
      var q := -c / 256;
      assert Rem(c, 256) == c + 256 * q;
    }
  }

  /** Floor division by the spacing, as the search computes it from truncating operations. */
  function Compress(tick: int, spacing: int): int
    requires spacing > 0
  {
    if tick < 0 && Rem(tick, spacing) != 0 then Quot(tick, spacing) - 1 else Quot(tick, spacing)
  }

  lemma CompressIsFloor(tick: int, spacing: int)
    requires spacing > 0
    ensures Compress(tick, spacing) * spacing <= tick < (Compress(tick, spacing) + 1) * spacing
    ensures Quot(tick, spacing) - 1 <= Compress(tick, spacing) <= Quot(tick, spacing)
  {
    if tick >= 0 {
      FloorBounds(tick, spacing);
    } else {
      FloorBounds(-tick, spacing);
      var q := -tick / spacing;
      assert spacing * Quot(tick, spacing) == -(q * spacing);
      assert (Quot(tick, spacing) - 1) * spacing == -(q * spacing) - spacing;
    }
  }

  // ----- the search inside one word -----

  /** Position of the highest set bit at or below `i`, or -1: the most significant bit of the masked word. */
  function HighestAtOrBelow(w: Word, i: int): (r: int)
    requires i < 256
    ensures -1 <= r && (r >= 0 ==> r <= i && Bit(w, r))
    ensures forall j :: r < j <= i && 0 <= j ==> !Bit(w, j)
    decreases i + 1
  {
    if i < 0 then -1 else if Bit(w, i) then i else HighestAtOrBelow(w, i - 1)
  }

  /** Position of the lowest set bit at or above `i`, or 256. */
  function LowestAtOrAbove(w: Word, i: nat): (r: nat)
    requires i <= 256
    ensures i <= r <= 256 && (r < 256 ==> Bit(w, r))
    ensures forall j :: i <= j < r ==> !Bit(w, j)
    decreases 256 - i
  {
    if i == 256 then 256 else if Bit(w, i) then i else LowestAtOrAbove(w, i + 1)
  }

  /** The next compressed tick within one word, and whether its bit is set. */
  function NextCompressed(word: int -> Word, c: int, lte: bool): (int, bool) {
    if lte then
      var (w, bit) := Position(c);
      var r := HighestAtOrBelow(word(w), bit);
      if r >= 0 then (c - (bit - r), true) else (c - bit, false)
    else
      var (w, bit) := Position(c + 1);
      var r := LowestAtOrAbove(word(w), bit);
      if r < 256 then (c + 1 + (r - bit), true) else (c + 1 + (255 - bit), false)
  }

  /** `next_initialized_tick_within_one_word`: the next tick and whether it is initialized. */
  function NextTick(word: int -> Word, tick: int, spacing: int, lte: bool): (int, bool)
    requires spacing > 0
  {
    var (c, initialized) := NextCompressed(word, Compress(tick, spacing), lte);
    (c * spacing, initialized)
  }

  // ----- what the search means -----

  /** The bit of compressed tick `c`. */
  predicate Marked(p: Ticks, c: int) {
    Bit(p.word(c / 256), c % 256)
  }

  /** The initialized ticks are the multiples of the spacing whose bit is set. */
  ghost predicate Initialized(p: Ticks, t: int) {
    exists c :: Marked(p, c) && c * p.spacing == t
  }

  lemma InitializedIffMarked(p: Ticks, c: int)
    requires p.spacing > 0
    ensures Initialized(p, c * p.spacing) <==> Marked(p, c)
  {
    if Initialized(p, c * p.spacing) {
      var k :| Marked(p, k) && k * p.spacing == c * p.spacing;
      Scaled(k, c, p.spacing);
      Scaled(c, k, p.spacing);
      Scaled(k + 1, c, p.spacing);
      Scaled(c + 1, k, p.spacing);
    }
  }

  lemma Scaled(a: int, b: int, spacing: int)
    requires spacing > 0
    ensures a * spacing < b * spacing ==> a < b
    ensures a <= b ==> a * spacing <= b * spacing
  {
    if a <= b {
      MulMono(0, b - a, spacing, spacing);
    }
    if b <= a {
      MulMono(0, a - b, spacing, spacing);
    }
  }

  /** Compressed ticks stay in the range where the casts are exact. */
  lemma CompressInRange(tick: int, spacing: int)
    requires spacing > 0 && MIN_TICK <= tick <= MAX_TICK
    ensures MIN_TICK <= Compress(tick, spacing) <= MAX_TICK
  {
    CompressIsFloor(tick, spacing);
    var c := Compress(tick, spacing);
    if c > 0 { MulMono(c, c, 1, spacing); }
    if c < -1 { MulMono(-c - 1, -c - 1, 1, spacing); }
  }

  /** The compressed tick that the search names, and whether its bit was found set. */
  function FoundDown(p: Ticks, c: int): (int, bool) {
    var r := HighestAtOrBelow(p.word(c / 256), c % 256);
    (c - c % 256 + (if r >= 0 then r else 0), r >= 0)
  }

  function FoundUp(p: Ticks, c: int): (int, bool) {
    var r := LowestAtOrAbove(p.word(c / 256), c % 256);
    (c - c % 256 + (if r < 256 then r else 255), r < 256)
  }

  lemma FoundDownSkipsNothing(p: Ticks, c: int)
    ensures var (found, hit) := FoundDown(p, c);
            && found <= c && (hit <==> Marked(p, found))
            && forall k :: found < k <= c ==> !Marked(p, k)
  {
    var (found, _) := FoundDown(p, c);
    forall k | found < k <= c ensures !Marked(p, k) {
      assert k / 256 == c / 256 && k % 256 <= c % 256;
    }
  }

  lemma FoundUpSkipsNothing(p: Ticks, c: int)
    ensures var (found, hit) := FoundUp(p, c);
            && c <= found && (hit <==> Marked(p, found))
            && forall k :: c <= k < found ==> !Marked(p, k)
  {
    var (found, _) := FoundUp(p, c);
    forall k | c <= k < found ensures !Marked(p, k) {
      assert k / 256 == c / 256 && c % 256 <= k % 256;
    }
  }

  lemma NextCompressedIsFound(p: Ticks, c: int, lte: bool)
    requires MIN_TICK <= c <= MAX_TICK
    ensures NextCompressed(p.word, c, lte) == if lte then FoundDown(p, c) else FoundUp(p, c + 1)
  {
    if lte {
      PositionIsEuclidean(c);
    } else {
      PositionIsEuclidean(c + 1);
    }
  }

  lemma CompressedDown(p: Ticks, c: int, tick: int)
    requires p.spacing > 0 && MIN_TICK <= c <= MAX_TICK && c * p.spacing <= tick < (c + 1) * p.spacing
    ensures var (n, initialized) := NextCompressed(p.word, c, true);
            && n * p.spacing <= tick
            && (initialized <==> Initialized(p, n * p.spacing))
            && forall t :: n * p.spacing < t <= tick ==> !Initialized(p, t)
  {
    NextCompressedIsFound(p, c, true);
    FoundDownSkipsNothing(p, c);
    var (found, _) := FoundDown(p, c);
    InitializedIffMarked(p, found);
    Scaled(found, c, p.spacing);
    forall k | Marked(p, k) ensures !(found * p.spacing < k * p.spacing <= tick) {
      Scaled(found, k, p.spacing);
      Scaled(k, c + 1, p.spacing);
    }
  }

  lemma CompressedUp(p: Ticks, c: int, tick: int)
    requires p.spacing > 0 && MIN_TICK <= c <= MAX_TICK && c * p.spacing <= tick < (c + 1) * p.spacing
    ensures var (n, initialized) := NextCompressed(p.word, c, false);
            && tick < n * p.spacing
            && (initialized <==> Initialized(p, n * p.spacing))
            && forall t :: tick < t < n * p.spacing ==> !Initialized(p, t)
  {
    NextCompressedIsFound(p, c, false);
    FoundUpSkipsNothing(p, c + 1);
    var (found, _) := FoundUp(p, c + 1);
    InitializedIffMarked(p, found);
    Scaled(c + 1, found, p.spacing);
    forall k | Marked(p, k) ensures !(tick < k * p.spacing < found * p.spacing) {
      Scaled(k, c, p.spacing);
      Scaled(k, found, p.spacing);
    }
  }

  /** Going down: the named tick is at or below, nothing initialized is skipped, and the flag is truthful. */
  lemma NextTickDown(p: Ticks, tick: int)
    requires p.spacing > 0 && MIN_TICK <= tick <= MAX_TICK
    ensures var (b, initialized) := NextTick(p.word, tick, p.spacing, true);
            && b <= tick
            && (initialized <==> Initialized(p, b))
            && forall t :: b < t <= tick ==> !Initialized(p, t)
  {
    CompressIsFloor(tick, p.spacing);
    CompressInRange(tick, p.spacing);
    CompressedDown(p, Compress(tick, p.spacing), tick);
  }

  /** Going up: the named tick is strictly above, and nothing initialized lies in between. */
  lemma NextTickUp(p: Ticks, tick: int)
    requires p.spacing > 0 && MIN_TICK <= tick <= MAX_TICK
    ensures var (b, initialized) := NextTick(p.word, tick, p.spacing, false);
            && tick < b
            && (initialized <==> Initialized(p, b))
            && forall t :: tick < t < b ==> !Initialized(p, t)
  {
    CompressIsFloor(tick, p.spacing);
    CompressInRange(tick, p.spacing);
    CompressedUp(p, Compress(tick, p.spacing), tick);
  }

  // ----- the three words around the current one -----

  /** The lookup the loop builds: three words around the truncated position, and zero elsewhere. */
  function ThreeWords(p: Ticks, tick: int): int -> Word
    requires p.spacing > 0
  {
    var at := Position(Quot(tick, p.spacing)).0;
    i => if at - 1 <= i <= at + 1 then p.word(i) else 0
  }

  /**
    Truncating division puts a negative tick at most one compressed tick too high, so the word that is searched
    is always among the three that were loaded: the search over them is the search over the whole bitmap.
  */
  lemma ThreeWordsSuffice(p: Ticks, tick: int, lte: bool)
    requires p.spacing > 0 && MIN_TICK <= tick <= MAX_TICK
    ensures NextTick(ThreeWords(p, tick), tick, p.spacing, lte) == NextTick(p.word, tick, p.spacing, lte)
  {
    var c, q := Compress(tick, p.spacing), Quot(tick, p.spacing);
    CompressIsFloor(tick, p.spacing);
    CompressInRange(tick, p.spacing);
    assert q <= c + 1 <= MAX_TICK + 1;
    PositionIsEuclidean(c);
    PositionIsEuclidean(c + 1);
    PositionIsEuclidean(q);
    assert q / 256 - 1 <= c / 256 <= (c + 1) / 256 <= q / 256 + 1;
  }
}
