/**
  Where the promises of the stable solver end.  Three pools, each worked out digit by digit: one with just less than
  the floor balance on the input side, whose first step wraps; one so large that the curve wraps and the answer exceeds
  the reserve; and one of tokens with fewer than 18 decimals, whose answer is below the target.
*/
module StableLimits {
  import opened Arithmetic
  import opened StableSwap
  import opened U256

  // ----- values of the program's functions at given points -----

  lemma Product(a: Word, b: Word, q: nat)
    requires q * WAD <= a * b < q * WAD + WAD && a * b < MODULUS
    ensures P(a, b) == q
  {
    hide Times;
    MulExact(a, b);
    QuotientExact(a * b, WAD, q);
  }

  /** A product that wraps `turns` times. */
  lemma WrappedProduct(a: Word, b: Word, turns: nat, q: nat)
    requires q * WAD <= a * b - turns * MODULUS < q * WAD + WAD && a * b < turns * MODULUS + MODULUS
    ensures P(a, b) == q
  {
    hide Times;
    TimesIsProduct(a, b);
    DivisionUnique(a * b, MODULUS, turns);
    QuotientExact(a * b - turns * MODULUS, WAD, q);
  }

  lemma CurveAtPoint(x: Word, y: Word, xy: Word, xx: Word, yy: Word, k: Word)
    requires P(x, y) == xy && P(x, x) == xx && P(y, y) == yy && xx + yy < MODULUS && P(xy, xx + yy) == k
    ensures F(x, y) == k
  {
    hide P;
  }

  lemma AtPoint(x: Word, y: Word, xy: Word, xx: Word, yy: Word, k: Word, s: Word, t: Word)
    requires P(x, y) == xy && P(x, x) == xx && P(y, y) == yy && xx + yy < MODULUS && P(xy, xx + yy) == k
    requires 3 * x < MODULUS && P(3 * x, yy) == s && P(xx, x) == t && s + t < MODULUS
    ensures F(x, y) == k && D(x, y) == s + t
  {
    hide P, Times;
    MulExact(3, x);
  }

  lemma ScaleValue(amount: Word, unit: Word, scaled: Word)
    requires unit != 0 && amount * WAD < MODULUS && scaled * unit == amount * WAD
    ensures Scale(amount, unit) == scaled
  {
    hide Times, LongDivision;
    MulExact(amount, WAD);
    DivIsFloor(amount * WAD, unit);
    QuotientExact(amount * WAD, unit, scaled);
  }

  /** The target is `_f` of the scaled amounts. */
  lemma KIsF(x: Word, y: Word, unit0: Word, unit1: Word, sx: Word, sy: Word)
    requires unit0 != 0 && unit1 != 0 && Scale(x, unit0) == sx && Scale(y, unit1) == sy
    ensures K(x, y, true, unit0, unit1) == F(sx, sy)
  {
    hide P, Scale;
  }

  // ----- rounds -----

  /** The rounded step for the gap between `high` and `low`. */
  predicate IsStep(high: Word, low: Word, d: Word, dy: int) {
    0 <= dy && low <= high && d > 0 && (high - low) * WAD < MODULUS && dy * d <= (high - low) * WAD < dy * d + d
  }

  lemma StepValue(high: Word, low: Word, d: Word, dy: Word)
    requires IsStep(high, low, d, dy)
    ensures StepSize(high, low, d) == dy
  {
    hide StepSize, Times, LongDivision;
    StepWithoutWrap(high, low, d);
    QuotientExact((high - low) * WAD, d, dy);
  }

  lemma Rises(x0: Word, xy: Word, y: Word, y': Word, unit0: Word, unit1: Word)
    requires unit0 != 0 && unit1 != 0 && y < y' && F(x0, y) < xy && IsStep(xy, F(x0, y), D(x0, y), y' - y)
    ensures NewtonRound(x0, xy, y, true, unit0, unit1) == Next(y')
  {
    hide F, D, K, StepSize;
    StepValue(xy, F(x0, y), D(x0, y), y' - y);
  }

  lemma Falls(x0: Word, xy: Word, y: Word, y': Word, unit0: Word, unit1: Word)
    requires unit0 != 0 && unit1 != 0 && y' < y && IsStep(F(x0, y), xy, D(x0, y), y - y')
    ensures NewtonRound(x0, xy, y, true, unit0, unit1) == Next(y')
  {
    hide F, D, K, StepSize;
    StepValue(F(x0, y), xy, D(x0, y), y - y');
  }

  /** A step of `dy` past zero. */
  lemma FallsPastZero(x0: Word, xy: Word, y: Word, dy: Word, unit0: Word, unit1: Word)
    requires unit0 != 0 && unit1 != 0 && y < dy && IsStep(F(x0, y), xy, D(x0, y), dy)
    ensures NewtonRound(x0, xy, y, true, unit0, unit1) == Next(MODULUS - (dy - y))
  {
    hide F, D, K, StepSize;
    StepValue(F(x0, y), xy, D(x0, y), dy);
  }

  /** The downward exit. */
  lemma Settles(x0: Word, xy: Word, y: Word, unit0: Word, unit1: Word)
    requires unit0 != 0 && unit1 != 0 && y > 0 && IsStep(F(x0, y), xy, D(x0, y), 0) && F(x0, y - 1) < xy
    ensures NewtonRound(x0, xy, y, true, unit0, unit1) == Stop(y)
  {
    hide F, D, K, StepSize;
    StepValue(F(x0, y), xy, D(x0, y), 0);
  }

  /** The upward exit, with its comparison on `_k`. */
  lemma ExitsUpward(x0: Word, xy: Word, y: Word, unit0: Word, unit1: Word)
    requires unit0 != 0 && unit1 != 0 && y + 1 < MODULUS && F(x0, y) < xy && IsStep(xy, F(x0, y), D(x0, y), 0)
    requires K(x0, y + 1, true, unit0, unit1) > xy
    ensures NewtonRound(x0, xy, y, true, unit0, unit1) == Stop(y + 1)
  {
    hide F, D, K, StepSize;
    StepValue(xy, F(x0, y), D(x0, y), 0);
  }

  lemma KeepsGoing(rounds: nat, x0: Word, xy: Word, y: Word, y': Word, unit0: Word, unit1: Word)
    requires unit0 != 0 && unit1 != 0 && rounds > 0 && NewtonRound(x0, xy, y, true, unit0, unit1) == Next(y')
    ensures Newton(rounds, x0, xy, y, true, unit0, unit1) == Newton(rounds - 1, x0, xy, y', true, unit0, unit1)
    ensures StaysWithin(rounds, x0, xy, y, unit0, unit1) ==> y' <= LIMIT
  {
    hide NewtonRound;
    if StaysWithin(rounds, x0, xy, y, unit0, unit1) {
      assert StaysWithin(rounds - 1, x0, xy, y', unit0, unit1);
    }
  }

  lemma {:induction false} Answers(rounds: nat, x0: Word, xy: Word, y: Word, root: Word, unit0: Word, unit1: Word)
    requires unit0 != 0 && unit1 != 0 && rounds > 0 && NewtonRound(x0, xy, y, true, unit0, unit1) == Stop(root)
    ensures Newton(rounds, x0, xy, y, true, unit0, unit1) == root
  {
    hide NewtonRound;
  }

  // ----- just below the floor balance a step wraps -----

  function DustPool(): Pool {
    Pool(1_000_000, 11_636_185_497, 0, WAD, WAD, true)
  }

  const DUST_AMOUNT: Word := 2_468_363_622_750_229

  lemma DustTarget()
    ensures F(1_000_000, 11_636_185_497) == 0
  {
    hide Times, P, F;
    Product(1_000_000, 11_636_185_497, 0);
    Product(1_000_000, 1_000_000, 0);
    Product(11_636_185_497, 11_636_185_497, 135);
    Product(0, 135, 0);
    CurveAtPoint(1_000_000, 11_636_185_497, 0, 0, 135, 0);
  }

  lemma DustPoint()
    ensures F(2_468_363_623_750_229, 11_636_185_497) == 175
    ensures D(2_468_363_623_750_229, 11_636_185_497) == 15_039_292_733
  {
    hide Times, P, F, D;
    Product(2_468_363_623_750_229, 11_636_185_497, 28_722_337);
    Product(2_468_363_623_750_229, 2_468_363_623_750_229, 6_092_818_979_053);
    Product(11_636_185_497, 11_636_185_497, 135);
    Product(28_722_337, 6_092_818_979_188, 175);
    Product(7_405_090_871_250_687, 135, 0);
    Product(6_092_818_979_053, 2_468_363_623_750_229, 15_039_292_733);
    AtPoint(2_468_363_623_750_229, 11_636_185_497, 28_722_337, 6_092_818_979_053, 135, 175, 0, 15_039_292_733);
  }

  lemma {:induction false} DustRun(rounds: nat)
    requires rounds > 0
    ensures NewtonRound(2_468_363_623_750_229, 0, 11_636_185_497, true, WAD, WAD) == Next(MODULUS - 1)
    ensures !StaysWithin(rounds, 2_468_363_623_750_229, 0, 11_636_185_497, WAD, WAD)
  {
    hide F, D, K, NewtonRound, Newton, StaysWithin;
    DustPoint();
    FallsPastZero(2_468_363_623_750_229, 0, 11_636_185_497, 11_636_185_498, WAD, WAD);
    KeepsGoing(rounds, 2_468_363_623_750_229, 0, 11_636_185_497, MODULUS - 1, WAD, WAD);
  }

  lemma DustSides()
    ensures ValidPool(DustPool()) && DustPool().unit0 == DustPool().unit1 == WAD
    ensures Sides(DustPool(), DUST_AMOUNT, true) == (1_000_000, 11_636_185_497, 2_468_363_622_750_229)
    ensures K(DustPool().reserve0, DustPool().reserve1, true, WAD, WAD) == 0
  {
    hide Scale, F, K;
    ScaleValue(1_000_000, WAD, 1_000_000);
    ScaleValue(11_636_185_497, WAD, 11_636_185_497);
    ScaleValue(2_468_363_622_750_229, WAD, 2_468_363_622_750_229);
    KIsF(1_000_000, 11_636_185_497, WAD, WAD, 1_000_000, 11_636_185_497);
    DustTarget();
  }

  /**
    The floor balance is the right one to within a hundredth: with a little less than it on the input side, the very
    first step of this pool passes zero and wraps to 2^256 - 1.
  */
  lemma StepCanUnderflow() returns (p: Pool, input: Word)
    ensures ValidPool(p) && input < AMOUNT_BOUND && p.unit0 == p.unit1 == WAD
    ensures var (a, b, amount) := Sides(p, input, true);
            && 100 * (a + amount) > 99 * FLOOR_BALANCE
            && Small(a + amount, b)
            && NewtonRound(a + amount, K(p.reserve0, p.reserve1, true, WAD, WAD), b, true, WAD, WAD) == Next(MODULUS - 1)
            && !Unwrapped(p, a, b, amount)
  {
    hide Sides, DustPool, K, NewtonRound, Newton, StaysWithin;
    p, input := DustPool(), DUST_AMOUNT;
    DustSides();
    DustRun(255);
  }

  // ----- beyond the limit the answer can exceed the reserve -----

  /** Reserves of 1.4e11 and 2.5e8 tokens of 18 decimals. */
  function LargePool(): Pool {
    Pool(142_942_721_877_503_184_987_156_905_985, 252_069_147_424_382_829_690_093_569, 0, WAD, WAD, true)
  }

  const LARGE_AMOUNT: Word := 132_152_313_282_064_064_888_375_869_440

  lemma LargeTarget()
    ensures F(142_942_721_877_503_184_987_156_905_985, 252_069_147_424_382_829_690_093_569) == 41_466_743_184_255_727_581_519_362_784_882_474_476_842_828_826_000_700_062_881
  {
    hide Times, P, F;
    Product(142_942_721_877_503_184_987_156_905_985, 252_069_147_424_382_829_690_093_569,
            36_031_450_034_182_903_123_474_693_451_178_674_960);
    Product(142_942_721_877_503_184_987_156_905_985, 142_942_721_877_503_184_987_156_905_985,
            20_432_621_737_749_227_666_472_956_053_478_683_563_331);
    Product(252_069_147_424_382_829_690_093_569, 252_069_147_424_382_829_690_093_569,
            63_538_855_083_255_244_942_957_106_711_802_249);
    WrappedProduct(36_031_450_034_182_903_123_474_693_451_178_674_960,
                   20_432_685_276_604_310_921_717_899_010_585_395_365_580, 6,
                   41_466_743_184_255_727_581_519_362_784_882_474_476_842_828_826_000_700_062_881);
    CurveAtPoint(142_942_721_877_503_184_987_156_905_985, 252_069_147_424_382_829_690_093_569,
                 36_031_450_034_182_903_123_474_693_451_178_674_960,
                 20_432_621_737_749_227_666_472_956_053_478_683_563_331,
                 63_538_855_083_255_244_942_957_106_711_802_249,
                 41_466_743_184_255_727_581_519_362_784_882_474_476_842_828_826_000_700_062_881);
  }

  lemma LargeReserve()
    ensures F(275_095_035_159_567_249_875_532_775_425, 252_069_147_424_382_829_690_093_569) == 37_047_707_608_413_212_223_854_381_088_516_316_202_172_083_921_530_351_592_393
    ensures D(275_095_035_159_567_249_875_532_775_425, 252_069_147_424_382_829_690_093_569) == 20_818_495_991_493_148_520_836_116_829_261_093_131_757_629_348_974_918
  {
    hide Times, P, F, D;
    Product(275_095_035_159_567_249_875_532_775_425, 252_069_147_424_382_829_690_093_569,
            69_342_970_973_352_735_019_974_333_417_297_057_554);
    Product(275_095_035_159_567_249_875_532_775_425, 275_095_035_159_567_249_875_532_775_425,
            75_677_278_369_443_541_404_188_576_231_215_744_284_361);
    Product(252_069_147_424_382_829_690_093_569, 252_069_147_424_382_829_690_093_569,
            63_538_855_083_255_244_942_957_106_711_802_249);
    WrappedProduct(69_342_970_973_352_735_019_974_333_417_297_057_554,
                   75_677_341_908_298_624_659_433_519_188_322_456_086_610, 45,
                   37_047_707_608_413_212_223_854_381_088_516_316_202_172_083_921_530_351_592_393);
    Product(825_285_105_478_701_749_626_598_326_275, 63_538_855_083_255_244_942_957_106_711_802_249,
            52_437_670_719_380_249_662_174_241_439_360_408_279_992_601_453);
    Product(75_677_278_369_443_541_404_188_576_231_215_744_284_361, 275_095_035_159_567_249_875_532_775_425,
            20_818_443_553_822_429_140_586_454_655_019_653_771_349_349_356_373_465);
    AtPoint(275_095_035_159_567_249_875_532_775_425, 252_069_147_424_382_829_690_093_569,
            69_342_970_973_352_735_019_974_333_417_297_057_554,
            75_677_278_369_443_541_404_188_576_231_215_744_284_361, 63_538_855_083_255_244_942_957_106_711_802_249,
            37_047_707_608_413_212_223_854_381_088_516_316_202_172_083_921_530_351_592_393,
            52_437_670_719_380_249_662_174_241_439_360_408_279_992_601_453,
            20_818_443_553_822_429_140_586_454_655_019_653_771_349_349_356_373_465);
  }

  lemma LargeFirst()
    ensures F(275_095_035_159_567_249_875_532_775_425, 252_281_412_305_460_128_510_105_924) == 41_466_743_193_631_388_256_541_354_197_928_959_708_766_794_795_050_574_821_654
    ensures D(275_095_035_159_567_249_875_532_775_425, 252_281_412_305_460_128_510_105_924) == 20_818_496_079_844_797_803_173_121_474_574_585_542_313_538_516_271_461
  {
    hide Times, P, F, D;
    Product(275_095_035_159_567_249_875_532_775_425, 252_281_412_305_460_128_510_105_924,
            69_401_363_988_275_835_899_889_752_505_969_665_187);
    Product(275_095_035_159_567_249_875_532_775_425, 275_095_035_159_567_249_875_532_775_425,
            75_677_278_369_443_541_404_188_576_231_215_744_284_361);
    Product(252_281_412_305_460_128_510_105_924, 252_281_412_305_460_128_510_105_924,
            63_645_910_994_837_569_153_767_847_661_979_801);
    WrappedProduct(69_401_363_988_275_835_899_889_752_505_969_665_187,
                   75_677_342_015_354_536_241_757_729_999_063_406_264_162, 45,
                   41_466_743_193_631_388_256_541_354_197_928_959_708_766_794_795_050_574_821_654);
    Product(825_285_105_478_701_749_626_598_326_275, 63_645_910_994_837_569_153_767_847_661_979_801,
            52_526_022_368_662_586_666_819_554_931_770_964_189_159_897_996);
    Product(75_677_278_369_443_541_404_188_576_231_215_744_284_361, 275_095_035_159_567_249_875_532_775_425,
            20_818_443_553_822_429_140_586_454_655_019_653_771_349_349_356_373_465);
    AtPoint(275_095_035_159_567_249_875_532_775_425, 252_281_412_305_460_128_510_105_924,
            69_401_363_988_275_835_899_889_752_505_969_665_187,
            75_677_278_369_443_541_404_188_576_231_215_744_284_361, 63_645_910_994_837_569_153_767_847_661_979_801,
            41_466_743_193_631_388_256_541_354_197_928_959_708_766_794_795_050_574_821_654,
            52_526_022_368_662_586_666_819_554_931_770_964_189_159_897_996,
            20_818_443_553_822_429_140_586_454_655_019_653_771_349_349_356_373_465);
  }

  lemma LargeSecond()
    ensures F(275_095_035_159_567_249_875_532_775_425, 252_281_412_305_009_776_062_020_160) == 41_466_743_184_255_727_581_519_368_591_640_510_577_704_379_374_701_020_310_850
    ensures D(275_095_035_159_567_249_875_532_775_425, 252_281_412_305_009_776_062_020_160) == 20_818_496_079_844_797_615_642_676_439_074_740_194_717_536_971_270_953
  {
    hide Times, P, F, D;
    Product(275_095_035_159_567_249_875_532_775_425, 252_281_412_305_009_776_062_020_160,
            69_401_363_988_151_946_177_349_402_073_772_166_181);
    Product(275_095_035_159_567_249_875_532_775_425, 275_095_035_159_567_249_875_532_775_425,
            75_677_278_369_443_541_404_188_576_231_215_744_284_361);
    Product(252_281_412_305_009_776_062_020_160, 252_281_412_305_009_776_062_020_160,
            63_645_910_994_610_338_050_491_454_567_935_526);
    WrappedProduct(69_401_363_988_151_946_177_349_402_073_772_166_181,
                   75_677_342_015_354_536_014_526_626_722_670_312_219_887, 45,
                   41_466_743_184_255_727_581_519_368_591_640_510_577_704_379_374_701_020_310_850);
    Product(825_285_105_478_701_749_626_598_326_275, 63_645_910_994_610_338_050_491_454_567_935_526,
            52_526_022_368_475_056_221_784_055_086_423_368_187_614_897_488);
    Product(75_677_278_369_443_541_404_188_576_231_215_744_284_361, 275_095_035_159_567_249_875_532_775_425,
            20_818_443_553_822_429_140_586_454_655_019_653_771_349_349_356_373_465);
    AtPoint(275_095_035_159_567_249_875_532_775_425, 252_281_412_305_009_776_062_020_160,
            69_401_363_988_151_946_177_349_402_073_772_166_181,
            75_677_278_369_443_541_404_188_576_231_215_744_284_361, 63_645_910_994_610_338_050_491_454_567_935_526,
            41_466_743_184_255_727_581_519_368_591_640_510_577_704_379_374_701_020_310_850,
            52_526_022_368_475_056_221_784_055_086_423_368_187_614_897_488,
            20_818_443_553_822_429_140_586_454_655_019_653_771_349_349_356_373_465);
  }

  lemma LargeBelow()
    ensures F(275_095_035_159_567_249_875_532_775_425, 252_281_412_305_009_776_062_020_159) == 41_466_743_184_255_727_581_519_347_773_144_430_700_130_319_380_519_879_916_481
  {
    hide Times, P, F;
    Product(275_095_035_159_567_249_875_532_775_425, 252_281_412_305_009_776_062_020_159,
            69_401_363_988_151_946_177_349_401_798_677_131_021);
    Product(275_095_035_159_567_249_875_532_775_425, 275_095_035_159_567_249_875_532_775_425,
            75_677_278_369_443_541_404_188_576_231_215_744_284_361);
    Product(252_281_412_305_009_776_062_020_159, 252_281_412_305_009_776_062_020_159,
            63_645_910_994_610_338_050_491_454_063_372_701);
    WrappedProduct(69_401_363_988_151_946_177_349_401_798_677_131_021,
                   75_677_342_015_354_536_014_526_626_722_669_807_657_062, 45,
                   41_466_743_184_255_727_581_519_347_773_144_430_700_130_319_380_519_879_916_481);
    CurveAtPoint(275_095_035_159_567_249_875_532_775_425, 252_281_412_305_009_776_062_020_159,
                 69_401_363_988_151_946_177_349_401_798_677_131_021,
                 75_677_278_369_443_541_404_188_576_231_215_744_284_361,
                 63_645_910_994_610_338_050_491_454_063_372_701,
                 41_466_743_184_255_727_581_519_347_773_144_430_700_130_319_380_519_879_916_481);
  }

  /** The last product of the curve wraps 6 times in the target and 45 times at the iterates; the third round answers. */
  lemma {:induction false} LargeRun(rounds: nat)
    requires rounds >= 3
    ensures Newton(rounds, 275_095_035_159_567_249_875_532_775_425,
                   41_466_743_184_255_727_581_519_362_784_882_474_476_842_828_826_000_700_062_881,
                   252_069_147_424_382_829_690_093_569, true, WAD, WAD)
         == 252_281_412_305_009_776_062_020_160
  {
    hide F, D, NewtonRound, Newton;
    var x0: Word, xy: Word := 275_095_035_159_567_249_875_532_775_425,
      41_466_743_184_255_727_581_519_362_784_882_474_476_842_828_826_000_700_062_881;
    LargeTarget();
    LargeReserve();
    LargeFirst();
    LargeSecond();
    LargeBelow();
    Rises(x0, xy, 252_069_147_424_382_829_690_093_569, 252_281_412_305_460_128_510_105_924, WAD, WAD);
    Falls(x0, xy, 252_281_412_305_460_128_510_105_924, 252_281_412_305_009_776_062_020_160, WAD, WAD);
    Settles(x0, xy, 252_281_412_305_009_776_062_020_160, WAD, WAD);
    KeepsGoing(rounds, x0, xy, 252_069_147_424_382_829_690_093_569, 252_281_412_305_460_128_510_105_924, WAD, WAD);
    KeepsGoing(rounds - 1, x0, xy, 252_281_412_305_460_128_510_105_924, 252_281_412_305_009_776_062_020_160, WAD, WAD);
    Answers(rounds - 2, x0, xy, 252_281_412_305_009_776_062_020_160, 252_281_412_305_009_776_062_020_160, WAD, WAD);
  }

  /** The solver settles on a root of the wrapped curve beyond the reserve, and the program's subtraction underflows. */
  lemma AnswerCanExceedReserve()
    ensures ValidPool(LargePool()) && LARGE_AMOUNT < AMOUNT_BOUND && LargePool().unit0 == LargePool().unit1 == WAD
    ensures var (a, b, amount) := Sides(LargePool(), LARGE_AMOUNT, true);
            var root := Root(LargePool(), LARGE_AMOUNT, true);
            && !Small(a + amount, b)
            && root > b
            && Sub(b, root) == b - root + MODULUS
  {
    hide Scale, F, K, Newton;
    ScaleValue(142_942_721_877_503_184_987_156_905_985, WAD, 142_942_721_877_503_184_987_156_905_985);
    ScaleValue(252_069_147_424_382_829_690_093_569, WAD, 252_069_147_424_382_829_690_093_569);
    ScaleValue(132_152_313_282_064_064_888_375_869_440, WAD, 132_152_313_282_064_064_888_375_869_440);
    KIsF(142_942_721_877_503_184_987_156_905_985, 252_069_147_424_382_829_690_093_569, WAD, WAD, 142_942_721_877_503_184_987_156_905_985, 252_069_147_424_382_829_690_093_569);
    LargeTarget();
    LargeRun(255);
  }

  // ----- with fewer than 18 decimals the answer can be below the target -----

  /** Units of tokens with 6, 8 and 18 decimals. */
  predicate Listed(unit: nat) {
    unit == 1_000_000 || unit == 100_000_000 || unit == WAD
  }

  /** An amount given in millionths of a token. */
  function Millionths(n: nat, unit: nat): (r: Word)
    requires n < 10_000_000 && Listed(unit)
    ensures r < RESERVE_BOUND
  {
    n * (unit / 1_000_000)
  }

  lemma ScaleOfMillionths(n: nat, unit: nat)
    requires n < 10_000_000 && Listed(unit)
    ensures Scale(Millionths(n, unit), unit) == n * 1_000_000_000_000
  {
    hide Scale;
    if unit == 1_000_000 {
      ScaleValue(n, 1_000_000, n * 1_000_000_000_000);
    } else if unit == 100_000_000 {
      ScaleValue(n * 100, 100_000_000, n * 1_000_000_000_000);
    } else {
      ScaleValue(n * 1_000_000_000_000, WAD, n * 1_000_000_000_000);
    }
  }

  /** A pool of 0.121856 and 6.172178 tokens, whatever their decimals; the input is 0.024718 tokens. */
  function SmallPool(unit0: Word, unit1: Word): Pool
    requires Listed(unit0) && Listed(unit1)
  {
    Pool(Millionths(121_856, unit0), Millionths(6_172_178, unit1), 0, unit0, unit1, true)
  }

  lemma SmallTarget()
    ensures F(121_856_000_000_000_000, 6_172_178_000_000_000_000) == 28_663_649_856_734_765_457
  {
    hide Times, P, F;
    Product(121_856_000_000_000_000, 6_172_178_000_000_000_000, 752_116_922_368_000_000);
    Product(121_856_000_000_000_000, 121_856_000_000_000_000, 14_848_884_736_000_000);
    Product(6_172_178_000_000_000_000, 6_172_178_000_000_000_000, 38_095_781_263_684_000_000);
    Product(752_116_922_368_000_000, 38_110_630_148_420_000_000, 28_663_649_856_734_765_457);
    CurveAtPoint(121_856_000_000_000_000, 6_172_178_000_000_000_000, 752_116_922_368_000_000, 14_848_884_736_000_000,
                 38_095_781_263_684_000_000, 28_663_649_856_734_765_457);
  }

  lemma SmallReserve()
    ensures F(146_574_000_000_000_000, 6_172_178_000_000_000_000) == 34_483_958_668_664_532_963
    ensures D(146_574_000_000_000_000, 6_172_178_000_000_000_000) == 16_754_702_115_481_263_072
  {
    hide Times, P, F, D;
    Product(146_574_000_000_000_000, 6_172_178_000_000_000_000, 904_680_818_172_000_000);
    Product(146_574_000_000_000_000, 146_574_000_000_000_000, 21_483_937_476_000_000);
    Product(6_172_178_000_000_000_000, 6_172_178_000_000_000_000, 38_095_781_263_684_000_000);
    Product(904_680_818_172_000_000, 38_117_265_201_160_000_000, 34_483_958_668_664_532_963);
    Product(439_722_000_000_000_000, 38_095_781_263_684_000_000, 16_751_553_128_829_655_848);
    Product(21_483_937_476_000_000, 146_574_000_000_000_000, 3_148_986_651_607_224);
    AtPoint(146_574_000_000_000_000, 6_172_178_000_000_000_000, 904_680_818_172_000_000, 21_483_937_476_000_000,
            38_095_781_263_684_000_000, 34_483_958_668_664_532_963, 16_751_553_128_829_655_848,
            3_148_986_651_607_224);
  }

  lemma SmallFirst()
    ensures F(146_574_000_000_000_000, 5_824_794_395_575_792_987) == 28_985_023_453_841_795_412
    ensures D(146_574_000_000_000_000, 5_824_794_395_575_792_987) == 14_922_138_029_102_617_682
  {
    hide Times, P, F, D;
    Product(146_574_000_000_000_000, 5_824_794_395_575_792_987, 853_763_413_737_126_281);
    Product(146_574_000_000_000_000, 146_574_000_000_000_000, 21_483_937_476_000_000);
    Product(5_824_794_395_575_792_987, 5_824_794_395_575_792_987, 33_928_229_750_731_167_552);
    Product(853_763_413_737_126_281, 33_949_713_688_207_167_552, 28_985_023_453_841_795_412);
    Product(439_722_000_000_000_000, 33_928_229_750_731_167_552, 14_918_989_042_451_010_458);
    Product(21_483_937_476_000_000, 146_574_000_000_000_000, 3_148_986_651_607_224);
    AtPoint(146_574_000_000_000_000, 5_824_794_395_575_792_987, 853_763_413_737_126_281, 21_483_937_476_000_000,
            33_928_229_750_731_167_552, 28_985_023_453_841_795_412, 14_918_989_042_451_010_458,
            3_148_986_651_607_224);
  }

  lemma SmallSecond()
    ensures F(146_574_000_000_000_000, 5_803_257_696_445_932_666) == 28_664_836_394_295_037_041
    ensures D(146_574_000_000_000_000, 5_803_257_696_445_932_666) == 14_812_018_510_479_748_652
  {
    hide Times, P, F, D;
    Product(146_574_000_000_000_000, 5_803_257_696_445_932_666, 850_606_693_598_866_134);
    Product(146_574_000_000_000_000, 146_574_000_000_000_000, 21_483_937_476_000_000);
    Product(5_803_257_696_445_932_666, 5_803_257_696_445_932_666, 33_677_799_891_358_952_767);
    Product(850_606_693_598_866_134, 33_699_283_828_834_952_767, 28_664_836_394_295_037_041);
    Product(439_722_000_000_000_000, 33_677_799_891_358_952_767, 14_808_869_523_828_141_428);
    Product(21_483_937_476_000_000, 146_574_000_000_000_000, 3_148_986_651_607_224);
    AtPoint(146_574_000_000_000_000, 5_803_257_696_445_932_666, 850_606_693_598_866_134, 21_483_937_476_000_000,
            33_677_799_891_358_952_767, 28_664_836_394_295_037_041, 14_808_869_523_828_141_428,
            3_148_986_651_607_224);
  }

  lemma SmallThird()
    ensures F(146_574_000_000_000_000, 5_803_177_590_040_486_840) == 28_663_649_873_109_811_960
    ensures D(146_574_000_000_000_000, 5_803_177_590_040_486_840) == 14_811_609_679_033_426_456
  {
    hide Times, P, F, D;
    Product(146_574_000_000_000_000, 5_803_177_590_040_486_840, 850_594_952_082_594_318);
    Product(146_574_000_000_000_000, 146_574_000_000_000_000, 21_483_937_476_000_000);
    Product(5_803_177_590_040_486_840, 5_803_177_590_040_486_840, 33_676_870_141_548_112_745);
    Product(850_594_952_082_594_318, 33_698_354_079_024_112_745, 28_663_649_873_109_811_960);
    Product(439_722_000_000_000_000, 33_676_870_141_548_112_745, 14_808_460_692_381_819_232);
    Product(21_483_937_476_000_000, 146_574_000_000_000_000, 3_148_986_651_607_224);
    AtPoint(146_574_000_000_000_000, 5_803_177_590_040_486_840, 850_594_952_082_594_318, 21_483_937_476_000_000,
            33_676_870_141_548_112_745, 28_663_649_873_109_811_960, 14_808_460_692_381_819_232,
            3_148_986_651_607_224);
  }

  lemma SmallFourth()
    ensures F(146_574_000_000_000_000, 5_803_177_588_934_932_018) == 28_663_649_856_734_765_443
    ensures D(146_574_000_000_000_000, 5_803_177_588_934_932_018) == 14_811_609_673_391_150_351
  {
    hide Times, P, F, D;
    Product(146_574_000_000_000_000, 5_803_177_588_934_932_018, 850_594_951_920_548_725);
    Product(146_574_000_000_000_000, 146_574_000_000_000_000, 21_483_937_476_000_000);
    Product(5_803_177_588_934_932_018, 5_803_177_588_934_932_018, 33_676_870_128_716_650_811);
    Product(850_594_951_920_548_725, 33_698_354_066_192_650_811, 28_663_649_856_734_765_443);
    Product(439_722_000_000_000_000, 33_676_870_128_716_650_811, 14_808_460_686_739_543_127);
    Product(21_483_937_476_000_000, 146_574_000_000_000_000, 3_148_986_651_607_224);
    AtPoint(146_574_000_000_000_000, 5_803_177_588_934_932_018, 850_594_951_920_548_725, 21_483_937_476_000_000,
            33_676_870_128_716_650_811, 28_663_649_856_734_765_443, 14_808_460_686_739_543_127,
            3_148_986_651_607_224);
  }

  lemma SmallAnswer()
    ensures F(146_574_000_000_000_000, 5_803_177_588_934_932_019) == 28_663_649_856_734_765_452
  {
    hide Times, P, F;
    Product(146_574_000_000_000_000, 5_803_177_588_934_932_019, 850_594_951_920_548_725);
    Product(146_574_000_000_000_000, 146_574_000_000_000_000, 21_483_937_476_000_000);
    Product(5_803_177_588_934_932_019, 5_803_177_588_934_932_019, 33_676_870_128_716_650_822);
    Product(850_594_951_920_548_725, 33_698_354_066_192_650_822, 28_663_649_856_734_765_452);
    CurveAtPoint(146_574_000_000_000_000, 5_803_177_588_934_932_019, 850_594_951_920_548_725, 21_483_937_476_000_000,
                 33_676_870_128_716_650_822, 28_663_649_856_734_765_452);
  }

  lemma TestSixSix()
    ensures F(146_574_000_000_000_000_000_000_000_000, 5_803_177_588_934_932_019_000_000_000_000) == 65_650_659_856_755_879_242_223_300_026_143_830_884_256_010_341_008_969_444_553
  {
    hide Times, P, F;
    Product(146_574_000_000_000_000_000_000_000_000, 5_803_177_588_934_932_019_000_000_000_000,
            850_594_951_920_548_725_752_906_000_000_000_000_000_000);
    Product(146_574_000_000_000_000_000_000_000_000, 146_574_000_000_000_000_000_000_000_000,
            21_483_937_476_000_000_000_000_000_000_000_000_000_000);
    Product(5_803_177_588_934_932_019_000_000_000_000, 5_803_177_588_934_932_019_000_000_000_000,
            33_676_870_128_716_650_822_802_878_224_151_416_361_000_000);
    WrappedProduct(850_594_951_920_548_725_752_906_000_000_000_000_000_000,
                   33_698_354_066_192_650_822_802_878_224_151_416_361_000_000, 247_544_111,
                   65_650_659_856_755_879_242_223_300_026_143_830_884_256_010_341_008_969_444_553);
    CurveAtPoint(146_574_000_000_000_000_000_000_000_000, 5_803_177_588_934_932_019_000_000_000_000,
                 850_594_951_920_548_725_752_906_000_000_000_000_000_000,
                 21_483_937_476_000_000_000_000_000_000_000_000_000_000,
                 33_676_870_128_716_650_822_802_878_224_151_416_361_000_000,
                 65_650_659_856_755_879_242_223_300_026_143_830_884_256_010_341_008_969_444_553);
  }

  lemma TestSixEight()
    ensures F(146_574_000_000_000_000_000_000_000_000, 58_031_775_889_349_320_190_000_000_000) == 66_100_514_491_195_972_694_327_920_261_098_363_913_745_666_501_606_639_684_975
  {
    hide Times, P, F;
    Product(146_574_000_000_000_000_000_000_000_000, 58_031_775_889_349_320_190_000_000_000,
            8_505_949_519_205_487_257_529_060_000_000_000_000_000);
    Product(146_574_000_000_000_000_000_000_000_000, 146_574_000_000_000_000_000_000_000_000,
            21_483_937_476_000_000_000_000_000_000_000_000_000_000);
    Product(58_031_775_889_349_320_190_000_000_000, 58_031_775_889_349_320_190_000_000_000,
            3_367_687_012_871_665_082_280_287_822_415_141_636_100);
    WrappedProduct(8_505_949_519_205_487_257_529_060_000_000_000_000_000,
                   24_851_624_488_871_665_082_280_287_822_415_141_636_100, 1_825,
                   66_100_514_491_195_972_694_327_920_261_098_363_913_745_666_501_606_639_684_975);
    CurveAtPoint(146_574_000_000_000_000_000_000_000_000, 58_031_775_889_349_320_190_000_000_000,
                 8_505_949_519_205_487_257_529_060_000_000_000_000_000,
                 21_483_937_476_000_000_000_000_000_000_000_000_000_000,
                 3_367_687_012_871_665_082_280_287_822_415_141_636_100,
                 66_100_514_491_195_972_694_327_920_261_098_363_913_745_666_501_606_639_684_975);
  }

  lemma TestSixEighteen()
    ensures F(146_574_000_000_000_000_000_000_000_000, 5_803_177_588_934_932_019) == 18_274_128_764_462_294_943_715_548_905_033_226_303_183_159_416_103_593
  {
    hide Times, P, F;
    Product(146_574_000_000_000_000_000_000_000_000, 5_803_177_588_934_932_019,
            850_594_951_920_548_725_752_906_000_000);
    Product(146_574_000_000_000_000_000_000_000_000, 146_574_000_000_000_000_000_000_000_000,
            21_483_937_476_000_000_000_000_000_000_000_000_000_000);
    Product(5_803_177_588_934_932_019, 5_803_177_588_934_932_019, 33_676_870_128_716_650_822);
    Product(850_594_951_920_548_725_752_906_000_000, 21_483_937_476_000_000_000_033_676_870_128_716_650_822,
            18_274_128_764_462_294_943_715_548_905_033_226_303_183_159_416_103_593);
    CurveAtPoint(146_574_000_000_000_000_000_000_000_000, 5_803_177_588_934_932_019,
                 850_594_951_920_548_725_752_906_000_000, 21_483_937_476_000_000_000_000_000_000_000_000_000_000,
                 33_676_870_128_716_650_822, 18_274_128_764_462_294_943_715_548_905_033_226_303_183_159_416_103_593);
  }

  lemma TestEightSix()
    ensures F(1_465_740_000_000_000_000_000_000_000, 5_803_177_588_934_932_019_000_000_000_000) == 10_296_937_041_141_576_758_680_995_537_480_956_632_738_060_797_440_606_002_853
  {
    hide Times, P, F;
    Product(1_465_740_000_000_000_000_000_000_000, 5_803_177_588_934_932_019_000_000_000_000,
            8_505_949_519_205_487_257_529_060_000_000_000_000_000);
    Product(1_465_740_000_000_000_000_000_000_000, 1_465_740_000_000_000_000_000_000_000,
            2_148_393_747_600_000_000_000_000_000_000_000_000);
    Product(5_803_177_588_934_932_019_000_000_000_000, 5_803_177_588_934_932_019_000_000_000_000,
            33_676_870_128_716_650_822_802_878_224_151_416_361_000_000);
    WrappedProduct(8_505_949_519_205_487_257_529_060_000_000_000_000_000,
                   33_676_872_277_110_398_422_802_878_224_151_416_361_000_000, 2_473_863,
                   10_296_937_041_141_576_758_680_995_537_480_956_632_738_060_797_440_606_002_853);
    CurveAtPoint(1_465_740_000_000_000_000_000_000_000, 5_803_177_588_934_932_019_000_000_000_000,
                 8_505_949_519_205_487_257_529_060_000_000_000_000_000,
                 2_148_393_747_600_000_000_000_000_000_000_000_000,
                 33_676_870_128_716_650_822_802_878_224_151_416_361_000_000,
                 10_296_937_041_141_576_758_680_995_537_480_956_632_738_060_797_440_606_002_853);
  }

  lemma TestEightEight()
    ensures F(1_465_740_000_000_000_000_000_000_000, 58_031_775_889_349_320_190_000_000_000) == 55_052_320_092_715_263_940_718_301_698_556_938_814_774_707_481_675_232_038_035
  {
    hide Times, P, F;
    Product(1_465_740_000_000_000_000_000_000_000, 58_031_775_889_349_320_190_000_000_000,
            85_059_495_192_054_872_575_290_600_000_000_000_000);
    Product(1_465_740_000_000_000_000_000_000_000, 1_465_740_000_000_000_000_000_000_000,
            2_148_393_747_600_000_000_000_000_000_000_000_000);
    Product(58_031_775_889_349_320_190_000_000_000, 58_031_775_889_349_320_190_000_000_000,
            3_367_687_012_871_665_082_280_287_822_415_141_636_100);
    WrappedProduct(85_059_495_192_054_872_575_290_600_000_000_000_000,
                   3_369_835_406_619_265_082_280_287_822_415_141_636_100, 2,
                   55_052_320_092_715_263_940_718_301_698_556_938_814_774_707_481_675_232_038_035);
    CurveAtPoint(1_465_740_000_000_000_000_000_000_000, 58_031_775_889_349_320_190_000_000_000,
                 85_059_495_192_054_872_575_290_600_000_000_000_000,
                 2_148_393_747_600_000_000_000_000_000_000_000_000,
                 3_367_687_012_871_665_082_280_287_822_415_141_636_100,
                 55_052_320_092_715_263_940_718_301_698_556_938_814_774_707_481_675_232_038_035);
  }

  lemma TestEightEighteen()
    ensures F(1_465_740_000_000_000_000_000_000_000, 5_803_177_588_934_932_019) == 18_274_128_764_462_295_230_140_660_809_008_287_831_594_161_035
  {
    hide Times, P, F;
    Product(1_465_740_000_000_000_000_000_000_000, 5_803_177_588_934_932_019, 8_505_949_519_205_487_257_529_060_000);
    Product(1_465_740_000_000_000_000_000_000_000, 1_465_740_000_000_000_000_000_000_000,
            2_148_393_747_600_000_000_000_000_000_000_000_000);
    Product(5_803_177_588_934_932_019, 5_803_177_588_934_932_019, 33_676_870_128_716_650_822);
    Product(8_505_949_519_205_487_257_529_060_000, 2_148_393_747_600_000_033_676_870_128_716_650_822,
            18_274_128_764_462_295_230_140_660_809_008_287_831_594_161_035);
    CurveAtPoint(1_465_740_000_000_000_000_000_000_000, 5_803_177_588_934_932_019,
                 8_505_949_519_205_487_257_529_060_000, 2_148_393_747_600_000_000_000_000_000_000_000_000,
                 33_676_870_128_716_650_822, 18_274_128_764_462_295_230_140_660_809_008_287_831_594_161_035);
  }

  lemma TestEighteenSix()
    ensures F(146_574_000_000_000_000, 5_803_177_588_934_932_019_000_000_000_000) == 28_645_375_727_970_303_183_842_340_286_338_098_960_593_762_624_982_539_541
  {
    hide Times, P, F;
    Product(146_574_000_000_000_000, 5_803_177_588_934_932_019_000_000_000_000,
            850_594_951_920_548_725_752_906_000_000);
    Product(146_574_000_000_000_000, 146_574_000_000_000_000, 21_483_937_476_000_000);
    Product(5_803_177_588_934_932_019_000_000_000_000, 5_803_177_588_934_932_019_000_000_000_000,
            33_676_870_128_716_650_822_802_878_224_151_416_361_000_000);
    Product(850_594_951_920_548_725_752_906_000_000, 33_676_870_128_716_650_822_802_878_245_635_353_837_000_000,
            28_645_375_727_970_303_183_842_340_286_338_098_960_593_762_624_982_539_541);
    CurveAtPoint(146_574_000_000_000_000, 5_803_177_588_934_932_019_000_000_000_000,
                 850_594_951_920_548_725_752_906_000_000, 21_483_937_476_000_000,
                 33_676_870_128_716_650_822_802_878_224_151_416_361_000_000,
                 28_645_375_727_970_303_183_842_340_286_338_098_960_593_762_624_982_539_541);
  }

  lemma TestEighteenEight()
    ensures F(146_574_000_000_000_000, 58_031_775_889_349_320_190_000_000_000) == 28_645_375_727_970_303_183_842_523_009_351_614_819_080_904_550_330
  {
    hide Times, P, F;
    Product(146_574_000_000_000_000, 58_031_775_889_349_320_190_000_000_000, 8_505_949_519_205_487_257_529_060_000);
    Product(146_574_000_000_000_000, 146_574_000_000_000_000, 21_483_937_476_000_000);
    Product(58_031_775_889_349_320_190_000_000_000, 58_031_775_889_349_320_190_000_000_000,
            3_367_687_012_871_665_082_280_287_822_415_141_636_100);
    Product(8_505_949_519_205_487_257_529_060_000, 3_367_687_012_871_665_082_280_309_306_352_617_636_100,
            28_645_375_727_970_303_183_842_523_009_351_614_819_080_904_550_330);
    CurveAtPoint(146_574_000_000_000_000, 58_031_775_889_349_320_190_000_000_000,
                 8_505_949_519_205_487_257_529_060_000, 21_483_937_476_000_000,
                 3_367_687_012_871_665_082_280_287_822_415_141_636_100,
                 28_645_375_727_970_303_183_842_523_009_351_614_819_080_904_550_330);
  }

  /** The value that the upward exit compares with the target, for each pair of units. */
  lemma TestedAbove(unit0: Word, unit1: Word)
    requires Listed(unit0) && Listed(unit1) && !(unit0 == unit1 == WAD)
    ensures K(146_574_000_000_000_000, 5_803_177_588_934_932_019, true, unit0, unit1) > 28_663_649_856_734_765_457
  {
    hide Scale, F, K;
    ScaleValue(146_574_000_000_000_000, 1_000_000, 146_574_000_000_000_000_000_000_000_000);
    ScaleValue(5_803_177_588_934_932_019, 1_000_000, 5_803_177_588_934_932_019_000_000_000_000);
    ScaleValue(146_574_000_000_000_000, 100_000_000, 1_465_740_000_000_000_000_000_000_000);
    ScaleValue(5_803_177_588_934_932_019, 100_000_000, 58_031_775_889_349_320_190_000_000_000);
    ScaleValue(146_574_000_000_000_000, WAD, 146_574_000_000_000_000);
    ScaleValue(5_803_177_588_934_932_019, WAD, 5_803_177_588_934_932_019);
    if unit0 == 1_000_000 && unit1 == 1_000_000 {
      KIsF(146_574_000_000_000_000, 5_803_177_588_934_932_019, unit0, unit1, 146_574_000_000_000_000_000_000_000_000, 5_803_177_588_934_932_019_000_000_000_000);
      TestSixSix();
    } else if unit0 == 1_000_000 && unit1 == 100_000_000 {
      KIsF(146_574_000_000_000_000, 5_803_177_588_934_932_019, unit0, unit1, 146_574_000_000_000_000_000_000_000_000, 58_031_775_889_349_320_190_000_000_000);
      TestSixEight();
    } else if unit0 == 1_000_000 && unit1 == WAD {
      KIsF(146_574_000_000_000_000, 5_803_177_588_934_932_019, unit0, unit1, 146_574_000_000_000_000_000_000_000_000, 5_803_177_588_934_932_019);
      TestSixEighteen();
    } else if unit0 == 100_000_000 && unit1 == 1_000_000 {
      KIsF(146_574_000_000_000_000, 5_803_177_588_934_932_019, unit0, unit1, 1_465_740_000_000_000_000_000_000_000, 5_803_177_588_934_932_019_000_000_000_000);
      TestEightSix();
    } else if unit0 == 100_000_000 && unit1 == 100_000_000 {
      KIsF(146_574_000_000_000_000, 5_803_177_588_934_932_019, unit0, unit1, 1_465_740_000_000_000_000_000_000_000, 58_031_775_889_349_320_190_000_000_000);
      TestEightEight();
    } else if unit0 == 100_000_000 && unit1 == WAD {
      KIsF(146_574_000_000_000_000, 5_803_177_588_934_932_019, unit0, unit1, 1_465_740_000_000_000_000_000_000_000, 5_803_177_588_934_932_019);
      TestEightEighteen();
    } else if unit0 == WAD && unit1 == 1_000_000 {
      KIsF(146_574_000_000_000_000, 5_803_177_588_934_932_019, unit0, unit1, 146_574_000_000_000_000, 5_803_177_588_934_932_019_000_000_000_000);
      TestEighteenSix();
    } else {
      KIsF(146_574_000_000_000_000, 5_803_177_588_934_932_019, unit0, unit1, 146_574_000_000_000_000, 58_031_775_889_349_320_190_000_000_000);
      TestEighteenEight();
    }
  }

  /** Four steps down, then the upward exit. */
  lemma {:induction false} SmallRun(rounds: nat, unit0: Word, unit1: Word)
    requires rounds >= 5 && Listed(unit0) && Listed(unit1) && !(unit0 == unit1 == WAD)
    ensures Newton(rounds, 146_574_000_000_000_000, 28_663_649_856_734_765_457, 6_172_178_000_000_000_000, true, unit0, unit1)
         == 5_803_177_588_934_932_019
  {
    hide F, D, K, NewtonRound, Newton;
    var x0: Word, xy: Word := 146_574_000_000_000_000, 28_663_649_856_734_765_457;
    SmallReserve();
    SmallFirst();
    SmallSecond();
    SmallThird();
    SmallFourth();
    Falls(x0, xy, 6_172_178_000_000_000_000, 5_824_794_395_575_792_987, unit0, unit1);
    Falls(x0, xy, 5_824_794_395_575_792_987, 5_803_257_696_445_932_666, unit0, unit1);
    Falls(x0, xy, 5_803_257_696_445_932_666, 5_803_177_590_040_486_840, unit0, unit1);
    Falls(x0, xy, 5_803_177_590_040_486_840, 5_803_177_588_934_932_018, unit0, unit1);
    TestedAbove(unit0, unit1);
    ExitsUpward(x0, xy, 5_803_177_588_934_932_018, unit0, unit1);
    KeepsGoing(rounds, x0, xy, 6_172_178_000_000_000_000, 5_824_794_395_575_792_987, unit0, unit1);
    KeepsGoing(rounds - 1, x0, xy, 5_824_794_395_575_792_987, 5_803_257_696_445_932_666, unit0, unit1);
    KeepsGoing(rounds - 2, x0, xy, 5_803_257_696_445_932_666, 5_803_177_590_040_486_840, unit0, unit1);
    KeepsGoing(rounds - 3, x0, xy, 5_803_177_590_040_486_840, 5_803_177_588_934_932_018, unit0, unit1);
    Answers(rounds - 4, x0, xy, 5_803_177_588_934_932_018, 5_803_177_588_934_932_019, unit0, unit1);
  }

  /** A guarded swap's nonzero answer keeps the curve at or above its value at the reserves. */
  ghost predicate MeetsTarget(p: Pool, amountAfterFee: Word, fromToken0: bool)
    requires ValidPool(p)
  {
    var (a, b, amount) := Sides(p, amountAfterFee, fromToken0);
    var root := Root(p, amountAfterFee, fromToken0);
    Guard(a + amount, b) && root != 0 ==> Curve(a + amount, root) >= Curve(a, b)
  }

  ghost predicate AlwaysMeets(unit0: Word, unit1: Word) {
    forall p: Pool, amount: Word, fromToken0 | ValidPool(p) && p.unit0 == unit0 && p.unit1 == unit1 ::
      MeetsTarget(p, amount, fromToken0)
  }

  lemma FewerDecimalsUndershoot(unit0: Word, unit1: Word)
    requires Listed(unit0) && Listed(unit1) && !(unit0 == unit1 == WAD)
    ensures ValidPool(SmallPool(unit0, unit1)) && !MeetsTarget(SmallPool(unit0, unit1), Millionths(24_718, unit0), true)
  {
    hide Scale, F, K, Newton, Curve, Millionths;
    var p := SmallPool(unit0, unit1);
    ScaleOfMillionths(121_856, unit0);
    ScaleOfMillionths(6_172_178, unit1);
    ScaleOfMillionths(24_718, unit0);
    KIsF(p.reserve0, p.reserve1, unit0, unit1, 121_856_000_000_000_000, 6_172_178_000_000_000_000);
    SmallTarget();
    SmallRun(255, unit0, unit1);
    SmallAnswer();
    CurveDoesNotWrap(146_574_000_000_000_000, 5_803_177_588_934_932_019);
    CurveDoesNotWrap(121_856_000_000_000_000, 6_172_178_000_000_000_000);
  }

  /**
    Where an answer can be below the target at all: with fewer than 18 decimals on some side, and less than one and a
    half tokens on the input side, but not exactly one.
  */
  lemma FailureIsConfined(p: Pool, amountAfterFee: Word, fromToken0: bool)
    requires ValidPool(p) && !MeetsTarget(p, amountAfterFee, fromToken0)
    ensures p.unit0 < WAD || p.unit1 < WAD
    ensures var (a, b, amount) := Sides(p, amountAfterFee, fromToken0); Guard(a + amount, b) && !Ample(a + amount)
  {
    hide Scale, F, K, Newton, Curve, Guard, StaysWithin, Ample;
    var (a, b, amount) := Sides(p, amountAfterFee, fromToken0);
    TargetIsCurve(p.reserve0, p.reserve1, p.unit0, p.unit1);
    SolverKeepsPromise(p, a, b, amount, K(p.reserve0, p.reserve1, true, p.unit0, p.unit1));
  }

  /** With at least 18 decimals on both sides every guarded swap meets its target. */
  lemma EighteenMeets(unit0: Word, unit1: Word)
    requires unit0 >= WAD && unit1 >= WAD
    ensures AlwaysMeets(unit0, unit1)
  {
    hide MeetsTarget;
    forall p: Pool, amount: Word, fromToken0 | ValidPool(p) && p.unit0 == unit0 && p.unit1 == unit1
      ensures MeetsTarget(p, amount, fromToken0)
    {
      if !MeetsTarget(p, amount, fromToken0) {
        FailureIsConfined(p, amount, fromToken0);
      }
    }
  }

  /** So does every guarded swap between tokens without decimals: one whole token is ample, and so are two. */
  lemma WholeTokensMeet(p: Pool, amountAfterFee: Word, fromToken0: bool)
    requires ValidPool(p) && p.unit0 == p.unit1 == 1 && amountAfterFee < AMOUNT_BOUND
    ensures MeetsTarget(p, amountAfterFee, fromToken0)
  {
    hide Scale, Newton, Curve, K, MeetsTarget;
    ScaleValue(p.reserve0, 1, p.reserve0 * WAD);
    ScaleValue(p.reserve1, 1, p.reserve1 * WAD);
    ScaleValue(amountAfterFee, 1, amountAfterFee * WAD);
    if !MeetsTarget(p, amountAfterFee, fromToken0) {
      FailureIsConfined(p, amountAfterFee, fromToken0);
      assert false;
    }
  }

  /** Over tokens with 6, 8 or 18 decimals the swap always meets its target if and only if both have 18. */
  lemma UnitsDecide(unit0: Word, unit1: Word)
    requires Listed(unit0) && Listed(unit1)
    ensures AlwaysMeets(unit0, unit1) <==> unit0 == unit1 == WAD
  {
    hide MeetsTarget;
    if unit0 == unit1 == WAD {
      EighteenMeets(unit0, unit1);
    } else {
      FewerDecimalsUndershoot(unit0, unit1);
    }
  }
}
