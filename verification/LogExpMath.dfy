/**
  Fixed-point exponential, logarithm and power over signed 256-bit integers.  The methods follow the program
  statement by statement with operators whose preconditions rule out overflow; the functions `Exponential` and
  `Logarithm` state the same computations by recursion over the tables of constants.
*/
module LogExpMath {
  import opened Arithmetic
  import opened Outcomes
  import opened U256

  const ONE_18: int := 1_000_000_000_000_000_000
  const ONE_20: int := 100_000_000_000_000_000_000
  const ONE_36: int := 1_000_000_000_000_000_000_000_000_000_000_000_000

  const MAX_NATURAL_EXPONENT: int := 130_000_000_000_000_000_000
  const MIN_NATURAL_EXPONENT: int := -41_000_000_000_000_000_000

  const X0: int := 128000000000000000000
  const A0: int := 38877084059945950922200000000000000000000000000000000000
  const X1: int := 64000000000000000000
  const A1: int := 6235149080811616882910000000

  // 20-decimal constants: A = e^X
  const X2: int := 3200000000000000000000
  const A2: int := 7896296018268069516100000000000000
  const X3: int := 1600000000000000000000
  const A3: int := 888611052050787263676000000
  const X4: int := 800000000000000000000
  const A4: int := 298095798704172827474000
  const X5: int := 400000000000000000000
  const A5: int := 5459815003314423907810
  const X6: int := 200000000000000000000
  const A6: int := 738905609893065022723
  const X7: int := 100000000000000000000
  const A7: int := 271828182845904523536
  const X8: int := 50000000000000000000
  const A8: int := 164872127070012814685
  const X9: int := 25000000000000000000
  const A9: int := 128402541668774148407
  const X10: int := 12500000000000000000
  const A10: int := 113314845306682631683
  const X11: int := 6250000000000000000
  const A11: int := 106449445891785942956

  // the product of all constants up to each one, rounded as the program rounds it
  const T3: int := 70167359120976317386542812965656684271836
  const T4: int := 209165949601299615390442109296360546958270159
  const T5: int := 11420073898156842836612956676649479145085902416
  const T6: int := 84383566687414544890605642861479893980206797382
  const T7: int := 229378315946960987909564032213814069774054870815
  const T8: int := 378180908539128987898230655692248765927019707301
  const T9: int := 485593898670303750249326089141478710917884464781
  const E32_TIMES_E8: int := 23538526683701998540768178154437239653

  const STEPS: nat := 10

  function X(i: nat): (x: int)
    requires i < STEPS
    ensures X11 <= x <= X2
  {
    match i
    case 0 => X2
    case 1 => X3
    case 2 => X4
    case 3 => X5
    case 4 => X6
    case 5 => X7
    case 6 => X8
    case 7 => X9
    case 8 => X10
    case _ => X11
  }

  function A(i: nat): (a: int)
    requires i < STEPS
    ensures A11 <= a <= A2
  {
    match i
    case 0 => A2
    case 1 => A3
    case 2 => A4
    case 3 => A5
    case 4 => A6
    case 5 => A7
    case 6 => A8
    case 7 => A9
    case 8 => A10
    case _ => A11
  }

  // ----- exponential: greedy decomposition -----

  /** What is left of the exponent, and the product of the constants taken out of it. */
  datatype Peeled = Peeled(rest: int, product: int)

  function PeelOne(i: nat, s: Peeled): Peeled
    requires i < STEPS
  {
    if s.rest >= X(i) then Peeled(s.rest - X(i), s.product * A(i) / ONE_20) else s
  }

  /** Peeling x_2 .. x_9. */
  function Peel(i: nat, s: Peeled): Peeled
    requires i <= 8
    decreases 8 - i
  {
    if i == 8 then s else Peel(i + 1, PeelOne(i, s))
  }

  /** The value of the table entries that the greedy decomposition takes out of `rest`. */
  function Taken(i: nat, rest: int): int
    requires i <= 8
    decreases 8 - i
  {
    if i == 8 then 0
    else if rest >= X(i) then X(i) + Taken(i + 1, rest - X(i))
    else Taken(i + 1, rest)
  }

  /** The largest product that peeling can leave from a product of at most `p`. */
  function Top(i: nat, p: int): int
    requires i <= 8
    decreases 8 - i
  {
    if i == 8 then p else Top(i + 1, p * A(i) / ONE_20)
  }

  lemma XHalves(i: nat)
    requires i + 1 < STEPS
    ensures X(i) == 2 * X(i + 1) && X(7) == X9
  {
  }

  lemma {:induction false} PeelReconstructs(i: nat, s: Peeled)
    requires i <= 8 && 0 <= s.rest && (i < 8 ==> s.rest < 2 * X(i)) && (i == 8 ==> s.rest < X9)
    ensures var r := Peel(i, s); 0 <= r.rest < X9 && s.rest == Taken(i, s.rest) + r.rest
    decreases 8 - i
  {
    if i < 8 {
      hide A, X;
      XHalves(i);
      var rest := PeelOne(i, s).rest;
      assert 0 <= rest < X(i) && s.rest - rest == Taken(i, s.rest) - Taken(i + 1, rest);
      PeelReconstructs(i + 1, PeelOne(i, s));
    }
  }

  /** A fixed-point product with a factor of at least one, taken or not. */
  lemma ProductGrows(p: nat, top: nat, a: nat)
    requires ONE_20 <= p <= top && ONE_20 <= a
    ensures p <= p * a / ONE_20 <= top * a / ONE_20 && top <= top * a / ONE_20
  {
    MulMono(p, p, ONE_20, a);
    MulMono(top, top, ONE_20, a);
    MulMono(p, top, a, a);
    FloorIsGreatest(p * a, ONE_20, p);
    FloorIsGreatest(top * a, ONE_20, top);
    DivMono(p * a, top * a, ONE_20);
  }

  lemma {:induction false} PeelGrows(i: nat, s: Peeled, top: int)
    requires i <= 8 && ONE_20 <= s.product <= top
    ensures s.product <= Peel(i, s).product <= Top(i, top)
    decreases 8 - i
  {
    hide A, X;
    if i < 8 {
      ProductGrows(s.product, top, A(i));
      PeelGrows(i + 1, PeelOne(i, s), top * A(i) / ONE_20);
    }
  }

  // ----- exponential: Taylor series and assembly -----

  /** The terms from x^n/n! to x^12/12!, added to `sum`. */
  function Taylor(n: nat, x: int, term: int, sum: int): int
    requires 2 <= n <= 13
    decreases 13 - n
  {
    if n == 13 then sum else var t := term * x / ONE_20 / n; Taylor(n + 1, x, t, sum + t)
  }

  lemma HalfAtMost(q: nat, n: nat)
    requires n >= 2
    ensures 0 <= q / n <= q / 2
  {
    FloorIsGreatest(q, n, 0);
    FloorBounds(q, n);
    MulMono(q / n, q / n, 2, n);
  }

  lemma TermShrinks(n: nat, x: int, term: int)
    requires 0 <= x < X9 && 0 <= term && 2 <= n
    ensures 0 <= term * x / ONE_20 / n <= term / 8 <= term
  {
    MulMono(term, term, x, X9);
    QuotientAtMost(term * x, ONE_20, term / 4, ONE_20);
    HalfAtMost(term * x / ONE_20, n);
  }

  lemma {:induction false} TaylorBounds(n: nat, x: int, term: int, sum: int)
    requires 2 <= n <= 13 && 0 <= x < X9 && 0 <= term
    ensures sum <= Taylor(n, x, term, sum) <= sum + term
    decreases 13 - n
  {
    if n < 13 {
      var t := term * x / ONE_20 / n;
      TermShrinks(n, x, term);
      TaylorBounds(n + 1, x, t, sum + t);
    }
  }

  /** The first constant, without decimals, and the exponent that remains. */
  function Lead(x: int): (int, int) {
    if x >= X0 then (x - X0, A0) else if x >= X1 then (x - X1, A1) else (x, 1)
  }

  function Assemble(s: Peeled, first: int): int {
    var series := Taylor(2, s.rest, s.rest, ONE_20 + s.rest);
    Combine(s.product, series, first)
  }

  function Combine(product: int, series: int, first: int): int {
    product * series / ONE_20 * first / 100
  }

  function ExponentialOfPositive(x: int): int
  {
    var (rest, first) := Lead(x);
    Assemble(Peel(0, Peeled(rest * 100, ONE_20)), first)
  }

  function Exponential(x: int): int
    requires MIN_NATURAL_EXPONENT <= x <= MAX_NATURAL_EXPONENT
  {
    if x < 0 then
      ExponentialInRange(-x);
      Quot(ONE_18 * ONE_18, ExponentialOfPositive(-x))
    else
      ExponentialOfPositive(x)
  }

  // ----- exponential: bounds -----

  lemma AssembleArithmetic(product: nat, series: nat, first: nat, top: nat)
    requires ONE_20 <= product <= top && ONE_20 <= series <= ONE_20 + ONE_20 / 2 && first > 0
    ensures ONE_20 <= product * series / ONE_20 <= top + top / 2
    ensures 0 <= product * series <= top * (ONE_20 + ONE_20 / 2)
    ensures ONE_20 * first <= product * series / ONE_20 * first <= (top + top / 2) * first
  {
    MulMono(product, product, ONE_20, series);
    MulMono(product, top, series, ONE_20 + ONE_20 / 2);
    var q := product * series / ONE_20;
    FloorBounds(product * series, ONE_20);
    MulMono(ONE_20, q, first, first);
    MulMono(q, top + top / 2, first, first);
  }

  lemma SeriesBounds(rest: int)
    requires 0 <= rest < X9
    ensures ONE_20 <= Taylor(2, rest, rest, ONE_20 + rest) <= ONE_20 + ONE_20 / 2
  {
    TaylorBounds(2, rest, rest, ONE_20 + rest);
  }

  lemma AssembleBounds(s: Peeled, first: int, top: int)
    requires ONE_20 <= s.product <= top && 0 <= s.rest < X9 && first > 0
    ensures ONE_18 * first <= Assemble(s, first) <= (top + top / 2) * first / 100
  {
    SeriesBounds(s.rest);
    AssembleArithmetic(s.product, Taylor(2, s.rest, s.rest, ONE_20 + s.rest), first, top);
  }

  /** Entries larger than the exponent are not taken. */
  lemma {:induction false} PeelSkips(i: nat, j: nat, s: Peeled)
    requires i <= j <= 8 && (j > i ==> s.rest < X(j - 1))
    ensures Peel(i, s) == Peel(j, s)
    decreases j - i
  {
    if i < j {
      PeelSkips(i + 1, j, s);
    }
  }

  lemma TopStep(i: nat, p: int, a: int, q: int)
    requires i < 8 && a == A(i) && q == p * a / ONE_20
    ensures Top(i, p) == Top(i + 1, q)
  {
  }

  lemma TopFrom0()
    ensures Top(0, ONE_20) == T9
  {
    TopStep(0, ONE_20, A2, 7896296018268069516100000000000000);
    TopStep(1, 7896296018268069516100000000000000, A3, 70167359120976317386542812965656684271836);
    TopStep(2, 70167359120976317386542812965656684271836, A4, 209165949601299615390442109296360546958270159);
    TopStep(3, 209165949601299615390442109296360546958270159, A5, 11420073898156842836612956676649479145085902416);
    TopStep(4, 11420073898156842836612956676649479145085902416, A6, 84383566687414544890605642861479893980206797382);
    TopStep(5, 84383566687414544890605642861479893980206797382, A7, 229378315946960987909564032213814069774054870815);
    TopStep(6, 229378315946960987909564032213814069774054870815, A8, 378180908539128987898230655692248765927019707301);
    TopStep(7, 378180908539128987898230655692248765927019707301, A9, T9);
  }

  lemma TopFrom1()
    ensures Top(1, ONE_20) <= ONE_36
  {
    TopStep(1, ONE_20, A3, 888611052050787263676000000);
    TopStep(2, 888611052050787263676000000, A4, 2648912212984347229409822871583);
    TopStep(3, 2648912212984347229409822871583, A5, 144625706429147517367454072280743);
    TopStep(4, 144625706429147517367454072280743, A6, 1068647458152446214697132828454168);
    TopStep(5, 1068647458152446214697132828454168, A7, 2904884966524742523103058114674592);
    TopStep(6, 2904884966524742523103058114674592, A8, 4789345633246372707538870583083636);
    TopStep(7, 4789345633246372707538870583083636, A9, 6149641522390788819821678934441255);
  }

  lemma TopFrom3()
    ensures Top(3, A2) <= 64 * ONE_36
  {
    TopStep(3, A2, A5, 431123154711519522711381196136968977);
    TopStep(4, 431123154711519522711381196136968977, A6, 3185593175711375622032970810228332718);
    TopStep(5, 3185593175711375622032970810228332718, A7, 8659340042399374695360059228143604845);
    TopStep(6, 8659340042399374695360059228143604845, A8, 14276838118129198591768974590961365483);
    TopStep(7, 14276838118129198591768974590961365483, A9, 18331823013614275198732092786555545826);
  }

  lemma TopFrom5()
    ensures Top(5, ONE_20) <= A6
  {
    TopStep(5, ONE_20, A7, 271828182845904523536);
    TopStep(6, 271828182845904523536, A8, 448168907033806482260);
    TopStep(7, 448168907033806482260, A9, 575460267600573043684);
  }

  lemma TopFrom6()
    ensures Top(6, E32_TIMES_E8) <= 64 * ONE_36
  {
    TopStep(6, E32_TIMES_E8, A8, 38808469624362032402313013798359450642);
    TopStep(7, 38808469624362032402313013798359450642, A9, 49831061380435016883929706495980413138);
  }

  /** Below 41 the product stays under e^41 with room for the series. */
  lemma PeelUpTo41(rest: int)
    requires 0 <= rest <= -MIN_NATURAL_EXPONENT * 100
    ensures Peel(0, Peeled(rest, ONE_20)).product <= 64 * ONE_36
  {
    var s := Peeled(rest, ONE_20);
    if rest < X2 {
      TopFrom1();
      PeelSkips(0, 1, s);
      PeelGrows(1, s, ONE_20);
    } else {
      var s1 := Peeled(rest - X2, A2);
      assert PeelOne(0, s) == s1;
      PeelSkips(1, 2, s1);
      PeelRest41(s1);
    }
  }

  lemma {:induction false} PeelRest41(s1: Peeled)
    requires 0 <= s1.rest <= 90 * ONE_18 * 10 && s1.product == A2
    ensures Peel(2, s1).product <= 64 * ONE_36
  {
    if s1.rest < X4 {
      TopFrom3();
      PeelSkips(2, 3, s1);
      PeelGrows(3, s1, A2);
    } else {
      var s3 := Peeled(s1.rest - X4, E32_TIMES_E8);
      assert PeelOne(2, s1) == s3;
      PeelSkips(3, 5, s3);
      if s3.rest < X7 {
        TopFrom6();
        PeelSkips(5, 6, s3);
        PeelGrows(6, s3, E32_TIMES_E8);
      } else {
        var s6 := Peeled(0, 63984349353005494922200280034122631011);
        assert PeelOne(5, s3) == s6;
        PeelSkips(6, 8, s6);
      }
    }
  }

  /** After x_0 has been taken, at most x_6 is left. */
  lemma PeelUpTo2(rest: int)
    requires 0 <= rest <= X6
    ensures Peel(0, Peeled(rest, ONE_20)).product <= A6
  {
    var s := Peeled(rest, ONE_20);
    PeelSkips(0, 4, s);
    if rest == X6 {
      assert PeelOne(4, s) == Peeled(0, A6);
      PeelSkips(5, 8, Peeled(0, A6));
    } else {
      TopFrom5();
      PeelSkips(4, 5, s);
      PeelGrows(5, s, ONE_20);
    }
  }

  const FIVE_E75: int := 5_000 * ONE_36 * ONE_36

  /** What the greedy decomposition leaves, with a bound that depends on the constants taken first. */
  lemma PeeledWithin(x: int)
    requires 0 <= x <= MAX_NATURAL_EXPONENT
    ensures var (rest, first) := Lead(x);
            var r := Peel(0, Peeled(rest * 100, ONE_20));
            && 0 <= rest < X1 && 0 <= r.rest < X9
            && ONE_20 <= r.product <= (if first == A0 then A6 else T9)
            && (x <= -MIN_NATURAL_EXPONENT ==> r.product <= 64 * ONE_36)
  {
    var (rest, first) := Lead(x);
    var s := Peeled(rest * 100, ONE_20);
    PeelReconstructs(0, s);
    PeelGrows(0, s, ONE_20);
    TopFrom0();
    if x >= X0 {
      PeelUpTo2(rest * 100);
    } else if x <= -MIN_NATURAL_EXPONENT {
      PeelUpTo41(rest * 100);
    }
  }

  /** On [0, 130] the result is at least one and far inside 256 bits; on [0, 41] it is at most 1e18. */
  lemma ExponentialInRange(x: int)
    requires 0 <= x <= MAX_NATURAL_EXPONENT
    ensures ONE_18 <= ExponentialOfPositive(x) <= FIVE_E75
    ensures x <= -MIN_NATURAL_EXPONENT ==> ExponentialOfPositive(x) <= ONE_36
  {
    var (rest, first) := Lead(x);
    PeeledWithin(x);
    var r := Peel(0, Peeled(rest * 100, ONE_20));
    if x <= -MIN_NATURAL_EXPONENT {
      AssembleBounds(r, first, 64 * ONE_36);
    } else {
      AssembleBounds(r, first, if first == A0 then A6 else T9);
    }
  }

  /** The greedy decomposition: x is what was taken plus a remainder below x_9. */
  lemma DecompositionIsExact(x: int)
    requires 0 <= x <= MAX_NATURAL_EXPONENT
    ensures var (rest, first) := Lead(x);
            var r := Peel(0, Peeled(rest * 100, ONE_20));
            && 0 <= r.rest < X9
            && x * 100 == (if first == A0 then X0 * 100 else if first == A1 then X1 * 100 else 0) + Taken(0, rest * 100) + r.rest
  {
    var (rest, first) := Lead(x);
    PeelReconstructs(0, Peeled(rest * 100, ONE_20));
  }

  // ----- exponential: the program -----

  /** State after some of the conditional subtractions: the same peeling is still to do, and the bounds hold. */
  ghost predicate PeelStage(i: nat, s: Peeled, rest: int, product: int, top: int)
    requires i <= 8
  {
    && Peel(0, s) == Peel(i, Peeled(rest, product))
    && ONE_20 <= product <= top && 0 <= rest < (if i == 0 then 2 * X2 else X(i - 1))
  }

  lemma PeelArithmetic(product: nat, top: nat, a: nat, top': nat)
    requires ONE_20 <= product <= top && ONE_20 <= a && top * a < SIGN && top * a / ONE_20 <= top'
    ensures 0 <= product * a < SIGN && ONE_20 <= product * a / ONE_20 <= top'
  {
    MulMono(product, top, a, a);
    MulMono(product, product, ONE_20, a);
  }

  lemma StageAdvances(i: nat, s: Peeled, rest: int, product: int, scaled: int, top: int, top': int)
    requires i < 8 && PeelStage(i, s, rest, product, top) && top <= top'
    requires scaled == product * A(i) / ONE_20 && ONE_20 <= scaled <= top'
    ensures rest >= X(i) ==> PeelStage(i + 1, s, rest - X(i), scaled, top')
    ensures rest < X(i) ==> PeelStage(i + 1, s, rest, product, top')
  {
    if i > 0 {
      XHalves(i - 1);
    }
  }

  /** One conditional subtraction and multiplication; the ghost bounds keep the product inside 256 bits. */
  method TakeOut(i: nat, ghost s: Peeled, rest: int, product: int, x: int, a: int, ghost top: int, ghost top': int)
    returns (rest': int, product': int)
    requires i < 8 && PeelStage(i, s, rest, product, top) && rest < SIGN
    requires x == X(i) && a == A(i) && top * a < SIGN && top * a / ONE_20 <= top' && top <= top' < SIGN
    ensures PeelStage(i + 1, s, rest', product', top') && rest' <= rest
  {
    PeelArithmetic(product, top, a, top');
    StageAdvances(i, s, rest, product, product * a / ONE_20, top, top');
    rest', product' := rest, product;
    if rest >= x {
      rest' := SSub(rest, x);
      product' := Quot(SMul(product, a), ONE_20);
    }
  }

  method PeelAll(x: int) returns (rest: int, product: int)
    requires 0 <= x < 2 * X2
    ensures Peeled(rest, product) == Peel(0, Peeled(x, ONE_20)) && 0 <= rest < X9
  {
    ghost var s := Peeled(x, ONE_20);
    rest, product := TakeOut(0, s, x, ONE_20, X2, A2, ONE_20, A2);
    rest, product := TakeOut(1, s, rest, product, X3, A3, A2, T3);
    rest, product := TakeOut(2, s, rest, product, X4, A4, T3, T4);
    rest, product := TakeOut(3, s, rest, product, X5, A5, T4, T5);
    rest, product := TakeOut(4, s, rest, product, X6, A6, T5, T6);
    rest, product := TakeOut(5, s, rest, product, X7, A7, T6, T7);
    rest, product := TakeOut(6, s, rest, product, X8, A8, T7, T8);
    rest, product := TakeOut(7, s, rest, product, X9, A9, T8, T9);
  }

  lemma TermFits(n: nat, x: int, term: int)
    requires 2 <= n && 0 <= x < X9 && 0 <= term < X9
    ensures FitsSigned(term * x) && Quot(Quot(term * x, ONE_20), n) == term * x / ONE_20 / n
    ensures 0 <= term * x / ONE_20 / n <= term
  {
    TermShrinks(n, x, term);
    MulMono(term, X9, x, X9);
    FloorIsGreatest(term * x, ONE_20, 0);
  }

  lemma TaylorStep(n: nat, x: int, term: int, sum: int)
    requires 2 <= n <= 12
    ensures var t := term * x / ONE_20 / n; Taylor(n, x, term, sum) == Taylor(n + 1, x, t, sum + t)
  {
  }

  /** The next Taylor term, added to the sum. */
  method AddTerm(n: nat, x: int, term: int, sum: int) returns (term': int, sum': int)
    requires 2 <= n <= 12 && 0 <= x < X9 && 0 <= term < X9 && 0 <= sum <= n * ONE_20
    ensures 0 <= term' <= term && 0 <= sum' <= (n + 1) * ONE_20
    ensures Taylor(n + 1, x, term', sum') == Taylor(n, x, term, sum)
  {
    TermFits(n, x, term);
    TaylorStep(n, x, term, sum);
    hide Quot, Taylor;
    term' := Quot(Quot(SMul(term, x), ONE_20), n);
    sum' := SAdd(sum, term');
  }

  method TaylorSum(rest: int) returns (seriesSum: int)
    requires 0 <= rest < X9
    ensures seriesSum == Taylor(2, rest, rest, ONE_20 + rest)
  {
    var term := rest;
    seriesSum := SAdd(ONE_20, term);
    term, seriesSum := AddTerm(2, rest, term, seriesSum);
    term, seriesSum := AddTerm(3, rest, term, seriesSum);
    term, seriesSum := AddTerm(4, rest, term, seriesSum);
    term, seriesSum := AddTerm(5, rest, term, seriesSum);
    term, seriesSum := AddTerm(6, rest, term, seriesSum);
    term, seriesSum := AddTerm(7, rest, term, seriesSum);
    term, seriesSum := AddTerm(8, rest, term, seriesSum);
    term, seriesSum := AddTerm(9, rest, term, seriesSum);
    term, seriesSum := AddTerm(10, rest, term, seriesSum);
    term, seriesSum := AddTerm(11, rest, term, seriesSum);
    term, seriesSum := AddTerm(12, rest, term, seriesSum);
  }

  /** None stands for the failed range assertion. */
  method Exp(x: int) returns (r: Option<int>)
    ensures r.Some? <==> MIN_NATURAL_EXPONENT <= x <= MAX_NATURAL_EXPONENT
    ensures r.Some? ==> r.value == Exponential(x)
    ensures r.Some? && x >= 0 ==> ONE_18 <= r.value <= FIVE_E75
    ensures r.Some? && x < 0 ==> 1 <= r.value <= ONE_18
    decreases x < 0
  {
    if x < MIN_NATURAL_EXPONENT || x > MAX_NATURAL_EXPONENT {
      return None;
    }
    if x < 0 {
      var e := Exp(-x);
      ExponentialInRange(-x);
      ReciprocalBounds(e.value);
      return Some(Quot(SMul(ONE_18, ONE_18), e.value));
    }
    ExponentialInRange(x);
    PeeledWithin(x);
    var rest, firstAn := x, 1;
    if x >= X0 {
      rest := SSub(rest, X0);
      firstAn := A0;
    } else if x >= X1 {
      rest := SSub(rest, X1);
      firstAn := A1;
    }
    rest := SMul(rest, 100);
    var product;
    rest, product := PeelAll(rest);
    var seriesSum := TaylorSum(rest);
    SeriesBounds(rest);
    var value := MultiplyOut(product, seriesSum, firstAn);
    return Some(value);
  }

  /** The final two products, neither of which leaves signed 256 bits. */
  method MultiplyOut(product: int, seriesSum: int, firstAn: int) returns (r: int)
    requires ONE_20 <= seriesSum <= ONE_20 + ONE_20 / 2
    requires ONE_20 <= product <= (if firstAn == A0 then A6 else T9) && firstAn in {A0, A1, 1}
    ensures r == Combine(product, seriesSum, firstAn)
  {
    AssembleArithmetic(product, seriesSum, firstAn, if firstAn == A0 then A6 else T9);
    r := Quot(SMul(Quot(SMul(product, seriesSum), ONE_20), firstAn), 100);
  }

  lemma ReciprocalBounds(e: int)
    requires ONE_18 <= e <= ONE_36
    ensures 1 <= Quot(ONE_36, e) <= ONE_18
  {
    FloorIsGreatest(ONE_36, e, 1);
    QuotientAtMost(ONE_36, e, ONE_18, ONE_18);
  }

  // ----- logarithm -----

  // upper bounds on the argument before each division of the chain
  const U1: int := 623514908081161688291000000000000000000000000000
  const U2: int := 7896296018268069516099999999999999
  const U3: int := 888611052050787263676852070
  const U4: int := 298095798704172827474902
  const U5: int := 5459815003314423907821
  const U6: int := 738905609893065022724
  const U7: int := 271828182845904523536
  const U8: int := 164872127070012814684
  const U9: int := 128402541668774148407
  const U10: int := 113314845306682631682
  const U11: int := 106449445891785942955

  function U(i: nat): (u: int)
    requires i <= STEPS
    ensures ONE_20 <= u <= U1
  {
    match i
    case 0 => U1
    case 1 => U2
    case 2 => U3
    case 3 => U4
    case 4 => U5
    case 5 => U6
    case 6 => U7
    case 7 => U8
    case 8 => U9
    case 9 => U10
    case _ => U11
  }

  /** The argument that is left and the logarithm already accounted for, both with 20 decimals. */
  datatype Divided = Divided(a: int, sum: int)

  function DivideOne(i: nat, s: Divided): Divided
    requires i < STEPS
  {
    if s.a >= A(i) then Divided(s.a * ONE_20 / A(i), s.sum + X(i)) else s
  }

  function Divide(i: nat, s: Divided): Divided
    requires i <= STEPS
    decreases STEPS - i
  {
    if i == STEPS then s else Divide(i + 1, DivideOne(i, s))
  }

  /** One fixed-point division by a table constant. */
  lemma DivideArithmetic(v: nat, a: nat, u: nat, u': nat)
    requires ONE_20 <= v <= u && ONE_20 <= a && u * ONE_20 < (u' + 1) * a && a - 1 <= u'
    ensures v >= a ==> ONE_20 <= v * ONE_20 / a <= u'
    ensures v < a ==> v <= u'
  {
    if v >= a {
      QuotientAtMost(v * ONE_20, a, u', a);
      FloorIsGreatest(v * ONE_20, a, ONE_20);
    }
  }

  /** Partial sums of the odd series: num * zz / one / k for k, k + 2, .., last. */
  function OddSeries(k: nat, last: nat, one: int, num: int, zz: int, sum: int): int
    requires one > 0 && k > 0
    decreases last + 2 - k
  {
    if k > last then sum
    else var n := Quot(num * zz, one); OddSeries(k + 2, last, one, n, zz, sum + Quot(n, k))
  }

  lemma ThirdAtMost(q: nat, k: nat)
    requires k >= 3
    ensures 0 <= q / k <= q / 3
  {
    FloorIsGreatest(q, k, 0);
    FloorBounds(q, k);
    MulMono(q / k, q / k, 3, k);
  }

  lemma QuarterAtMost(num: nat, zz: nat, one: nat)
    requires 0 < one && 4 * zz <= one
    ensures 0 <= num * zz / one <= num / 4
  {
    var h, m := num / 4, num * zz;
    MulMono(num, num, 4 * zz, one);
    MulMono(num, 4 * h + 3, one, one);
    assert num * (4 * zz) == 4 * m;
    assert (4 * h + 3) * one < 4 * ((h + 1) * one);
    QuotientAtMost(m, one, h, one);
  }

  lemma {:induction false} OddSeriesBounds(k: nat, last: nat, one: nat, num: nat, zz: nat, sum: int)
    requires 0 < one && 4 * zz <= one && k >= 3
    ensures sum <= OddSeries(k, last, one, num, zz, sum) <= sum + num
    decreases last + 2 - k
  {
    if k <= last {
      QuarterAtMost(num, zz, one);
      var n := num * zz / one;
      ThirdAtMost(n, k);
      OddSeriesBounds(k + 2, last, one, n, zz, sum + n / k);
    }
  }

  lemma QuotOdd(a: int, b: int)
    requires b > 0
    ensures Quot(-a, b) == -Quot(a, b)
  {
  }

  lemma {:induction false} OddSeriesIsOdd(k: nat, last: nat, one: int, num: int, zz: int, sum: int)
    requires one > 0 && k > 0
    ensures OddSeries(k, last, one, -num, zz, -sum) == -OddSeries(k, last, one, num, zz, sum)
    decreases last + 2 - k
  {
    if k <= last {
      assert -num * zz == -(num * zz);
      QuotOdd(num * zz, one);
      var n := Quot(num * zz, one);
      QuotOdd(n, k);
      OddSeriesIsOdd(k + 2, last, one, n, zz, sum + Quot(n, k));
    }
  }

  lemma UStep(i: nat)
    requires i < STEPS
    ensures U(i) * ONE_20 < (U(i + 1) + 1) * A(i) && A(i) - 1 <= U(i + 1) <= U(i) && U(i) * ONE_20 < SIGN
  {
    match i
    case 0 => assert U1 * ONE_20 < (U2 + 1) * A2;
    case 1 => assert U2 * ONE_20 < (U3 + 1) * A3;
    case 2 => assert U3 * ONE_20 < (U4 + 1) * A4;
    case 3 => assert U4 * ONE_20 < (U5 + 1) * A5;
    case 4 => assert U5 * ONE_20 < (U6 + 1) * A6;
    case 5 => assert U6 * ONE_20 < (U7 + 1) * A7;
    case 6 => assert U7 * ONE_20 < (U8 + 1) * A8;
    case 7 => assert U8 * ONE_20 < (U9 + 1) * A9;
    case 8 => assert U9 * ONE_20 < (U10 + 1) * A10;
    case _ => assert U10 * ONE_20 < (U11 + 1) * A11;
  }

  /** The chain leaves an argument in [1, 1.0645), and accounts for less than twice its first exponent. */
  lemma {:induction false} DivideBounds(i: nat, s: Divided)
    requires i <= STEPS && ONE_20 <= s.a <= U(i)
    ensures var r := Divide(i, s);
            ONE_20 <= r.a <= U11 && s.sum <= r.sum <= s.sum + (if i < STEPS then 2 * X(i) else 0)
    decreases STEPS - i
  {
    if i < STEPS {
      UStep(i);
      DivideArithmetic(s.a, A(i), U(i), U(i + 1));
      if i + 1 < STEPS {
        XHalves(i);
      }
      DivideBounds(i + 1, DivideOne(i, s));
    }
  }

  lemma {:induction false} DivideSkips(i: nat, j: nat, s: Divided)
    requires i <= j <= STEPS && (j > i ==> s.a < A(j - 1))
    ensures Divide(i, s) == Divide(j, s)
    decreases j - i
  {
    if i < j {
      if i + 1 < j {
        ADecreases(i, j - 1);
      }
      DivideSkips(i + 1, j, s);
    }
  }

  lemma ADecreases(i: nat, j: nat)
    requires i < j < STEPS
    ensures A(j) < A(i)
  {
  }

  /** The two integer divisions, and the change to 20 decimals. */
  function LeadDivide(a: int): Divided {
    var s0 := if a >= A0 * ONE_18 then Divided(a / A0, X0) else Divided(a, 0);
    var s1 := if s0.a >= A1 * ONE_18 then Divided(s0.a / A1, s0.sum + X1) else s0;
    Divided(s1.a * 100, s1.sum * 100)
  }

  /** Twice the series in z = (a - 1) / (a + 1). */
  function LogOfRest(a: int): int
    requires a > 0
  {
    var z := Quot((a - ONE_20) * ONE_20, a + ONE_20);
    OddSeries(3, 11, ONE_20, z, Quot(z * z, ONE_20), z) * 2
  }

  lemma LeadDivideBounds(a: int)
    requires ONE_18 <= a < SIGN
    ensures var s := LeadDivide(a); ONE_20 <= s.a <= U1 && 0 <= s.sum
    ensures var r := Divide(0, LeadDivide(a)); ONE_20 <= r.a <= U11 && 0 <= r.sum <= 136 * ONE_20
  {
    var s := LeadDivide(a);
    if a >= A0 * ONE_18 {
      assert s.a <= 148920748607035802476400 && s.sum == X0 * 100;
      DivideSkips(0, 3, s);
      DivideBounds(0, s);
      assert s.a <= U(3);
      DivideBounds(3, s);
    } else {
      assert s.a <= U(0);
      DivideBounds(0, s);
    }
  }

  /** The series of an argument in [1, 1.0645) is small and not negative. */
  lemma LogOfRestBounds(a: int)
    requires ONE_20 <= a <= U11
    ensures var z := Quot((a - ONE_20) * ONE_20, a + ONE_20);
            0 <= z < ONE_18 * 4 && 0 <= z * z <= ONE_36 * 16 && 4 * Quot(z * z, ONE_20) <= ONE_20
    ensures 0 <= LogOfRest(a) <= ONE_20
  {
    var n, d := (a - ONE_20) * ONE_20, a + ONE_20;
    FloorIsGreatest(n, d, 0);
    QuotientAtMost(n, d, 4 * ONE_18 - 1, 2 * ONE_20);
    var z := n / d;
    MulMono(z, 4 * ONE_18, z, 4 * ONE_18);
    OddSeriesBounds(3, 11, ONE_20, z, z * z / ONE_20, z);
  }

  function LogFromOne(a: int): int
    requires ONE_18 <= a < SIGN
  {
    LeadDivideBounds(a);
    var r := Divide(0, LeadDivide(a));
    Quot(r.sum + LogOfRest(r.a), 100)
  }

  function Logarithm(a: int): int
    requires 0 < a < SIGN
  {
    if a < ONE_18 then
      InverseAboveOne(a);
      -LogFromOne(Quot(ONE_36, a))
    else
      LogFromOne(a)
  }

  lemma InverseAboveOne(a: int)
    requires 0 < a < ONE_18
    ensures ONE_18 <= Quot(ONE_36, a) <= ONE_36
  {
    FloorIsGreatest(ONE_36, a, ONE_18);
    QuotientAtMost(ONE_36, a, ONE_36, 1);
  }

  /** The sign of the logarithm is the side of one that the argument is on, and its size is at most 137. */
  lemma LogarithmSign(a: int)
    requires 0 < a < SIGN
    ensures a >= ONE_18 ==> 0 <= Logarithm(a) <= 137 * ONE_18
    ensures a <= ONE_18 ==> -137 * ONE_18 <= Logarithm(a) <= 0
  {
    var b := a;
    if a < ONE_18 {
      InverseAboveOne(a);
      b := Quot(ONE_36, a);
    }
    LeadDivideBounds(b);
    LogOfRestBounds(Divide(0, LeadDivide(b)).a);
    if a == ONE_18 {
      DivideSkips(0, STEPS, LeadDivide(a));
      LogOfOne();
    }
  }

  lemma LogOfOne()
    ensures LogOfRest(ONE_20) == 0
  {
    OddSeriesBounds(3, 11, ONE_20, 0, 0, 0);
  }

  // ----- logarithm: the program -----

  ghost predicate DivideStage(i: nat, s: Divided, a: int, sum: int)
    requires i <= STEPS
  {
    && Divide(0, s) == Divide(i, Divided(a, sum))
    && ONE_20 <= a <= U(i) && 0 <= sum <= (200 + 100 * i) * ONE_20
  }

  lemma DivideStageAdvances(i: nat, s: Divided, a: int, sum: int, quotient: int)
    requires i < STEPS && DivideStage(i, s, a, sum) && quotient == a * ONE_20 / A(i)
    requires a >= A(i) ==> ONE_20 <= quotient <= U(i + 1)
    requires a < A(i) ==> a <= U(i + 1)
    ensures a >= A(i) ==> DivideStage(i + 1, s, quotient, sum + X(i))
    ensures a < A(i) ==> DivideStage(i + 1, s, a, sum)
  {
    hide A, U, X;
  }

  lemma DivideStageNext(i: nat, s: Divided, a: int, sum: int, an: int)
    requires i < STEPS && DivideStage(i, s, a, sum) && an == A(i)
    ensures FitsSigned(a * ONE_20) && FitsSigned(sum + X(i)) && FitsSigned(sum)
    ensures a >= an ==> DivideStage(i + 1, s, Quot(a * ONE_20, an), sum + X(i))
    ensures a < an ==> DivideStage(i + 1, s, a, sum)
  {
    hide A, U, X, Divide;
    UStep(i);
    MulMono(a, U(i), ONE_20, ONE_20);
    DivideArithmetic(a, an, U(i), U(i + 1));
    DivideStageAdvances(i, s, a, sum, a * ONE_20 / an);
  }

  /** One conditional division of the chain. */
  method DivideOut(i: nat, ghost s: Divided, a: int, sum: int, xn: int, an: int) returns (a': int, sum': int)
    requires i < STEPS && DivideStage(i, s, a, sum) && xn == X(i) && an == A(i)
    ensures DivideStage(i + 1, s, a', sum')
  {
    hide A, U, X, Quot, DivideStage;
    DivideStageNext(i, s, a, sum, an);
    a', sum' := a, sum;
    if a >= an {
      a' := Quot(SMul(a, ONE_20), an);
      sum' := SAdd(sum, xn);
    }
  }

  /** Room for the products of the odd series. */
  ghost predicate SmallSeries(one: int, num: int, zz: int) {
    0 < one <= ONE_36 && -ONE_36 <= num <= ONE_36 && 0 <= 4 * zz <= one
  }

  predicate WithinTerms(sum: int, k: nat) {
    sum <= k * ONE_36 && -sum <= k * ONE_36
  }

  lemma OddTermFits(one: int, num: int, zz: int)
    requires SmallSeries(one, num, zz)
    ensures FitsSigned(num * zz) && -ONE_36 <= Quot(num * zz, one) <= ONE_36
  {
    var m := if num < 0 then -num else num;
    QuarterAtMost(m, zz, one);
    MulMono(m, ONE_36, zz, ONE_36);
    if num < 0 {
      assert num * zz == -(m * zz);
      QuotOdd(m * zz, one);
    }
  }

  /** The next odd term, added to the sum. */
  method AddOddTerm(k: nat, ghost last: nat, one: int, num: int, zz: int, sum: int) returns (num': int, sum': int)
    requires SmallSeries(one, num, zz) && 3 <= k <= last <= 15 && WithinTerms(sum, k)
    ensures SmallSeries(one, num', zz) && WithinTerms(sum', k + 2)
    ensures OddSeries(k + 2, last, one, num', zz, sum') == OddSeries(k, last, one, num, zz, sum)
  {
    OddTermFits(one, num, zz);
    num' := Quot(SMul(num, zz), one);
    QuotientSmaller(num', k);
    sum' := SAdd(sum, Quot(num', k));
  }

  lemma QuotientSmaller(n: int, k: nat)
    requires k >= 3 && -ONE_36 <= n <= ONE_36
    ensures -ONE_36 <= Quot(n, k) <= ONE_36
  {
    ThirdAtMost(if n < 0 then -n else n, k);
  }

  /** Total on positive arguments, with at most one recursive call. */
  method Ln(a0: int) returns (r: int)
    requires 0 < a0 < SIGN
    ensures r == Logarithm(a0)
    ensures a0 >= ONE_18 ==> 0 <= r <= 137 * ONE_18
    ensures a0 <= ONE_18 ==> -137 * ONE_18 <= r <= 0
    decreases a0 < ONE_18
  {
    LogarithmSign(a0);
    if a0 < ONE_18 {
      InverseAboveOne(a0);
      var inverse := Ln(Quot(SMul(ONE_18, ONE_18), a0));
      return -inverse;
    }
    LeadDivideBounds(a0);
    var a, sum := a0, 0;
    if a >= SMul(A0, ONE_18) {
      a := Quot(a, A0);
      sum := SAdd(sum, X0);
    }
    if a >= SMul(A1, ONE_18) {
      a := Quot(a, A1);
      sum := SAdd(sum, X1);
    }
    sum := SMul(sum, 100);
    a := SMul(a, 100);
    a, sum := DivideAll(a, sum);
    LogOfRestBounds(a);
    var rest := LnOfRest(a);
    return Quot(SAdd(sum, rest), 100);
  }

  method DivideAll(a0: int, sum0: int) returns (a: int, sum: int)
    requires ONE_20 <= a0 <= U1 && 0 <= sum0 <= 200 * ONE_20
    ensures Divided(a, sum) == Divide(0, Divided(a0, sum0)) && ONE_20 <= a <= U11
  {
    ghost var s := Divided(a0, sum0);
    a, sum := a0, sum0;
    a, sum := DivideOut(0, s, a, sum, X2, A2);
    a, sum := DivideOut(1, s, a, sum, X3, A3);
    a, sum := DivideOut(2, s, a, sum, X4, A4);
    a, sum := DivideOut(3, s, a, sum, X5, A5);
    a, sum := DivideOut(4, s, a, sum, X6, A6);
    a, sum := DivideOut(5, s, a, sum, X7, A7);
    a, sum := DivideOut(6, s, a, sum, X8, A8);
    a, sum := DivideOut(7, s, a, sum, X9, A9);
    a, sum := DivideOut(8, s, a, sum, X10, A10);
    a, sum := DivideOut(9, s, a, sum, X11, A11);
  }

  method LnOfRest(a: int) returns (seriesSum: int)
    requires ONE_20 <= a <= U11
    ensures seriesSum == LogOfRest(a)
  {
    LogOfRestBounds(a);
    hide OddSeries, Quot;
    var z := Quot(SMul(SSub(a, ONE_20), ONE_20), SAdd(a, ONE_20));
    var zSquared := Quot(SMul(z, z), ONE_20);
    var num;
    num, seriesSum := z, z;
    num, seriesSum := AddOddTerm(3, 11, ONE_20, num, zSquared, seriesSum);
    num, seriesSum := AddOddTerm(5, 11, ONE_20, num, zSquared, seriesSum);
    num, seriesSum := AddOddTerm(7, 11, ONE_20, num, zSquared, seriesSum);
    num, seriesSum := AddOddTerm(9, 11, ONE_20, num, zSquared, seriesSum);
    num, seriesSum := AddOddTerm(11, 11, ONE_20, num, zSquared, seriesSum);
    seriesSum := SMul(seriesSum, 2);
  }

  /** The logarithm with 36 decimals, for arguments within a tenth of one. */
  function Logarithm36(x: int): int
    requires x > 0
  {
    var z := ZOf36(x);
    OddSeries(3, 15, ONE_36, z, Quot(z * z, ONE_36), z) * 2
  }

  const LN_36_LOWER: int := ONE_18 - ONE_18 / 10
  const LN_36_UPPER: int := ONE_18 + ONE_18 / 10

  /** z = (x - 1) / (x + 1) with 36 decimals. */
  function ZOf36(x: int): int
    requires x > 0
  {
    Quot((x * ONE_18 - ONE_36) * ONE_36, x * ONE_18 + ONE_36)
  }

  lemma SmallZ(z: int)
    requires -ONE_36 <= 16 * z <= ONE_36
    ensures 0 <= z * z < SIGN && SmallSeries(ONE_36, z, Quot(z * z, ONE_36))
  {
    var q := if z < 0 then -z else z;
    MulMono(q, ONE_36 / 16, q, ONE_36 / 16);
    assert z * z == q * q;
  }

  lemma SmallRatio(n: int, d: nat)
    requires -ONE_36 * ONE_36 <= 10 * n <= ONE_36 * ONE_36 && 10 * d >= 19 * ONE_36
    ensures -ONE_36 <= 16 * Quot(n, d) <= ONE_36
    ensures (n >= 0 ==> Quot(n, d) >= 0) && (n <= 0 ==> Quot(n, d) <= 0)
  {
    QuotientAtMost(if n < 0 then -n else n, d, ONE_36 / 16, 19 * ONE_36 / 10);
  }

  lemma Ln36Argument(x: int)
    requires LN_36_LOWER < x < LN_36_UPPER
    ensures FitsSigned((x * ONE_18 - ONE_36) * ONE_36) && -ONE_36 <= 16 * ZOf36(x) <= ONE_36
    ensures (x >= ONE_18 ==> ZOf36(x) >= 0) && (x <= ONE_18 ==> ZOf36(x) <= 0)
  {
    SmallRatio((x * ONE_18 - ONE_36) * ONE_36, x * ONE_18 + ONE_36);
  }

  lemma {:induction false} OddSeriesSign(z: int, zz: int)
    requires SmallSeries(ONE_36, z, zz)
    ensures z >= 0 ==> z <= OddSeries(3, 15, ONE_36, z, zz, z) <= 2 * z
    ensures z <= 0 ==> 2 * z <= OddSeries(3, 15, ONE_36, z, zz, z) <= z
  {
    hide OddSeries;
    if z >= 0 {
      OddSeriesBounds(3, 15, ONE_36, z, zz, z);
    } else {
      OddSeriesBounds(3, 15, ONE_36, -z, zz, -z);
      OddSeriesIsOdd(3, 15, ONE_36, -z, zz, -z);
    }
  }

  lemma Logarithm36Sign(x: int)
    requires LN_36_LOWER < x < LN_36_UPPER
    ensures x >= ONE_18 ==> 0 <= Logarithm36(x) <= ONE_36
    ensures x <= ONE_18 ==> -ONE_36 <= Logarithm36(x) <= 0
  {
    Ln36Argument(x);
    var z := ZOf36(x);
    SmallZ(z);
    OddSeriesSign(z, Quot(z * z, ONE_36));
  }

  method Ln36(x0: int) returns (r: int)
    requires LN_36_LOWER < x0 < LN_36_UPPER
    ensures r == Logarithm36(x0)
    ensures x0 >= ONE_18 ==> 0 <= r <= ONE_36
    ensures x0 <= ONE_18 ==> -ONE_36 <= r <= 0
  {
    Ln36Argument(x0);
    SmallZ(ZOf36(x0));
    Logarithm36Sign(x0);
    var x := SMul(x0, ONE_18);
    var z := Quot(SMul(SSub(x, ONE_36), ONE_36), SAdd(x, ONE_36));
    var zSquared := Quot(SMul(z, z), ONE_36);
    var num, seriesSum := z, z;
    for n := 1 to 8
      invariant SmallSeries(ONE_36, num, zSquared) && WithinTerms(seriesSum, 2 * n + 1)
      invariant OddSeries(2 * n + 1, 15, ONE_36, num, zSquared, seriesSum) == OddSeries(3, 15, ONE_36, z, zSquared, z)
    {
      num, seriesSum := AddOddTerm(2 * n + 1, 15, ONE_36, num, zSquared, seriesSum);
    }
    r := SMul(seriesSum, 2);
  }

  // ----- power -----

  /** 2^254 / 1e20. */
  const MILD_EXPONENT_BOUND: int := SIGN / 2 / ONE_20

  /** ln(x) * y with 18 decimals. */
  function LogTimes(x: int, y: int): int
    requires 0 < x < SIGN
  {
    if LN_36_LOWER < x < LN_36_UPPER then
      var l := Logarithm36(x);
      Quot(Quot(l, ONE_18) * y + Quot(Rem(l, ONE_18) * y, ONE_18), ONE_18)
    else
      Quot(Logarithm(x) * y, ONE_18)
  }

  /** x^y, or None where the program's assertions fail. */
  function Power(x: Word, y: Word): (r: Option<Word>)
    ensures r.Some? ==> 0 <= r.value <= FIVE_E75
  {
    if y == 0 then Some(ONE_18)
    else if x == 0 then Some(0)
    else if x >= SIGN || y >= MILD_EXPONENT_BOUND then None
    else
      var e := LogTimes(x, y);
      if MIN_NATURAL_EXPONENT <= e <= MAX_NATURAL_EXPONENT then
        ExponentialBounds(e);
        Some(Exponential(e))
      else
        None
  }

  lemma ExponentialBounds(e: int)
    requires MIN_NATURAL_EXPONENT <= e <= MAX_NATURAL_EXPONENT
    ensures 1 <= Exponential(e) <= FIVE_E75
    ensures e >= 0 ==> Exponential(e) >= ONE_18
    ensures e <= 0 ==> Exponential(e) <= ONE_18
  {
    ExponentialInRange(Abs(e));
    if e < 0 {
      ReciprocalBounds(ExponentialOfPositive(-e));
    } else if e == 0 {
      ExponentialOfZero();
    }
  }

  lemma LogTimesSign(x: int, y: nat)
    requires 0 < x < SIGN
    ensures x >= ONE_18 ==> LogTimes(x, y) >= 0
    ensures x <= ONE_18 ==> LogTimes(x, y) <= 0
  {
    if LN_36_LOWER < x < LN_36_UPPER {
      Logarithm36Sign(x);
      var l := Logarithm36(x);
      SignOfProduct(Quot(l, ONE_18), y);
      SignOfProduct(Rem(l, ONE_18), y);
    } else {
      LogarithmSign(x);
      SignOfProduct(Logarithm(x), y);
    }
  }

  lemma SignOfProduct(a: int, y: nat)
    ensures a >= 0 ==> a * y >= 0
    ensures a <= 0 ==> a * y <= 0
  {
  }

  /** A power lies on the same side of one as its base, is never zero, and fits with room to spare. */
  lemma PowerSide(x: Word, y: Word)
    requires x > 0 && Power(x, y).Some?
    ensures 1 <= Power(x, y).value <= FIVE_E75
    ensures x >= ONE_18 ==> Power(x, y).value >= ONE_18
    ensures x <= ONE_18 ==> Power(x, y).value <= ONE_18
  {
    if y != 0 {
      LogTimesSign(x, y);
      ExponentialBounds(LogTimes(x, y));
    }
  }

  lemma {:induction false} PeelDone(s: Peeled)
    ensures Peel(8, s) == s
  {
  }

  lemma ExponentialOfZero()
    ensures ExponentialOfPositive(0) == ONE_18
  {
    hide Peel, Taylor, X, A;
    assert X(7) == X9 by { XHalves(6); }
    PeelSkips(0, 8, Peeled(0, ONE_20));
    PeelDone(Peeled(0, ONE_20));
    TaylorBounds(2, 0, 0, ONE_20);
    assert Combine(ONE_20, ONE_20, 1) == ONE_18;
    assert Assemble(Peeled(0, ONE_20), 1) == ONE_18;
  }

  function Abs(i: int): nat {
    if i < 0 then -i else i
  }

  lemma ProductFits(a: int, y: nat, m: int)
    requires 0 <= m && -m <= a <= m && y < MILD_EXPONENT_BOUND && m * MILD_EXPONENT_BOUND < SIGN
    ensures -SIGN < a * y < SIGN && -(m * MILD_EXPONENT_BOUND) <= a * y <= m * MILD_EXPONENT_BOUND
  {
    MulMono(Abs(a), m, y, MILD_EXPONENT_BOUND);
    if a < 0 {
      assert a * y == -(-a * y);
    }
  }

  lemma QuotRemBounds(l: int)
    requires -ONE_36 <= l <= ONE_36
    ensures -ONE_18 <= Quot(l, ONE_18) <= ONE_18 && -ONE_18 < Rem(l, ONE_18) < ONE_18
  {
  }

  /** ln(x) * y: none of its products overflows, whatever the base and the exponent. */
  method MultiplyLog(x: int, y: int) returns (r: int)
    requires 0 < x < SIGN && 0 <= y < MILD_EXPONENT_BOUND
    ensures r == LogTimes(x, y)
  {
    if LN_36_LOWER < x < LN_36_UPPER {
      var l := Ln36(x);
      QuotRemBounds(l);
      var high, low := Quot(l, ONE_18), Rem(l, ONE_18);
      ProductFits(high, y, ONE_18);
      ProductFits(low, y, ONE_18);
      r := SAdd(SMul(high, y), Quot(SMul(low, y), ONE_18));
    } else {
      var l := Ln(x);
      ProductFits(l, y, 137 * ONE_18);
      r := SMul(l, y);
    }
    r := Quot(r, ONE_18);
  }

  method Pow(x: Word, y: Word) returns (r: Option<Word>)
    ensures r == Power(x, y)
  {
    if y == 0 {
      return Some(ONE_18);
    }
    if x == 0 {
      return Some(0);
    }
    if x >= SIGN || y >= MILD_EXPONENT_BOUND {
      return None;
    }
    var logxTimesY := MultiplyLog(ToSigned(x), ToSigned(y));
    if logxTimesY < MIN_NATURAL_EXPONENT || logxTimesY > MAX_NATURAL_EXPONENT {
      return None;
    }
    ExponentialBounds(logxTimesY);
    var e := Exp(logxTimesY);
    return Some(Abs(e.value));
  }
}
