/**
  The cache key does not name the token that goes in, so that two steps through one pool, one each way, share an entry
  when they are given the same amount.  Which runs of the calculator this spoils, exactly; and a pair of cycles over two
  V2 pools whose cached output hides a profit.
*/
module CacheAliasing {
  import opened Arithmetic
  import opened Calculators
  import opened ConstantProduct
  import opened Outcomes
  import opened PathAgreement
  import opened Swaps
  import opened U256

  // ----- what a run asks for -----

  datatype Asking = Asking(step: SwapStep, amount: Word)

  function KeyOf(q: Asking): Key {
    Key(q.step.pool, q.amount)
  }

  function Answer<S>(quote: Quote<S>, db: map<Address, S>, q: Asking): Word {
    if q.step.pool in db then quote(db[q.step.pool], q.step, q.amount) else 0
  }

  /** The quotes a path needs, with its uncached amounts, up to the first that is zero. */
  function Askings<S>(quote: Quote<S>, db: map<Address, S>, path: SwapPath, amount: Word): seq<Asking>
    requires Tracked(db, path)
  {
    if path == [] then []
    else
      var q := Asking(path[0], amount);
      var out := Answer(quote, db, q);
      [q] + if out == 0 then [] else Askings(quote, db, path[1..], out)
  }

  predicate AllTracked<S>(db: map<Address, S>, paths: seq<SwapPath>) {
    forall p :: p in paths ==> Tracked(db, p)
  }

  function AllAskings<S>(quote: Quote<S>, db: map<Address, S>, paths: seq<SwapPath>): seq<Asking>
    requires AllTracked(db, paths)
  {
    if paths == [] then []
    else
      assert paths[0] in paths;
      Askings(quote, db, paths[0], AMOUNT) + AllAskings(quote, db, paths[1..])
  }

  /** No key is asked for twice with different quotes. */
  ghost predicate Consistent<S>(quote: Quote<S>, db: map<Address, S>, asked: seq<Asking>) {
    forall p, q :: p in asked && q in asked && KeyOf(p) == KeyOf(q) ==> Answer(quote, db, p) == Answer(quote, db, q)
  }

  // ----- what a run is answered -----

  /** What the cache answers, or else the quote; and the cache afterwards. */
  function Lookup<S>(quote: Quote<S>, db: map<Address, S>, entries: Entries, q: Asking): Word {
    if KeyOf(q) in entries then entries[KeyOf(q)] else Answer(quote, db, q)
  }

  function Stored<S>(quote: Quote<S>, db: map<Address, S>, entries: Entries, q: Asking): Entries {
    if KeyOf(q) in entries then entries else entries[KeyOf(q) := Answer(quote, db, q)]
  }

  /** Every lookup of the path is answered with the quote it stands for. */
  predicate AnsweredFreshly<S>(quote: Quote<S>, db: map<Address, S>, path: SwapPath, amount: Word, entries: Entries)
    requires Tracked(db, path)
  {
    path != [] ==>
      var q := Asking(path[0], amount);
      var out := Lookup(quote, db, entries, q);
      && out == Answer(quote, db, q)
      && (out != 0 ==> AnsweredFreshly(quote, db, path[1..], out, Stored(quote, db, entries, q)))
  }

  /** So is every lookup of a run over several paths, each with the cache that the one before left. */
  predicate RunFresh<S>(quote: Quote<S>, db: map<Address, S>, paths: seq<SwapPath>, entries: Entries)
    requires AllTracked(db, paths)
  {
    paths != [] ==>
      assert paths[0] in paths;
      && AnsweredFreshly(quote, db, paths[0], AMOUNT, entries)
      && RunFresh(quote, db, paths[1..], Calculate(quote, db, paths[0], AMOUNT, entries).entries)
  }

  /** The entries are the quotes of what was asked, the first asked of each key. */
  ghost predicate Records<S>(quote: Quote<S>, db: map<Address, S>, entries: Entries, asked: seq<Asking>) {
    && (forall q :: q in asked ==> KeyOf(q) in entries)
    && (forall k :: k in entries ==> exists q :: q in asked && KeyOf(q) == k && entries[k] == Answer(quote, db, q))
  }

  lemma OneMoreAsking<S>(quote: Quote<S>, db: map<Address, S>, entries: Entries, asked: seq<Asking>, q: Asking)
    requires Records(quote, db, entries, asked) && Consistent(quote, db, asked)
    ensures Lookup(quote, db, entries, q) == Answer(quote, db, q) <==> Consistent(quote, db, asked + [q])
    ensures Lookup(quote, db, entries, q) == Answer(quote, db, q) ==>
              Records(quote, db, Stored(quote, db, entries, q), asked + [q])
  {
    hide Answer;
    var all, out := asked + [q], Lookup(quote, db, entries, q);
    assert q in all && forall p :: p in asked ==> p in all;
    if out == Answer(quote, db, q) {
      forall k | k in Stored(quote, db, entries, q)
        ensures exists p :: p in all && KeyOf(p) == k && Stored(quote, db, entries, q)[k] == Answer(quote, db, p)
      {
        if k != KeyOf(q) {
          assert k in entries;
        }
      }
    }
  }

  lemma MoreAskings<S>(quote: Quote<S>, db: map<Address, S>, some: seq<Asking>, more: seq<Asking>)
    ensures Consistent(quote, db, some + more) ==> Consistent(quote, db, some)
  {
    assert forall q :: q in some ==> q in some + more;
  }

  /** One path, over a cache that records consistent askings. */
  lemma {:induction false} PathFreshIff<S>(quote: Quote<S>, db: map<Address, S>, path: SwapPath, amount: Word,
                                           entries: Entries, asked: seq<Asking>)
    requires Tracked(db, path) && Records(quote, db, entries, asked) && Consistent(quote, db, asked)
    ensures var all := asked + Askings(quote, db, path, amount);
            && (AnsweredFreshly(quote, db, path, amount, entries) <==> Consistent(quote, db, all))
            && (Consistent(quote, db, all) ==> Records(quote, db, Calculate(quote, db, path, amount, entries).entries, all))
    decreases |path|
  {
    if path == [] {
      assert asked + [] == asked;
    } else {
      var q := Asking(path[0], amount);
      var out := Answer(quote, db, q);
      assert path[0] in path;
      var rest := if out == 0 then [] else Askings(quote, db, path[1..], out);
      assert asked + ([q] + rest) == (asked + [q]) + rest;
      OneMoreAsking(quote, db, entries, asked, q);
      MoreAskings(quote, db, asked + [q], rest);
      hide Consistent, Records;
      if Lookup(quote, db, entries, q) == out && out != 0 {
        PathFreshIff(quote, db, path[1..], out, Stored(quote, db, entries, q), asked + [q]);
      }
    }
  }

  /**
    A run of the calculator is answered freshly throughout if and only if no key is asked for twice with different
    quotes: by its paths, or by what the cache already records.
  */
  lemma {:induction false} RunFreshIff<S>(quote: Quote<S>, db: map<Address, S>, paths: seq<SwapPath>,
                                          entries: Entries, asked: seq<Asking>)
    requires AllTracked(db, paths) && Records(quote, db, entries, asked) && Consistent(quote, db, asked)
    ensures RunFresh(quote, db, paths, entries) <==> Consistent(quote, db, asked + AllAskings(quote, db, paths))
    decreases |paths|
  {
    if paths == [] {
      assert asked + [] == asked;
    } else {
      assert paths[0] in paths;
      var first, rest := Askings(quote, db, paths[0], AMOUNT), AllAskings(quote, db, paths[1..]);
      assert asked + (first + rest) == (asked + first) + rest;
      PathFreshIff(quote, db, paths[0], AMOUNT, entries, asked);
      MoreAskings(quote, db, asked + first, rest);
      hide Consistent, Records, AnsweredFreshly, Calculate;
      if Consistent(quote, db, asked + first) {
        RunFreshIff(quote, db, paths[1..], Calculate(quote, db, paths[0], AMOUNT, entries).entries, asked + first);
      }
    }
  }

  /** From an empty cache it is a question of the paths alone. */
  lemma {:induction false} EmptyRunFreshIff<S>(quote: Quote<S>, db: map<Address, S>, paths: seq<SwapPath>)
    requires AllTracked(db, paths)
    ensures RunFresh(quote, db, paths, map[]) <==> Consistent(quote, db, AllAskings(quote, db, paths))
  {
    RunFreshIff(quote, db, paths, map[], []);
    assert [] + AllAskings(quote, db, paths) == AllAskings(quote, db, paths);
  }

  // ----- runs in which pools change -----

  /** What the searcher's thread does: pools are written and their entries invalidated, or a path is calculated. */
  datatype Event<S> = Updated(post: map<Address, S>) | Calculated(path: SwapPath)

  ghost predicate EventsTracked<S>(db: map<Address, S>, events: seq<Event<S>>) {
    events != [] ==>
      match events[0]
      case Updated(post) => post.Keys <= db.Keys && EventsTracked(db + post, events[1..])
      case Calculated(path) => Tracked(db, path) && EventsTracked(db, events[1..])
  }

  /** Every lookup of every calculated path is answered freshly. */
  ghost predicate EventsFresh<S>(quote: Quote<S>, db: map<Address, S>, events: seq<Event<S>>, entries: Entries)
    requires EventsTracked(db, events)
  {
    events != [] ==>
      match events[0]
      case Updated(post) => EventsFresh(quote, db + post, events[1..], Without(entries, post.Keys))
      case Calculated(path) =>
        && AnsweredFreshly(quote, db, path, AMOUNT, entries)
        && EventsFresh(quote, db, events[1..], Calculate(quote, db, path, AMOUNT, entries).entries)
  }

  /** What was asked of other pools. */
  function Elsewhere(asked: seq<Asking>, pools: set<Address>): (r: seq<Asking>)
    ensures forall q :: q in r <==> q in asked && q.step.pool !in pools
  {
    if asked == [] then []
    else
      var n := |asked| - 1;
      assert asked == asked[..n] + [asked[n]];
      Elsewhere(asked[..n], pools) + if asked[n].step.pool in pools then [] else [asked[n]]
  }

  /** No path asks for a key with another quote than the key was asked with since its pool was last written. */
  ghost predicate Unspoiled<S>(quote: Quote<S>, db: map<Address, S>, events: seq<Event<S>>, asked: seq<Asking>)
    requires EventsTracked(db, events)
  {
    events != [] ==>
      match events[0]
      case Updated(post) => Unspoiled(quote, db + post, events[1..], Elsewhere(asked, post.Keys))
      case Calculated(path) =>
        var all := asked + Askings(quote, db, path, AMOUNT);
        Consistent(quote, db, all) && Unspoiled(quote, db, events[1..], all)
  }

  /** Writing pools and dropping their entries leaves a record of what was asked of the others. */
  lemma UpdateKeepsRecords<S>(quote: Quote<S>, db: map<Address, S>, post: map<Address, S>, entries: Entries,
                              asked: seq<Asking>)
    requires Records(quote, db, entries, asked) && Consistent(quote, db, asked)
    ensures Records(quote, db + post, Without(entries, post.Keys), Elsewhere(asked, post.Keys))
    ensures Consistent(quote, db + post, Elsewhere(asked, post.Keys))
  {
    forall q: Asking | q.step.pool !in post ensures Answer(quote, db + post, q) == Answer(quote, db, q) {
    }
    hide Answer;
  }

  /**
    The same over any run of updates and calculations: it is answered freshly throughout if and only if no key is asked
    for with two different quotes between two updates of its pool.
  */
  lemma {:induction false} EventsFreshIff<S>(quote: Quote<S>, db: map<Address, S>, events: seq<Event<S>>,
                                             entries: Entries,
                                             asked: seq<Asking>)
    requires EventsTracked(db, events) && Records(quote, db, entries, asked) && Consistent(quote, db, asked)
    ensures EventsFresh(quote, db, events, entries) <==> Unspoiled(quote, db, events, asked)
    decreases |events|
  {
    hide Consistent, Records, AnsweredFreshly, Askings, Calculate;
    if events != [] {
      match events[0]
      case Updated(post) =>
        UpdateKeepsRecords(quote, db, post, entries, asked);
        EventsFreshIff(quote, db + post, events[1..], Without(entries, post.Keys), Elsewhere(asked, post.Keys));
      case Calculated(path) =>
        var all := asked + Askings(quote, db, path, AMOUNT);
        PathFreshIff(quote, db, path, AMOUNT, entries, asked);
        if Consistent(quote, db, all) {
          EventsFreshIff(quote, db, events[1..], Calculate(quote, db, path, AMOUNT, entries).entries, all);
        }
    }
  }

  /** A path answered freshly has its uncached output. */
  lemma {:induction false} FreshLookupsFreshOutput<S>(quote: Quote<S>, db: map<Address, S>, path: SwapPath,
                                                      amount: Word, entries: Entries)
    requires Tracked(db, path) && ZeroYieldsZero(quote, db, path) && AnsweredFreshly(quote, db, path, amount, entries)
    ensures Calculate(quote, db, path, amount, entries).amount == Fresh(quote, db, path, amount)
    decreases |path|
  {
    if path != [] {
      assert path[0] in path;
      var q := Asking(path[0], amount);
      var out := Answer(quote, db, q);
      if out == 0 {
        FreshOfZero(quote, db, path[1..]);
      } else {
        FreshLookupsFreshOutput(quote, db, path[1..], out, Stored(quote, db, entries, q));
      }
    }
  }

  // ----- V2 pools -----

  predicate FromToken0(s: V2State, step: SwapStep) {
    s.token0 == step.tokenIn
  }

  /** What a pool pays, 0 where the program aborts. */
  function Paid(amount: Word, reserveIn: Word, reserveOut: Word, fee: Word): Word {
    match V2Out(amount, reserveIn, reserveOut, fee)
    case None => 0
    case Some(out) => out
  }

  /**
    The two directions of a pool pay alike: nothing is asked, the reserves are equal, or a single unit more than the
    scarcer token pays would be too much of the other.
  */
  predicate SidesMeet(r0: nat, r1: nat, amount: nat, fee: nat) {
    || amount == 0
    || r0 == r1
    || (if r0 < r1 then OneMoreIsTooMuch(r0, r1, amount, fee) else OneMoreIsTooMuch(r1, r0, amount, fee))
  }

  predicate OneMoreIsTooMuch(low: nat, high: nat, amount: nat, fee: nat)
    requires low < high
  {
    PositiveDenominator(amount, high, fee);
    !KeepsProduct(amount, low, high, fee, Share(amount, high, low, fee) + 1)
  }

  lemma ZeroPaid(reserveIn: Word, reserveOut: Word, fee: Word)
    requires reserveIn < RESERVE_BOUND && reserveOut < RESERVE_BOUND && fee <= SCALAR
    ensures Paid(0, reserveIn, reserveOut, fee) == 0
  {
    if reserveIn > 0 {
      ZeroInZeroOut(reserveIn, reserveOut, fee);
    } else {
      OutputValue(0, 0, reserveOut, fee);
    }
  }

  lemma SmallerArithmetic(c: nat, low: nat, high: nat)
    requires low < high && low * SCALAR + c > 0
    ensures 0 <= c * low / (high * SCALAR + c) <= c * high / (low * SCALAR + c)
  {
    var q := c * low / (high * SCALAR + c);
    FloorBounds(c * low, high * SCALAR + c);
    FloorIsGreatest(c * low, high * SCALAR + c, 0);
    MulMono(q, q, low * SCALAR + c, high * SCALAR + c);
    MulMono(c, c, low, high);
    FloorIsGreatest(c * high, low * SCALAR + c, q);
  }

  /** The direction that takes in the scarcer token pays at least as much. */
  lemma SmallerShare(low: nat, high: nat, amount: nat, fee: nat)
    requires low < high && Denominator(amount, low, fee) > 0 && Denominator(amount, high, fee) > 0
    ensures 0 <= Share(amount, high, low, fee) <= Share(amount, low, high, fee)
  {
    hide Share;
    ShareIsQuotient(amount, low, high, fee);
    ShareIsQuotient(amount, high, low, fee);
    SmallerArithmetic(amount * fee, low, high);
  }

  lemma PaidIsShare(amount: Word, reserveIn: Word, reserveOut: Word, fee: Word)
    requires InBounds(amount, reserveIn, reserveOut, fee) && Denominator(amount, reserveIn, fee) > 0
    ensures Paid(amount, reserveIn, reserveOut, fee) == Share(amount, reserveIn, reserveOut, fee)
  {
    hide V2Out, Share, Denominator;
    OutputValue(amount, reserveIn, reserveOut, fee);
  }

  lemma PaysAlikeIff(low: Word, high: Word, amount: Word, fee: Word)
    requires InBounds(amount, low, high, fee) && InBounds(amount, high, low, fee) && low < high && amount > 0 && fee > 0
    ensures OneMoreIsTooMuch(low, high, amount, fee) <==> Paid(amount, low, high, fee) == Paid(amount, high, low, fee)
  {
    PositiveDenominator(amount, high, fee);
    PositiveDenominator(amount, low, fee);
    hide V2Out, Share, Paid, KeepsProduct, InBounds, Denominator;
    PaidIsShare(amount, low, high, fee);
    PaidIsShare(amount, high, low, fee);
    SmallerShare(low, high, amount, fee);
    LargestShare(amount, low, high, fee, Share(amount, high, low, fee) + 1);
  }

  /** That is exactly when they pay alike. */
  lemma SidesMeetIff(r0: Word, r1: Word, amount: Word, fee: Word)
    requires InBounds(amount, r0, r1, fee) && InBounds(amount, r1, r0, fee) && fee > 0
    ensures SidesMeet(r0, r1, amount, fee) <==> Paid(amount, r0, r1, fee) == Paid(amount, r1, r0, fee)
  {
    if amount == 0 {
      ZeroPaid(r0, r1, fee);
      ZeroPaid(r1, r0, fee);
    }
    hide V2Out, Paid, OneMoreIsTooMuch, InBounds;
    if amount > 0 && r0 < r1 {
      PaysAlikeIff(r0, r1, amount, fee);
    } else if amount > 0 && r1 < r0 {
      PaysAlikeIff(r1, r0, amount, fee);
    }
  }

  /** Reserves of which the larger exceeds the smaller by more than one part in the amount, fee taken off. */
  predicate Lopsided(r0: nat, r1: nat, amount: nat, fee: nat) {
    && amount < AMOUNT_BOUND && 0 < r0 < RESERVE_BOUND && 0 < r1 < RESERVE_BOUND && fee <= SCALAR
    && (if r0 < r1 then Apart(amount * fee, r0, r1) else Apart(amount * fee, r1, r0))
  }

  predicate Apart(c: nat, low: nat, high: nat) {
    low < high && c * (high - low) >= high * SCALAR + c
  }

  lemma LopsidedArithmetic(c: nat, low: nat, high: nat)
    requires low > 0 && Apart(c, low, high)
    ensures c * high / (low * SCALAR + c) > c * low / (high * SCALAR + c)
  {
    var q := c * low / (high * SCALAR + c);
    FloorBounds(c * low, high * SCALAR + c);
    FloorIsGreatest(c * low, high * SCALAR + c, 0);
    MulMono(q + 1, q + 1, low * SCALAR + c, high * SCALAR + c);
    assert c * high == c * low + c * (high - low);
    assert (q + 1) * (high * SCALAR + c) == q * (high * SCALAR + c) + (high * SCALAR + c);
    FloorIsGreatest(c * high, low * SCALAR + c, q + 1);
  }

  lemma LopsidedQuotients(r0: nat, r1: nat, amount: nat, fee: nat)
    requires Lopsided(r0, r1, amount, fee)
    ensures Denominator(amount, r0, fee) > 0 && Denominator(amount, r1, fee) > 0
    ensures Share(amount, r0, r1, fee) != Share(amount, r1, r0, fee)
  {
    PositiveDenominator(amount, r0, fee);
    PositiveDenominator(amount, r1, fee);
    ShareIsQuotient(amount, r0, r1, fee);
    ShareIsQuotient(amount, r1, r0, fee);
    hide Share;
    hide Apart;
    if r0 < r1 {
      LopsidedArithmetic(amount * fee, r0, r1);
    } else {
      LopsidedArithmetic(amount * fee, r1, r0);
    }
  }

  /** Lopsided reserves never meet: the two directions have different outputs. */
  lemma LopsidedDiffers(r0: Word, r1: Word, amount: Word, fee: Word)
    requires Lopsided(r0, r1, amount, fee)
    ensures V2Out(amount, r0, r1, fee).Some? && V2Out(amount, r1, r0, fee).Some?
    ensures V2Out(amount, r0, r1, fee) != V2Out(amount, r1, r0, fee) && !SidesMeet(r0, r1, amount, fee)
  {
    LopsidedQuotients(r0, r1, amount, fee);
    assert fee > 0 by {
      assert amount * 0 == 0;
    }
    assert InBounds(amount, r0, r1, fee) && InBounds(amount, r1, r0, fee);
    hide V2Out, Lopsided, InBounds, SidesMeet, Share, Denominator;
    OutputValue(amount, r0, r1, fee);
    OutputValue(amount, r1, r0, fee);
    SidesMeetIff(r0, r1, amount, fee);
  }

  /** One key, asked for from both sides of the pool. */
  predicate TwoSided(db: map<Address, V2State>, p: Asking, q: Asking) {
    && KeyOf(p) == KeyOf(q) && p.step.pool in db
    && FromToken0(db[p.step.pool], p.step) != FromToken0(db[p.step.pool], q.step)
  }

  /** The pool of the step pays alike in both directions; of no other protocol does the formula pay anything. */
  predicate MeetsFor(db: map<Address, V2State>, q: Asking) {
    q.step.pool in db &&
    match V2Fee(q.step.protocol)
    case None => true
    case Some(fee) => SidesMeet(db[q.step.pool].reserve0, db[q.step.pool].reserve1, q.amount, fee)
  }

  /** Reserves have 112 bits. */
  predicate ReservesFit(db: map<Address, V2State>) {
    forall a :: a in db ==> db[a].reserve0 < RESERVE_BOUND && db[a].reserve1 < RESERVE_BOUND
  }

  /** A pool has one protocol. */
  ghost predicate OneProtocol(asked: seq<Asking>) {
    forall p, q :: p in asked && q in asked && p.step.pool == q.step.pool ==> p.step.protocol == q.step.protocol
  }

  ghost predicate Bounded(asked: seq<Asking>) {
    forall q :: q in asked ==> q.amount < AMOUNT_BOUND
  }

  lemma PaidIsBounded(amount: Word, reserveIn: Word, reserveOut: Word, fee: Word)
    requires InBounds(amount, reserveIn, reserveOut, fee)
    ensures Paid(amount, reserveIn, reserveOut, fee) < AMOUNT_BOUND
  {
    hide V2Out;
    if V2Out(amount, reserveIn, reserveOut, fee).Some? {
      OutputBounds(amount, reserveIn, reserveOut, fee);
    }
  }

  lemma QuoteIsBounded(s: V2State, step: SwapStep, amount: Word)
    requires s.reserve0 < RESERVE_BOUND && s.reserve1 < RESERVE_BOUND && amount < AMOUNT_BOUND
    ensures V2Quote(s, step, amount) < AMOUNT_BOUND
  {
    hide V2Out;
    var fee := V2Fee(step.protocol);
    if fee.Some? {
      PaidIsBounded(amount, s.reserve0, s.reserve1, fee.value);
      PaidIsBounded(amount, s.reserve1, s.reserve0, fee.value);
    }
  }

  lemma {:induction false} AskingsBounded(db: map<Address, V2State>, path: SwapPath, amount: Word)
    requires Tracked(db, path) && ReservesFit(db) && amount < AMOUNT_BOUND
    ensures Bounded(Askings(V2Quote, db, path, amount))
    decreases |path|
  {
    hide V2Quote;
    if path != [] {
      assert path[0] in path;
      QuoteIsBounded(db[path[0].pool], path[0], amount);
      AskingsBounded(db, path[1..], V2Quote(db[path[0].pool], path[0], amount));
    }
  }

  lemma {:induction false} AllAskingsBounded(db: map<Address, V2State>, paths: seq<SwapPath>)
    requires AllTracked(db, paths) && ReservesFit(db)
    ensures Bounded(AllAskings(V2Quote, db, paths))
  {
    hide V2Quote, Askings;
    if paths != [] {
      assert paths[0] in paths;
      AskingsBounded(db, paths[0], AMOUNT);
      AllAskingsBounded(db, paths[1..]);
    }
  }

  lemma AnswersAlike(db: map<Address, V2State>, p: Asking, q: Asking)
    requires ReservesFit(db) && p.amount < AMOUNT_BOUND
    requires p.step.pool == q.step.pool ==> p.step.protocol == q.step.protocol
    ensures KeyOf(p) == KeyOf(q) && Answer(V2Quote, db, p) != Answer(V2Quote, db, q)
            <==> TwoSided(db, p, q) && !MeetsFor(db, p)
  {
    hide V2Out, SidesMeet;
    if TwoSided(db, p, q) && V2Fee(p.step.protocol).Some? {
      var s := db[p.step.pool];
      SidesMeetIff(s.reserve0, s.reserve1, p.amount, V2Fee(p.step.protocol).value);
    }
  }

  /** Every pool asked from both sides with one amount pays alike in both directions. */
  ghost predicate MeetWhereTwoSided(db: map<Address, V2State>, asked: seq<Asking>) {
    forall p, q :: p in asked && q in asked && TwoSided(db, p, q) ==> MeetsFor(db, p)
  }

  lemma ConsistentIffMeet(db: map<Address, V2State>, asked: seq<Asking>)
    requires ReservesFit(db) && OneProtocol(asked) && Bounded(asked)
    ensures Consistent(V2Quote, db, asked) <==> MeetWhereTwoSided(db, asked)
  {
    hide V2Quote, MeetsFor, Answer, TwoSided, KeyOf, ReservesFit;
    forall p, q | p in asked && q in asked
      ensures KeyOf(p) == KeyOf(q) && Answer(V2Quote, db, p) != Answer(V2Quote, db, q)
              <==> TwoSided(db, p, q) && !MeetsFor(db, p)
    {
      AnswersAlike(db, p, q);
    }
  }

  /**
    The condition for V2 pools, which can be read off the cycles and the reserves: a run from an empty cache is answered
    freshly throughout if and only if every pool asked from both sides with one amount pays alike in both directions.
  */
  lemma {:induction false} V2RunFreshIff(db: map<Address, V2State>, paths: seq<SwapPath>)
    requires AllTracked(db, paths) && ReservesFit(db) && OneProtocol(AllAskings(V2Quote, db, paths))
    ensures RunFresh(V2Quote, db, paths, map[]) <==> MeetWhereTwoSided(db, AllAskings(V2Quote, db, paths))
  {
    hide V2Quote, RunFresh, Consistent, MeetWhereTwoSided, AllAskings, OneProtocol, Bounded, ReservesFit;
    AllAskingsBounded(db, paths);
    EmptyRunFreshIff(V2Quote, db, paths);
    ConsistentIffMeet(db, AllAskings(V2Quote, db, paths));
  }

  // ----- a profit that the cache hides -----

  const WETH: Address := 1
  const TOKEN: Address := 2
  const FIRST_POOL: Address := 3
  const SECOND_POOL: Address := 4

  /** In the first pool the calculator's amount of WETH buys that same amount of the token; the second has two tokens for each WETH. */
  function TwoPools(): map<Address, V2State> {
    map[FIRST_POOL := V2State(WETH, 997_000_000_000_000_000_000, 1_000_001_000_000_000_000_000),
        SECOND_POOL := V2State(WETH, 1_000_000_000_000_000_000_000, 2_000_000_000_000_000_000_000)]
  }

  function Step(pool: Address, tokenIn: Address): SwapStep {
    SwapStep(pool, tokenIn, if tokenIn == WETH then TOKEN else WETH, if pool == FIRST_POOL then UniswapV2 else PancakeSwapV2, 0)
  }

  function Cycle(pool: Address, back: Address): SwapPath {
    [Step(pool, WETH), Step(back, TOKEN)]
  }

  lemma OutQuotient(amount: Word, reserveIn: Word, reserveOut: Word, fee: Word, c: nat, n: nat, d: nat)
    requires InBounds(amount, reserveIn, reserveOut, fee)
    requires c == amount * fee && n == c * reserveOut && d == reserveIn * SCALAR + c && d > 0
    ensures V2Out(amount, reserveIn, reserveOut, fee) == Some(n / d)
  {
    ShareIsQuotient(amount, reserveIn, reserveOut, fee);
    hide V2Out, Share;
    OutputValue(amount, reserveIn, reserveOut, fee);
  }

  lemma FirstPoolForth()
    ensures V2Out(1_000_000_000_000_000, 997_000_000_000_000_000_000, 1_000_001_000_000_000_000_000, 9970) == Some(1_000_000_000_000_000)
  {
    hide V2Out;
    OutQuotient(1_000_000_000_000_000, 997_000_000_000_000_000_000, 1_000_001_000_000_000_000_000, 9970,
                9_970_000_000_000_000_000, 9_970_009_970_000_000_000_000_000_000_000_000_000_000, 9_970_009_970_000_000_000_000_000);
    QuotientExact(9_970_009_970_000_000_000_000_000_000_000_000_000_000, 9_970_009_970_000_000_000_000_000, 1_000_000_000_000_000);
  }

  lemma SecondPoolBack()
    ensures V2Out(1_000_000_000_000_000, 2_000_000_000_000_000_000_000, 1_000_000_000_000_000_000_000, 9975) == Some(498_749_751_248_561)
  {
    hide V2Out;
    OutQuotient(1_000_000_000_000_000, 2_000_000_000_000_000_000_000, 1_000_000_000_000_000_000_000, 9975,
                9_975_000_000_000_000_000, 9_975_000_000_000_000_000_000_000_000_000_000_000_000, 20_000_009_975_000_000_000_000_000);
    QuotientExact(9_975_000_000_000_000_000_000_000_000_000_000_000_000, 20_000_009_975_000_000_000_000_000, 498_749_751_248_561);
  }

  lemma SecondPoolForth()
    ensures V2Out(1_000_000_000_000_000, 1_000_000_000_000_000_000_000, 2_000_000_000_000_000_000_000, 9975) == Some(1_994_998_009_989_485)
  {
    hide V2Out;
    OutQuotient(1_000_000_000_000_000, 1_000_000_000_000_000_000_000, 2_000_000_000_000_000_000_000, 9975,
                9_975_000_000_000_000_000, 19_950_000_000_000_000_000_000_000_000_000_000_000_000, 10_000_009_975_000_000_000_000_000);
    QuotientExact(19_950_000_000_000_000_000_000_000_000_000_000_000_000, 10_000_009_975_000_000_000_000_000, 1_994_998_009_989_485);
  }

  lemma FirstPoolBack()
    ensures V2Out(1_994_998_009_989_485, 1_000_001_000_000_000_000_000, 997_000_000_000_000_000_000, 9970) == Some(1_983_040_049_579_118)
  {
    hide V2Out;
    OutQuotient(1_994_998_009_989_485, 1_000_001_000_000_000_000_000, 997_000_000_000_000_000_000, 9970,
                19_890_130_159_595_165_450, 19_830_459_769_116_379_953_650_000_000_000_000_000_000, 10_000_029_890_130_159_595_165_450);
    QuotientExact(19_830_459_769_116_379_953_650_000_000_000_000_000_000, 10_000_029_890_130_159_595_165_450, 1_983_040_049_579_118);
  }

  lemma FirstPoolBackLess()
    ensures V2Out(498_749_751_248_561, 1_000_001_000_000_000_000_000, 997_000_000_000_000_000_000, 9970) == Some(495_760_999_208_938)
  {
    hide V2Out;
    OutQuotient(498_749_751_248_561, 1_000_001_000_000_000_000_000, 997_000_000_000_000_000_000, 9970,
                4_972_535_019_948_153_170, 4_957_617_414_888_308_710_490_000_000_000_000_000_000, 10_000_014_972_535_019_948_153_170);
    QuotientExact(4_957_617_414_888_308_710_490_000_000_000_000_000_000, 10_000_014_972_535_019_948_153_170, 495_760_999_208_938);
  }

  /** The five quotes that the two cycles meet. */
  lemma Quotes()
    ensures V2Quote(TwoPools()[FIRST_POOL], Step(FIRST_POOL, WETH), AMOUNT) == AMOUNT
    ensures V2Quote(TwoPools()[SECOND_POOL], Step(SECOND_POOL, TOKEN), AMOUNT) == 498_749_751_248_561
    ensures V2Quote(TwoPools()[SECOND_POOL], Step(SECOND_POOL, WETH), AMOUNT) == 1_994_998_009_989_485
    ensures V2Quote(TwoPools()[FIRST_POOL], Step(FIRST_POOL, TOKEN), 1_994_998_009_989_485) == 1_983_040_049_579_118
    ensures V2Quote(TwoPools()[FIRST_POOL], Step(FIRST_POOL, TOKEN), 498_749_751_248_561) == 495_760_999_208_938
  {
    hide V2Out;
    FirstPoolForth();
    FirstPoolBack();
    SecondPoolForth();
    SecondPoolBack();
    FirstPoolBackLess();
  }

  lemma {:induction false} CalculateHop(db: map<Address, V2State>, path: SwapPath, amount: Word, entries: Entries,
                                        out: Word)
    requires Tracked(db, path) && path != [] && out != 0
    requires out == Lookup(V2Quote, db, entries, Asking(path[0], amount))
    ensures Calculate(V2Quote, db, path, amount, entries)
         == Calculate(V2Quote, db, path[1..], out, Stored(V2Quote, db, entries, Asking(path[0], amount)))
  {
    hide V2Quote;
    assert path[0] in path;
  }

  lemma FreshHop(db: map<Address, V2State>, path: SwapPath, amount: Word)
    requires Tracked(db, path) && path != []
    ensures Fresh(V2Quote, db, path, amount) == Fresh(V2Quote, db, path[1..], Answer(V2Quote, db, Asking(path[0], amount)))
  {
    hide V2Quote;
    assert path[0] in path;
  }

  /**
    After the first cycle the second is answered from its entry for the second pool, which is for the other direction:
    the cycle nearly doubles its input, and the cache says that it halves it.
  */
  lemma CacheHidesProfit()
    ensures var (first, second) := (Cycle(FIRST_POOL, SECOND_POOL), Cycle(SECOND_POOL, FIRST_POOL));
            && AllTracked(TwoPools(), [first, second])
            && Tracked(TwoPools(), first) && Tracked(TwoPools(), second)
            && !RunFresh(V2Quote, TwoPools(), [first, second], map[])
            && var entries := Calculate(V2Quote, TwoPools(), first, AMOUNT, map[]).entries;
               Calculate(V2Quote, TwoPools(), second, AMOUNT, entries).amount < AMOUNT < Fresh(V2Quote, TwoPools(), second, AMOUNT)
  {
    Quotes();
    hide V2Quote;
    var db, first, second := TwoPools(), Cycle(FIRST_POOL, SECOND_POOL), Cycle(SECOND_POOL, FIRST_POOL);
    var e0: Entries := map[];
    CalculateHop(db, first, AMOUNT, e0, AMOUNT);
    var e1 := Stored(V2Quote, db, e0, Asking(first[0], AMOUNT));
    CalculateHop(db, first[1..], AMOUNT, e1, 498_749_751_248_561);
    var e2 := Stored(V2Quote, db, e1, Asking(first[1], AMOUNT));
    assert first[1..][1..] == [];
    CalculateHop(db, second, AMOUNT, e2, 498_749_751_248_561);
    var e3 := Stored(V2Quote, db, e2, Asking(second[0], AMOUNT));
    CalculateHop(db, second[1..], 498_749_751_248_561, e3, 495_760_999_208_938);
    assert second[1..][1..] == [];
    FreshHop(db, second, AMOUNT);
    FreshHop(db, second[1..], 1_994_998_009_989_485);
    assert [first, second][1..] == [second];
    assert !AnsweredFreshly(V2Quote, db, second, AMOUNT, e2);
  }
}
