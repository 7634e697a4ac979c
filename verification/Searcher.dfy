/**
  The searcher: an inverted index from pools to the cycles that trade them, and the search that a message about
  touched pools sets off.  The estimator's answers are arbitrary.
*/
module Searcher {
  import opened Calculators
  import opened Outcomes
  import opened Swaps
  import opened U256

  predicate Trades(path: SwapPath, pool: Address) {
    exists s :: s in path && s.pool == pool
  }

  /** The cycles to look at again after the pools changed, by brute force. */
  predicate Affected(cycles: seq<SwapPath>, touched: set<Address>, path: SwapPath) {
    path in cycles && exists s :: s in path && s.pool in touched
  }

  // ----- the inverted index -----

  /** Position `k` of the list of cycles, once for each step of `path` that trades the pool. */
  function Mentions(path: SwapPath, k: nat, pool: Address): (r: seq<nat>)
    ensures forall i: nat :: i in r <==> i == k && Trades(path, pool)
  {
    if path == [] then []
    else
      var n := |path| - 1;
      assert path == path[..n] + [path[n]];
      Mentions(path[..n], k, pool) + if path[n].pool == pool then [k] else []
  }

  /** The positions of the cycles that trade the pool. */
  function Occurrences(cycles: seq<SwapPath>, pool: Address): (r: seq<nat>)
    ensures forall i: nat :: i in r <==> i < |cycles| && Trades(cycles[i], pool)
  {
    if cycles == [] then []
    else
      var n := |cycles| - 1;
      assert forall i :: 0 <= i < n ==> cycles[..n][i] == cycles[i];
      Occurrences(cycles[..n], pool) + Mentions(cycles[n], n, pool)
  }

  type Index = map<Address, seq<nat>>

  function At(index: Index, pool: Address): seq<nat> {
    if pool in index then index[pool] else []
  }

  ghost predicate Indexes(index: Index, cycles: seq<SwapPath>) {
    && (forall p :: At(index, p) == Occurrences(cycles, p))
    && (forall p :: p in index ==> index[p] != [])
  }

  ghost predicate Extends(index: Index, index': Index, path: SwapPath, k: nat) {
    && (forall p :: At(index', p) == At(index, p) + Mentions(path, k, p))
    && ((forall p :: p in index ==> index[p] != []) ==> forall p :: p in index' ==> index'[p] != [])
  }

  lemma ExtendByStep(index: Index, mid: Index, path: SwapPath, k: nat, i: nat)
    requires i < |path| && Extends(index, mid, path[..i], k)
    ensures Extends(index, mid[path[i].pool := At(mid, path[i].pool) + [k]], path[..i + 1], k)
  {
    hide Mentions;
    var index' := mid[path[i].pool := At(mid, path[i].pool) + [k]];
    forall p ensures At(index', p) == At(index, p) + Mentions(path[..i + 1], k, p) {
      ExtendsAt(index, mid, path, k, i, p);
    }
  }

  lemma {:induction false} ExtendsAt(index: Index, mid: Index, path: SwapPath, k: nat, i: nat, pool: Address)
    requires i < |path| && At(mid, pool) == At(index, pool) + Mentions(path[..i], k, pool)
    ensures At(mid[path[i].pool := At(mid, path[i].pool) + [k]], pool) == At(index, pool) + Mentions(path[..i + 1], k, pool)
  {
    hide Mentions;
    MentionsNext(path, k, i, pool);
  }

  lemma {:induction false} MentionsNext(path: SwapPath, k: nat, i: nat, pool: Address)
    requires i < |path|
    ensures Mentions(path[..i + 1], k, pool) == Mentions(path[..i], k, pool) + if path[i].pool == pool then [k] else []
  {
    assert path[..i + 1][..i] == path[..i];
  }

  method IndexPath(index: Index, path: SwapPath, k: nat) returns (index': Index)
    ensures Extends(index, index', path, k)
  {
    index' := index;
    for i := 0 to |path|
      invariant Extends(index, index', path[..i], k)
    {
      ExtendByStep(index, index', path, k, i);
      index' := index'[path[i].pool := At(index', path[i].pool) + [k]];
    }
    assert path[..|path|] == path;
  }

  method BuildIndex(cycles: seq<SwapPath>) returns (index: Index)
    ensures Indexes(index, cycles)
  {
    index := map[];
    for k := 0 to |cycles|
      invariant Indexes(index, cycles[..k])
    {
      assert cycles[..k + 1][..k] == cycles[..k];
      index := IndexPath(index, cycles[k], k);
    }
    assert cycles[..|cycles|] == cycles;
  }

  // ----- the search -----

  const PREMIUM: Word := AMOUNT * 9 / 10_000
  const MARGIN: Word := AMOUNT / 100
  const ESTIMATE_LIMIT: Word := 1_000_000_000_000_000_000

  lemma ShareIsExact(amount: Word, share: Word, whole: Word)
    requires amount * share < MODULUS && whole != 0
    ensures Div(Mul(amount, share), whole) == amount * share / whole
  {
    MulExact(amount, share);
    DivIsFloor(amount * share, whole);
  }

  datatype ArbPath = ArbPath(path: SwapPath, amount: Word, block: nat)

  datatype Message = Message(pools: set<Address>, block: nat)

  type Estimate = SwapPath -> Word

  predicate Plausible(estimate: Estimate, minProfit: Word, path: SwapPath) {
    minProfit <= estimate(path) < ESTIMATE_LIMIT
  }

  /** The path has the highest estimate among the affected paths whose estimate is plausible. */
  ghost predicate IsBest(cycles: seq<SwapPath>, pools: set<Address>, estimate: Estimate, minProfit: Word,
                         best: SwapPath) {
    && Affected(cycles, pools, best) && Plausible(estimate, minProfit, best)
    && forall path :: Affected(cycles, pools, path) && Plausible(estimate, minProfit, path) ==> estimate(path) <= estimate(best)
  }

  /** What a message leads to: its pools leave the cache, and a best path, if any, is calculated and maybe sent. */
  ghost predicate Searched<S>(quote: Quote<S>, db: map<Address, S>, cycles: seq<SwapPath>, minProfit: Word,
                              message: Message,
                              estimate: Estimate, before: Entries, after: Entries, sent: Option<ArbPath>)
    requires forall path :: path in cycles ==> Tracked(db, path)
  {
    var cleared := Without(before, message.pools);
    if exists path :: IsBest(cycles, message.pools, estimate, minProfit, path) then
      exists best :: IsBest(cycles, message.pools, estimate, minProfit, best)
        && var c := Calculate(quote, db, best, AMOUNT, cleared);
           after == c.entries && sent == if c.amount >= minProfit then Some(ArbPath(best, c.amount, message.block)) else None
    else after == cleared && sent == None
  }

  /** Only entries of the given pools may be out of date. */
  ghost predicate CurrentBut<S>(quote: Quote<S>, asker: Askers, db: map<Address, S>, entries: Entries,
                                pools: set<Address>) {
    Current(quote, asker, db, Without(entries, pools))
  }

  /** The assumptions of the cache about every cycle. */
  ghost predicate Sound<S>(quote: Quote<S>, asker: Askers, db: map<Address, S>, cycles: seq<SwapPath>) {
    forall path :: path in cycles ==>
      Tracked(db, path) && PathAskedAlike(quote, asker, db, path, AMOUNT) && ZeroYieldsZero(quote, db, path)
  }

  /** A sent path really yields the sent amount now. */
  ghost predicate Genuine<S>(quote: Quote<S>, db: map<Address, S>, cycles: seq<SwapPath>, minProfit: Word,
                             message: Message, sent: ArbPath) {
    && Affected(cycles, message.pools, sent.path) && Tracked(db, sent.path)
    && sent.amount == Fresh(quote, db, sent.path, AMOUNT) >= minProfit
    && sent.block == message.block
  }

  ghost predicate Honest<S>(quote: Quote<S>, db: map<Address, S>, cycles: seq<SwapPath>, minProfit: Word,
                            message: Message, sent: Option<ArbPath>) {
    sent.Some? ==> Genuine(quote, db, cycles, minProfit, message, sent.value)
  }

  ghost predicate AlwaysSound<S>(quote: Quote<S>, asker: Askers, views: seq<map<Address, S>>, cycles: seq<SwapPath>) {
    forall k :: 0 <= k < |views| ==> Sound(quote, asker, views[k], cycles)
  }

  /** If the message names every pool whose entries are out of date, then what is sent is genuine. */
  lemma SentIsGenuine<S>(quote: Quote<S>, asker: Askers, db: map<Address, S>, cycles: seq<SwapPath>, minProfit: Word,
                         message: Message, estimate: Estimate, before: Entries, after: Entries, sent: Option<ArbPath>)
    requires Sound(quote, asker, db, cycles) && CurrentBut(quote, asker, db, before, message.pools)
    requires Searched(quote, db, cycles, minProfit, message, estimate, before, after, sent)
    ensures Current(quote, asker, db, after)
    ensures Honest(quote, db, cycles, minProfit, message, sent)
  {
    var cleared := Without(before, message.pools);
    if exists path :: IsBest(cycles, message.pools, estimate, minProfit, path) {
      var best :| IsBest(cycles, message.pools, estimate, minProfit, best)
        && var c := Calculate(quote, db, best, AMOUNT, cleared);
           after == c.entries && sent == if c.amount >= minProfit then Some(ArbPath(best, c.amount, message.block)) else None;
      CachedIsFresh(quote, asker, db, best, AMOUNT, cleared);
    }
  }

  /** The database as each message is searched differs from the one before only in the pools of the message. */
  ghost predicate Announced<S>(views: seq<map<Address, S>>, messages: seq<Message>)
    requires |views| == |messages|
  {
    forall k, p :: 0 < k < |views| && p in views[k - 1] && p !in messages[k].pools ==>
      p in views[k] && views[k][p] == views[k - 1][p]
  }

  /** The cache before message `k` is searched. */
  ghost predicate Ready<S>(quote: Quote<S>, asker: Askers, views: seq<map<Address, S>>, k: nat, entries: Entries)
    requires k <= |views|
  {
    if k == 0 then entries == map[] else Current(quote, asker, views[k - 1], entries)
  }

  lemma UnannouncedStays<S>(quote: Quote<S>, asker: Askers, views: seq<map<Address, S>>, messages: seq<Message>,
                            k: nat, entries: Entries)
    requires |views| == |messages| && Announced(views, messages) && k < |views|
    requires Ready(quote, asker, views, k, entries)
    ensures CurrentBut(quote, asker, views[k], entries, messages[k].pools)
  {
  }

  class Searchoor<!S> {
    const calculator: Calculator<S>
    const pathIndex: Index
    const cycles: seq<SwapPath>
    const minProfit: Word

    ghost predicate Valid() {
      Indexes(pathIndex, cycles) && minProfit == AMOUNT + PREMIUM + MARGIN
    }

    constructor (cycles: seq<SwapPath>, quote: Quote<S>)
      ensures Valid() && this.cycles == cycles && calculator.quote == quote
      ensures fresh(calculator.cache) && calculator.cache.entries == map[]
    {
      var c := new Calculator<S>(quote);
      ShareIsExact(AMOUNT, 9, 10_000);
      ShareIsExact(AMOUNT, 1, 100);
      var index := BuildIndex(cycles);
      var flashLoanFee := Div(Mul(AMOUNT, 9), 10_000);
      var repaymentAmount := Add(AMOUNT, flashLoanFee);
      var minProfitPercentage := Div(Mul(AMOUNT, 1), 100);
      calculator := c;
      this.cycles := cycles;
      pathIndex := index;
      minProfit := Add(repaymentAmount, minProfitPercentage);
    }

    /** Through the index: exactly the affected cycles. */
    method AffectedPaths(pools: set<Address>) returns (affected: set<SwapPath>)
      requires Valid()
      ensures forall path :: path in affected <==> Affected(cycles, pools, path)
    {
      affected := {};
      var left := pools;
      while left != {}
        invariant left <= pools
        invariant forall path :: path in affected <==> Affected(cycles, pools - left, path)
        decreases |left|
      {
        var pool :| pool in left;
        var positions := At(pathIndex, pool);
        assert forall k: nat :: k in positions <==> k < |cycles| && Trades(cycles[k], pool);
        affected := affected + set k: nat | k in positions :: cycles[k];
        left := left - {pool};
      }
      assert pools - left == pools;
    }

    /** The paths with a plausible estimate, and the best of them. */
    method PickBest(affected: set<SwapPath>, estimate: Estimate) returns (best: Option<SwapPath>)
      ensures best.None? ==> forall path :: path in affected ==> !Plausible(estimate, minProfit, path)
      ensures best.Some? ==>
        (&& best.value in affected && Plausible(estimate, minProfit, best.value)
         && forall path :: path in affected && Plausible(estimate, minProfit, path) ==> estimate(path) <= estimate(best.value))
    {
      var left := set path | path in affected && Plausible(estimate, minProfit, path);
      ghost var profitable := left;
      best := None;
      while left != {}
        invariant left <= profitable
        invariant best.None? ==> left == profitable
        invariant best.Some? ==>
          (best.value in profitable && forall path :: path in profitable - left ==> estimate(path) <= estimate(best.value))
        decreases |left|
      {
        var path :| path in left;
        if best.None? || estimate(best.value) <= estimate(path) {
          best := Some(path);
        }
        left := left - {path};
      }
      assert forall path :: path in affected && Plausible(estimate, minProfit, path) ==> path in profitable;
    }

    method SearchMessage(db: map<Address, S>, message: Message, estimate: Estimate) returns (sent: Option<ArbPath>)
      requires Valid() && forall path :: path in cycles ==> Tracked(db, path)
      modifies calculator.cache
      ensures Searched(calculator.quote, db, cycles, minProfit, message, estimate,
                       old(calculator.cache.entries), calculator.cache.entries, sent)
    {
      calculator.InvalidateCache(message.pools);
      var affected := AffectedPaths(message.pools);
      var best := PickBest(affected, estimate);
      sent := None;
      if best.Some? {
        assert IsBest(cycles, message.pools, estimate, minProfit, best.value);
        var calculatedOut := calculator.CalculateOutput(db, best.value);
        if calculatedOut >= minProfit {
          sent := Some(ArbPath(best.value, calculatedOut, message.block));
        }
      }
    }

    /**
      The receive loop over any messages, each searched against the database of its moment.  When every change is
      announced, every path ever sent is genuine.
    */
    method SearchPaths(messages: seq<Message>, views: seq<map<Address, S>>, estimates: seq<Estimate>,
                       ghost asker: Askers)
      returns (sent: seq<Option<ArbPath>>)
      requires Valid() && |views| == |estimates| == |messages|
      requires forall k, path :: 0 <= k < |views| && path in cycles ==> Tracked(views[k], path)
      requires calculator.cache.entries == map[]
      modifies calculator.cache
      ensures |sent| == |messages|
      ensures Announced(views, messages) && AlwaysSound(calculator.quote, asker, views, cycles)
        ==> forall k :: 0 <= k < |sent| ==> Honest(calculator.quote, views[k], cycles, minProfit, messages[k], sent[k])
    {
      sent := [];
      for k := 0 to |messages|
        invariant |sent| == k
        invariant Announced(views, messages) && AlwaysSound(calculator.quote, asker, views, cycles)
          ==> && Ready(calculator.quote, asker, views, k, calculator.cache.entries)
              && forall j :: 0 <= j < k ==> Honest(calculator.quote, views[j], cycles, minProfit, messages[j], sent[j])
      {
        ghost var before := calculator.cache.entries;
        var s := SearchMessage(views[k], messages[k], estimates[k]);
        if Announced(views, messages) && AlwaysSound(calculator.quote, asker, views, cycles) {
          UnannouncedStays(calculator.quote, asker, views, messages, k, before);
          SentIsGenuine(calculator.quote, asker, views[k], cycles, minProfit, messages[k], estimates[k],
                        before, calculator.cache.entries, s);
        }
        sent := sent + [s];
      }
    }
  }
}
