/**
  The calculator off chain and the contracts on chain evaluate a path alike: the path is compressed to its pools,
  the contracts recover each step, and their amounts are the calculator's.  The pools are V2.
*/
module PathAgreement {
  import opened Calculators
  import opened ConstantProduct
  import opened FlashContracts
  import opened Ledger
  import opened Outcomes
  import opened Searcher
  import opened Swaps
  import opened TokenLedger
  import opened U256

  // ----- compression -----

  function PoolsOf(path: SwapPath): (pools: seq<Address>)
    ensures |pools| == |path| && forall i :: 0 <= i < |path| ==> pools[i] == path[i].pool
  {
    seq(|path|, i requires 0 <= i < |path| => path[i].pool)
  }

  function VersionsOf(path: SwapPath): (versions: seq<nat>)
    ensures |versions| == |path|
  {
    seq(|path|, i requires 0 <= i < |path| => if path[i].protocol.IsV3() then 1 else 0)
  }

  function ParamsOf(path: SwapPath): SwapParams {
    SwapParams(PoolsOf(path), VersionsOf(path), AMOUNT)
  }

  method Compress(path: SwapPath) returns (params: SwapParams)
    ensures params == ParamsOf(path)
  {
    var pools: seq<Address>, protocol: seq<nat> := [], [];
    for i := 0 to |path|
      invariant pools == PoolsOf(path)[..i] && protocol == VersionsOf(path)[..i]
    {
      pools := pools + [path[i].pool];
      if path[i].protocol.IsV3() {
        protocol := protocol + [1];
      } else {
        protocol := protocol + [0];
      }
    }
    params := SwapParams(pools, protocol, AMOUNT);
  }

  /** Each step trades the two tokens of its pool, and takes what the step before gave. */
  predicate PathOver(pairs: map<Address, Pair>, path: SwapPath, token: Address, end: Address)
    decreases |path|
  {
    if path == [] then token == end
    else
      && path[0].pool in pairs && path[0].tokenIn == token
      && var p := pairs[path[0].pool];
         p.token0 != p.token1
         && ((token == p.token0 && path[0].tokenOut == p.token1) || (token == p.token1 && path[0].tokenOut == p.token0))
         && PathOver(pairs, path[1..], path[0].tokenOut, end)
  }

  /** What the contracts make of the pools alone: the tokens of each hop, and whether it goes from token 0. */
  datatype Trade = Trade(tokenIn: Address, tokenOut: Address, zeroForOne: bool)

  function TradeOf(p: Pair, s: SwapStep): Trade {
    Trade(s.tokenIn, s.tokenOut, s.tokenIn == p.token0)
  }

  function Recovered(pairs: map<Address, Pair>, pools: seq<Address>, token: Address): seq<Trade>
    decreases |pools|
  {
    if pools == [] || pools[0] !in pairs then []
    else
      var p := pairs[pools[0]];
      var zeroForOne := token == p.token0;
      var next := TokenOut(p, zeroForOne);
      [Trade(TokenIn(p, zeroForOne), next, zeroForOne)] + Recovered(pairs, pools[1..], next)
  }

  /** Compression loses nothing: every step's tokens and direction are recovered. */
  lemma {:induction false} CompressionIsLossless(pairs: map<Address, Pair>, path: SwapPath, token: Address,
                                                 end: Address)
    requires PathOver(pairs, path, token, end)
    ensures Chained(pairs, PoolsOf(path), token, end)
    ensures var trades := Recovered(pairs, PoolsOf(path), token);
            |trades| == |path|
            && forall i :: 0 <= i < |path| ==> path[i].pool in pairs && trades[i] == TradeOf(pairs[path[i].pool], path[i])
    decreases |path|
  {
    if path != [] {
      assert PoolsOf(path)[1..] == PoolsOf(path[1..]);
      CompressionIsLossless(pairs, path[1..], path[0].tokenOut, end);
      var trades := Recovered(pairs, PoolsOf(path), token);
      forall i | 0 <= i < |path|
        ensures path[i].pool in pairs && trades[i] == TradeOf(pairs[path[i].pool], path[i])
      {
        if i > 0 {
          assert path[i] == path[1..][i - 1];
        }
      }
    }
  }

  // ----- the calculator on V2 pools -----

  function V2Fee(protocol: PoolType): Option<Word> {
    match protocol
    case UniswapV2 | SushiSwapV2 | SwapBasedV2 => Some(9970)
    case PancakeSwapV2 | BaseSwapV2 | DackieSwapV2 => Some(9975)
    case AlienBaseV2 => Some(9984)
    case _ => None
  }

  /** What the database holds of a V2 pool. */
  datatype V2State = V2State(token0: Address, reserve0: Word, reserve1: Word)

  /** The amount out of a V2 step; 0 stands for the abort when an empty pool is given nothing. */
  function V2Quote(s: V2State, step: SwapStep, amount: Word): Word {
    match V2Fee(step.protocol)
    case None => 0
    case Some(fee) =>
      var zeroToOne := s.token0 == step.tokenIn;
      var reserve0, reserve1 := if zeroToOne then s.reserve0 else s.reserve1, if zeroToOne then s.reserve1 else s.reserve0;
      match V2Out(amount, reserve0, reserve1, fee)
      case None => 0
      case Some(out) => out
  }

  // ----- one hop -----

  /** A pool of the path, seen from both sides. */
  predicate PoolAgrees(c: Chain, db: map<Address, V2State>, fees: Fees, self: Address, s: SwapStep) {
    && Synced(c, s.pool)
    && var p := c.pairs[s.pool];
       && Liquid(p) && V2Fee(s.protocol) == Some(fees(p.factory)) && p.fee == fees(p.factory)
       && self != s.pool && self != p.token0 && self != p.token1
       && s.pool in db && db[s.pool] == V2State(p.token0, p.reserve0, p.reserve1)
  }

  lemma ScaledProduct(rIn: nat, rOut: nat, amount: nat, fee: nat, out: nat)
    requires fee <= SCALAR && out <= rOut
    ensures ((rIn + amount) * SCALAR - amount * (SCALAR - fee)) * ((rOut - out) * SCALAR) >= rIn * rOut * SCALAR * SCALAR
      <==> KeepsProduct(amount, rIn, rOut, fee, out)
  {
    var paid := (rIn + amount) * SCALAR - amount * (SCALAR - fee);
    assert paid == rIn * SCALAR + amount * fee;
    var k := paid * (rOut - out);
    assert paid * ((rOut - out) * SCALAR) == k * SCALAR;
    assert rIn * rOut * SCALAR * SCALAR == (rIn * SCALAR * rOut) * SCALAR;
  }

  lemma ForwardCheck(p: Pair, amount: nat, out: nat)
    requires p.fee <= SCALAR && out <= p.reserve1
    ensures ProductCheck(p, p.reserve0 + amount, p.reserve1 - out, amount, 0)
      <==> KeepsProduct(amount, p.reserve0, p.reserve1, p.fee, out)
  {
    ScaledProduct(p.reserve0, p.reserve1, amount, p.fee, out);
  }

  lemma BackwardCheck(p: Pair, amount: nat, out: nat)
    requires p.fee <= SCALAR && out <= p.reserve0
    ensures ProductCheck(p, p.reserve0 - out, p.reserve1 + amount, 0, amount)
      <==> KeepsProduct(amount, p.reserve1, p.reserve0, p.fee, out)
  {
    ScaledProduct(p.reserve1, p.reserve0, amount, p.fee, out);
    var paid := (p.reserve1 + amount) * SCALAR - amount * (SCALAR - p.fee);
    var left := (p.reserve0 - out) * SCALAR;
    Commutes(left, paid);
    Commutes(p.reserve0, p.reserve1);
  }

  lemma Commutes(a: int, b: int)
    ensures a * b == b * a
  {
  }

  predicate AcceptsTrade(p: Pair, zeroForOne: bool, amount: Word, out: Word)
    requires out < ReserveOut(p, zeroForOne)
  {
    if zeroForOne then Accepts(p, p.reserve0 + amount, p.reserve1 - out, 0, out)
    else Accepts(p, p.reserve0 - out, p.reserve1 + amount, out, 0)
  }

  /** A pair accepts the largest output that its fee allows, if its reserves still fit. */
  lemma PairAccepts(p: Pair, zeroForOne: bool, amount: Word, out: Word)
    requires Liquid(p) && amount < AMOUNT_BOUND && V2Out(amount, ReserveIn(p, zeroForOne), ReserveOut(p, zeroForOne), p.fee) == Some(out)
    requires 0 < out < ReserveOut(p, zeroForOne)
    ensures AcceptsTrade(p, zeroForOne, amount, out) <==> ReserveIn(p, zeroForOne) + amount < RESERVE_BOUND
  {
    var rIn, rOut := ReserveIn(p, zeroForOne), ReserveOut(p, zeroForOne);
    OutputIsLargest(amount, rIn, rOut, p.fee, out);
    if amount == 0 {
      ZeroInZeroOut(rIn, rOut, p.fee);
    }
    AcceptedIfProduct(p, zeroForOne, amount, out);
  }

  lemma AcceptedIfProduct(p: Pair, zeroForOne: bool, amount: Word, out: Word)
    requires Liquid(p) && amount > 0 && 0 < out < ReserveOut(p, zeroForOne)
    requires KeepsProduct(amount, ReserveIn(p, zeroForOne), ReserveOut(p, zeroForOne), p.fee, out)
    ensures AcceptsTrade(p, zeroForOne, amount, out) <==> ReserveIn(p, zeroForOne) + amount < RESERVE_BOUND
  {
    if zeroForOne {
      assert Received(p.reserve0 + amount, p.reserve0, 0) == amount && Received(p.reserve1 - out, p.reserve1, out) == 0;
      ForwardCheck(p, amount, out);
    } else {
      assert Received(p.reserve1 + amount, p.reserve1, 0) == amount && Received(p.reserve0 - out, p.reserve0, out) == 0;
      BackwardCheck(p, amount, out);
    }
  }

  lemma HopRuns(c: Chain, fees: Fees, self: Address, pool: Address, amount: Word, zeroForOne: bool, out: Word)
    requires Synced(c, pool) && Liquid(c.pairs[pool]) && fees(c.pairs[pool].factory) == c.pairs[pool].fee
    requires self != pool && self != c.pairs[pool].token0 && self != c.pairs[pool].token1
    requires amount < AMOUNT_BOUND && amount <= Balance(c.balances, TokenIn(c.pairs[pool], zeroForOne), self)
    requires V2Out(amount, ReserveIn(c.pairs[pool], zeroForOne), ReserveOut(c.pairs[pool], zeroForOne), c.pairs[pool].fee) == Some(out)
    requires out < ReserveOut(c.pairs[pool], zeroForOne)
    ensures var r := SwapHop(c, fees, self, pool, amount, zeroForOne);
            && (r.Some? <==> ReserveIn(c.pairs[pool], zeroForOne) + amount < RESERVE_BOUND && out > 0)
            && (r.Some? ==> r.value.out == out)
  {
    hide V2Out;
    var p := c.pairs[pool];
    TransferMoves(c.balances, TokenIn(p, zeroForOne), self, pool, amount);
    var paid := Transfer(c.balances, TokenIn(p, zeroForOne), self, pool, amount).value;
    if out > 0 {
      TransferMoves(paid, TokenOut(p, zeroForOne), pool, self, out);
      PairAccepts(p, zeroForOne, amount, out);
    }
  }

  /** A hop succeeds exactly when there is an output and the pool has room for the input; it yields the quote. */
  lemma HopAgrees(c: Chain, db: map<Address, V2State>, fees: Fees, self: Address, s: SwapStep, amount: Word)
    requires PoolAgrees(c, db, fees, self, s) && amount < AMOUNT_BOUND
    requires s.tokenIn == c.pairs[s.pool].token0 || s.tokenIn == c.pairs[s.pool].token1
    requires amount <= Balance(c.balances, s.tokenIn, self)
    ensures var out := V2Quote(db[s.pool], s, amount);
            var r := SwapHop(c, fees, self, s.pool, amount, s.tokenIn == c.pairs[s.pool].token0);
            && out < RESERVE_BOUND
            && (r.Some? <==> HasRoom(db[s.pool], s, amount) && out > 0)
            && (r.Some? ==> r.value.out == out)
  {
    var p := c.pairs[s.pool];
    var zeroForOne := s.tokenIn == p.token0;
    var rIn, rOut := ReserveIn(p, zeroForOne), ReserveOut(p, zeroForOne);
    hide V2Out, SwapHop;
    SomeOutput(amount, rIn, rOut, p.fee);
    OutputBounds(amount, rIn, rOut, p.fee);
    HopRuns(c, fees, self, s.pool, amount, zeroForOne, V2Out(amount, rIn, rOut, p.fee).value);
  }

  // ----- a path -----

  /** The reserve still has 112 bits after the input. */
  predicate HasRoom(state: V2State, s: SwapStep, amount: Word) {
    (if state.token0 == s.tokenIn then state.reserve0 else state.reserve1) + amount < RESERVE_BOUND
  }

  /** Every step has an output, and room for its input. */
  predicate Executable(db: map<Address, V2State>, path: SwapPath, amount: Word)
    requires Tracked(db, path)
    decreases |path|
  {
    path != [] ==>
      var out := V2Quote(db[path[0].pool], path[0], amount);
      HasRoom(db[path[0].pool], path[0], amount) && out > 0 && Executable(db, path[1..], out)
  }

  /** Chain and database agree on all pools of the path, and none is visited twice. */
  predicate Agree(c: Chain, db: map<Address, V2State>, fees: Fees, self: Address, path: SwapPath) {
    && Distinct(PoolsOf(path))
    && forall s :: s in path ==> PoolAgrees(c, db, fees, self, s)
  }

  lemma AgreeAfterHop(c: Chain, db: map<Address, V2State>, fees: Fees, self: Address, path: SwapPath, amount: Word,
                      zeroForOne: bool)
    requires path != [] && Agree(c, db, fees, self, path)
    ensures var h := SwapHop(c, fees, self, path[0].pool, amount, zeroForOne);
            h.Some? ==> Agree(h.value.chain, db, fees, self, path[1..])
  {
    var pool, rest := path[0].pool, path[1..];
    assert path[0] in path;
    HopMoves(c, fees, self, pool, amount, zeroForOne);
    var h := SwapHop(c, fees, self, pool, amount, zeroForOne);
    if h.Some? {
      forall i, j | 0 <= i < j < |rest| ensures PoolsOf(rest)[i] != PoolsOf(rest)[j] {
        assert PoolsOf(path)[i + 1] != PoolsOf(path)[j + 1];
      }
      forall s | s in rest ensures PoolAgrees(h.value.chain, db, fees, self, s) {
        var i :| 0 <= i < |rest| && rest[i] == s;
        assert PoolsOf(path)[0] != PoolsOf(path)[i + 1];
        assert s in path;
      }
    }
  }

  /** The contracts run a path exactly when it is executable, and then compute the calculator's amounts. */
  lemma {:induction false} EvaluatorsAgree(c: Chain, db: map<Address, V2State>, fees: Fees, self: Address,
                                           path: SwapPath, amount: Word,
                                           token: Address, end: Address)
    requires PathOver(c.pairs, path, token, end) && Agree(c, db, fees, self, path) && Tracked(db, path)
    requires amount < AMOUNT_BOUND && amount <= Balance(c.balances, token, self)
    ensures var r := RunHops(c, fees, self, PoolsOf(path), amount, token);
            && (r.Some? <==> Executable(db, path, amount))
            && (r.Some? ==> r.value.amounts == Debug(V2Quote, db, path, amount))
    decreases |path|
  {
    if path != [] {
      var s, rest := path[0], path[1..];
      assert s in path && PoolsOf(path)[1..] == PoolsOf(rest);
      var zeroForOne := token == c.pairs[s.pool].token0;
      HopAgrees(c, db, fees, self, s, amount);
      var h := SwapHop(c, fees, self, s.pool, amount, zeroForOne);
      if h.Some? {
        HopMoves(c, fees, self, s.pool, amount, zeroForOne);
        AgreeAfterHop(c, db, fees, self, path, amount, zeroForOne);
        PathOverThroughout(c.pairs, h.value.chain.pairs, rest, s.tokenOut, end);
        EvaluatorsAgree(h.value.chain, db, fees, self, rest, h.value.out, s.tokenOut, end);
      }
    }
  }

  lemma {:induction false} PathOverThroughout(before: map<Address, Pair>, after: map<Address, Pair>, path: SwapPath,
                                              token: Address, end: Address)
    requires SamePairs(before, after) && PathOver(before, path, token, end)
    ensures PathOver(after, path, token, end)
    decreases |path|
  {
    if path != [] {
      var p := before[path[0].pool];
      var p' := after[path[0].pool];
      assert p'.token0 == p.(reserve0 := 0, reserve1 := 0).token0 && p'.token1 == p.(reserve0 := 0, reserve1 := 0).token1;
      PathOverThroughout(before, after, path[1..], path[0].tokenOut, end);
    }
  }

  // ----- the quoter -----

  /** Paying in from someone who is no pool leaves the pools alone. */
  lemma AgreeAfterFunding(c: Chain, db: map<Address, V2State>, fees: Fees, self: Address, path: SwapPath,
                          token: Address, from: Address, amount: Word)
    requires Agree(c, db, fees, self, path) && from !in PoolsOf(path) && self !in PoolsOf(path)
    ensures var f := Sent(c, token, from, self, amount);
            f.Some? ==> Agree(f.value, db, fees, self, path)
  {
    TransferMoves(c.balances, token, from, self, amount);
    var f := Sent(c, token, from, self, amount);
    if f.Some? {
      forall s | s in path ensures PoolAgrees(f.value, db, fees, self, s) {
        var i :| 0 <= i < |path| && path[i] == s;
        assert PoolsOf(path)[i] == s.pool;
      }
    }
  }

  /** The quoter's answer for a compressed path is the calculator's. */
  lemma {:induction false} QuoterAgrees(c: Chain, db: map<Address, V2State>, self: Address, caller: Address,
                                        path: SwapPath)
    requires PathOver(c.pairs, path, QUOTER_WETH, QUOTER_WETH) && Agree(c, db, QuoterFee, self, path) && Tracked(db, path)
    requires self != caller && self !in PoolsOf(path) && caller !in PoolsOf(path)
    ensures var q := Quoted(c, self, caller, ParamsOf(path));
            && (q.Some? <==> Balance(c.balances, QUOTER_WETH, caller) >= AMOUNT && Executable(db, path, AMOUNT))
            && (q.Some? ==> q.value.amounts == Debug(V2Quote, db, path, AMOUNT))
  {
    TransferMoves(c.balances, QUOTER_WETH, caller, self, AMOUNT);
    AgreeAfterFunding(c, db, QuoterFee, self, path, QUOTER_WETH, caller, AMOUNT);
    var f := Sent(c, QUOTER_WETH, caller, self, AMOUNT);
    if f.Some? {
      EvaluatorsAgree(f.value, db, QuoterFee, self, path, AMOUNT, QUOTER_WETH, QUOTER_WETH);
    }
  }

  // ----- from the searcher to the payout -----

  /** Room along the whole path. */
  predicate Roomy(db: map<Address, V2State>, path: SwapPath, amount: Word)
    requires Tracked(db, path)
    decreases |path|
  {
    path != [] ==> HasRoom(db[path[0].pool], path[0], amount) && Roomy(db, path[1..], V2Quote(db[path[0].pool], path[0], amount))
  }

  lemma ZeroQuote(s: V2State, step: SwapStep)
    requires 0 < s.reserve0 < RESERVE_BOUND && 0 < s.reserve1 < RESERVE_BOUND
    ensures V2Quote(s, step, 0) == 0
  {
    var fee := V2Fee(step.protocol);
    if fee.Some? {
      ZeroInZeroOut(s.reserve0, s.reserve1, fee.value);
      ZeroInZeroOut(s.reserve1, s.reserve0, fee.value);
    }
  }

  predicate PositiveReserves(db: map<Address, V2State>, path: SwapPath)
    requires Tracked(db, path)
  {
    forall s :: s in path ==> 0 < db[s.pool].reserve0 < RESERVE_BOUND && 0 < db[s.pool].reserve1 < RESERVE_BOUND
  }

  /** A path with an output and with room is executable. */
  lemma {:induction false} PositiveOutputExecutes(db: map<Address, V2State>, path: SwapPath, amount: Word)
    requires Tracked(db, path) && PositiveReserves(db, path)
    requires Roomy(db, path, amount) && Fresh(V2Quote, db, path, amount) > 0
    ensures Executable(db, path, amount)
    decreases |path|
  {
    if path != [] {
      assert path[0] in path;
      var out := V2Quote(db[path[0].pool], path[0], amount);
      if out == 0 {
        forall s | s in path[1..] ensures V2Quote(db[s.pool], s, 0) == 0 {
          ZeroQuote(db[s.pool], s);
        }
        FreshOfZero(V2Quote, db, path[1..]);
      }
      PositiveOutputExecutes(db, path[1..], out);
    }
  }

  lemma {:induction false} LastIsFresh(db: map<Address, V2State>, path: SwapPath)
    requires Tracked(db, path)
    ensures Last(Debug(V2Quote, db, path, AMOUNT)) == Fresh(V2Quote, db, path, AMOUNT)
  {
  }

  /**
    End to end: a path that the searcher sends as genuine, over pools on which chain and database agree, is carried
    out by the flash loan, and pays the caller at least the margin besides what the contract already had.
  */
  lemma {:induction false} SentPathPays(c: Chain, db: map<Address, V2State>, fees: Fees, self: Address, weth: Address,
                                        lender: Address, caller: Address,
                     cycles: seq<SwapPath>, message: Message, sent: ArbPath)
    requires Genuine(V2Quote, db, cycles, AMOUNT + PREMIUM + MARGIN, message, sent)
    requires PathOver(c.pairs, sent.path, weth, weth) && Agree(c, db, fees, self, sent.path)
    requires Apart(self, lender, caller, PoolsOf(sent.path))
    requires Balance(c.balances, weth, lender) >= AMOUNT && Roomy(db, sent.path, AMOUNT)
    ensures var a := Arbitraged(c, fees, self, weth, lender, PREMIUM, ParamsOf(sent.path), caller);
            var profit := Surplus(c.balances, weth, self, sent.amount, AMOUNT, PREMIUM);
            && a.Some? && Settled(c, a.value, weth, self, lender, caller, profit, PREMIUM)
            && profit >= Balance(c.balances, weth, self) + MARGIN
  {
    var path := sent.path;
    TransferMoves(c.balances, weth, lender, self, AMOUNT);
    AgreeAfterFunding(c, db, fees, self, path, weth, lender, AMOUNT);
    var lent := Sent(c, weth, lender, self, AMOUNT);
    assert PositiveReserves(db, path) by {
      forall s | s in path ensures 0 < db[s.pool].reserve0 < RESERVE_BOUND && 0 < db[s.pool].reserve1 < RESERVE_BOUND {
        assert PoolAgrees(c, db, fees, self, s);
      }
    }
    PositiveOutputExecutes(db, path, AMOUNT);
    EvaluatorsAgree(lent.value, db, fees, self, path, AMOUNT, weth, weth);
    LastIsFresh(db, path);
    CompressionIsLossless(c.pairs, path, weth, weth);
    ArbitrageSettles(c, fees, self, weth, lender, PREMIUM, ParamsOf(path), caller);
  }
}
