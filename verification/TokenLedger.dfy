/** What a run of the contracts does to everybody's token balances. */
module TokenLedger {
  import opened ConstantProduct
  import opened FlashContracts
  import opened Ledger
  import opened Outcomes
  import opened Swaps
  import opened U256

  /** How much of token `t` an owner of `amount` of `token` holds. */
  function Of(token: Address, amount: int, t: Address): int {
    if t == token then amount else 0
  }

  /** Reserves apart, the pairs are the same. */
  ghost predicate SamePairs(before: map<Address, Pair>, after: map<Address, Pair>) {
    before.Keys == after.Keys
    && forall p :: p in before ==> after[p].(reserve0 := 0, reserve1 := 0) == before[p].(reserve0 := 0, reserve1 := 0)
  }

  // ----- one hop -----

  lemma PairSwapMoves(c: Chain, pool: Address, zeroForOne: bool, out: Word, to: Address)
    requires pool in c.pairs && to != pool
    ensures var r := PairSwap(c, pool, if zeroForOne then 0 else out, if zeroForOne then out else 0, to);
            r.Some? ==>
              && out > 0 && SamePairs(c.pairs, r.value.pairs)
              && (forall p :: p in c.pairs && p != pool ==> r.value.pairs[p] == c.pairs[p])
              && forall t, o :: Balance(r.value.balances, t, o)
                   == Balance(c.balances, t, o) + Delta(TokenOut(c.pairs[pool], zeroForOne), pool, to, out, t, o)
  {
    TransferMoves(c.balances, TokenOut(c.pairs[pool], zeroForOne), pool, to, out);
  }

  /** The contract gives the input and gets the output; nobody but the pool is affected. */
  lemma HopMoves(c: Chain, fees: Fees, self: Address, pool: Address, amountIn: Word, zeroForOne: bool)
    requires pool in c.pairs && self != pool
    ensures var r := SwapHop(c, fees, self, pool, amountIn, zeroForOne);
            r.Some? ==>
              && SamePairs(c.pairs, r.value.chain.pairs)
              && (forall p :: p in c.pairs && p != pool ==> r.value.chain.pairs[p] == c.pairs[p])
              && (forall t :: Balance(r.value.chain.balances, t, self) == Balance(c.balances, t, self)
                   - Of(TokenIn(c.pairs[pool], zeroForOne), amountIn, t) + Of(TokenOut(c.pairs[pool], zeroForOne), r.value.out, t))
              && forall t, o :: o != self && o != pool ==>
                   Balance(r.value.chain.balances, t, o) == Balance(c.balances, t, o)
  {
    var p := c.pairs[pool];
    TransferMoves(c.balances, TokenIn(p, zeroForOne), self, pool, amountIn);
    var paid := Transfer(c.balances, TokenIn(p, zeroForOne), self, pool, amountIn);
    var out := V2Out(amountIn, ReserveIn(p, zeroForOne), ReserveOut(p, zeroForOne), fees(p.factory));
    if paid.Some? && out.Some? {
      PairSwapMoves(c.(balances := paid.value), pool, zeroForOne, out.value, self);
    }
  }

  // ----- a run -----

  /** Each hop can trade the token at hand, and the last one gives `end`. */
  predicate Chained(pairs: map<Address, Pair>, pools: seq<Address>, token: Address, end: Address)
    decreases |pools|
  {
    if pools == [] then token == end
    else
      && pools[0] in pairs
      && var p := pairs[pools[0]];
         p.token0 != p.token1 && (token == p.token0 || token == p.token1)
         && Chained(pairs, pools[1..], TokenOut(p, token == p.token0), end)
  }

  lemma {:induction false} ChainedThroughout(before: map<Address, Pair>, after: map<Address, Pair>,
                                             pools: seq<Address>, token: Address, end: Address)
    requires SamePairs(before, after) && Chained(before, pools, token, end)
    ensures Chained(after, pools, token, end)
    decreases |pools|
  {
    if pools != [] {
      var p := before[pools[0]];
      var p' := after[pools[0]];
      assert p'.token0 == p.(reserve0 := 0, reserve1 := 0).token0 && p'.token1 == p.(reserve0 := 0, reserve1 := 0).token1;
      ChainedThroughout(before, after, pools[1..], TokenOut(p, token == p.token0), end);
    }
  }

  function Last(amounts: seq<Word>): Word
    requires amounts != []
  {
    amounts[|amounts| - 1]
  }

  /** The first amount leaves the contract and the last one arrives; intermediate tokens pass through. */
  ghost predicate RunMoved(b: Balances, self: Address, pools: seq<Address>, amount: Word, token: Address, ran: Ran) {
    && ran.amounts != []
    && (forall t :: Balance(ran.chain.balances, t, self)
         == Balance(b, t, self) - Of(token, amount, t) + Of(ran.token, Last(ran.amounts), t))
    && (forall t, o :: o != self && o !in pools ==> Balance(ran.chain.balances, t, o) == Balance(b, t, o))
  }

  /** One hop before a run that has moved its balances. */
  lemma HopBeforeRun(b: Balances, mid: Balances, self: Address, pool: Address, rest: seq<Address>, amount: Word,
                     token: Address,
                     out: Word, next: Address, ran: Ran, all: Ran)
    requires forall t :: Balance(mid, t, self) == Balance(b, t, self) - Of(token, amount, t) + Of(next, out, t)
    requires forall t, o :: o != self && o != pool ==> Balance(mid, t, o) == Balance(b, t, o)
    requires RunMoved(mid, self, rest, out, next, ran)
    requires all.chain == ran.chain && all.token == ran.token && all.amounts == [amount] + ran.amounts
    ensures RunMoved(b, self, [pool] + rest, amount, token, all)
  {
    assert Last(all.amounts) == Last(ran.amounts);
  }

  lemma {:induction false} RunMoves(c: Chain, fees: Fees, self: Address, pools: seq<Address>, amount: Word,
                                    token: Address, end: Address)
    requires Chained(c.pairs, pools, token, end) && self !in pools
    ensures var r := RunHops(c, fees, self, pools, amount, token);
            r.Some? ==> r.value.token == end && RunMoved(c.balances, self, pools, amount, token, r.value)
    decreases |pools|
  {
    if pools != [] {
      var pool, rest := pools[0], pools[1..];
      assert pools == [pool] + rest;
      var p := c.pairs[pool];
      var zeroForOne := token == p.token0;
      hide SwapHop, RunMoved;
      HopMoves(c, fees, self, pool, amount, zeroForOne);
      var h := SwapHop(c, fees, self, pool, amount, zeroForOne);
      if h.Some? {
        var next := TokenOut(p, zeroForOne);
        ChainedThroughout(c.pairs, h.value.chain.pairs, rest, next, end);
        RunMoves(h.value.chain, fees, self, rest, h.value.out, next, end);
        var run := RunHops(h.value.chain, fees, self, rest, h.value.out, next);
        if run.Some? {
          HopBeforeRun(c.balances, h.value.chain.balances, self, pool, rest, amount, token, h.value.out, next, run.value,
                       Prefixed([amount], run).value);
        }
      }
    }
  }

  // ----- the flash loan -----

  /** The contract, the lender and the caller are three parties, none of them a pool of the run. */
  predicate Apart(self: Address, lender: Address, caller: Address, pools: seq<Address>) {
    && self != lender && self != caller && lender != caller
    && self !in pools && lender !in pools && caller !in pools
  }

  /** What the contract has above `owed` after `amount` has left and `last` has arrived. */
  function Surplus(b: Balances, weth: Address, self: Address, last: Word, amount: Word, owed: nat): int {
    Balance(b, weth, self) + last - amount - owed
  }

  /** Everybody's balances after a successful arbitrage. */
  ghost predicate Settled(c: Chain, c': Chain, weth: Address, self: Address, lender: Address, caller: Address,
                          profit: int, premium: int) {
    && profit >= 0
    && (forall t :: Balance(c'.balances, t, self) == if t == weth then 0 else Balance(c.balances, t, self))
    && (forall t :: Balance(c'.balances, t, caller) == Balance(c.balances, t, caller) + Of(weth, profit, t))
    && (forall t :: Balance(c'.balances, t, lender) == Balance(c.balances, t, lender) + Of(weth, premium, t))
  }

  /** Everybody's balances after the callback, except the pools'. */
  ghost predicate PaidOut(b: Balances, b': Balances, self: Address, weth: Address, caller: Address, loan: nat,
                          gain: int, pools: seq<Address>) {
    && (forall t :: Balance(b', t, self) == if t == weth then loan else Balance(b, t, self))
    && (forall t :: Balance(b', t, caller) == Balance(b, t, caller) + Of(weth, gain, t))
    && forall t, o :: o != self && o != caller && o !in pools ==> Balance(b', t, o) == Balance(b, t, o)
  }

  /** A run that starts and ends in `weth` gains some of it, and no other token. */
  ghost predicate RunClosed(b: Balances, b': Balances, self: Address, weth: Address, last: Word, amount: Word,
                            pools: seq<Address>) {
    && (forall t :: Balance(b', t, self) == Balance(b, t, self) + Of(weth, last - amount, t))
    && forall t, o :: o != self && o !in pools ==> Balance(b', t, o) == Balance(b, t, o)
  }

  lemma PayOut(b: Balances, b': Balances, self: Address, weth: Address, caller: Address, loan: nat, last: Word,
               amount: Word, pools: seq<Address>)
    requires RunClosed(b, b', self, weth, last, amount, pools) && self != caller && caller !in pools
    requires loan <= Balance(b', weth, self)
    ensures var paid := Transfer(b', weth, self, caller, Balance(b', weth, self) - loan);
            paid.Some? && PaidOut(b, paid.value, self, weth, caller, loan, Surplus(b, weth, self, last, amount, loan), pools)
  {
    TransferMoves(b', weth, self, caller, Balance(b', weth, self) - loan);
  }

  /** The callback leaves exactly the repayment in the contract and pays all else to the caller, or it reverts. */
  lemma {:induction false} CallbackSettles(c: Chain, fees: Fees, self: Address, weth: Address, loan: nat,
                                           params: SwapParams, caller: Address)
    requires Chained(c.pairs, params.pools, weth, weth)
    requires self !in params.pools && caller !in params.pools && self != caller
    ensures var r := RunHops(c, fees, self, params.pools, params.amountIn, weth);
            var e := Executed(c, fees, self, weth, loan, params, caller);
            if r.None? then e.None?
            else
              && r.value.amounts != []
              && var gain := Surplus(c.balances, weth, self, Last(r.value.amounts), params.amountIn, loan);
                 && (e.Some? <==> loan < MODULUS && gain >= 0)
                 && (e.Some? ==> PaidOut(c.balances, e.value.balances, self, weth, caller, loan, gain, params.pools))
  {
    hide RunHops, PaidOut, Chained;
    RunMoves(c, fees, self, params.pools, params.amountIn, weth, weth);
    var r := RunHops(c, fees, self, params.pools, params.amountIn, weth);
    if r.Some? {
      var b := r.value.chain.balances;
      var held := Balance(b, weth, self);
      assert RunClosed(c.balances, b, self, weth, Last(r.value.amounts), params.amountIn, params.pools);
      if loan < MODULUS && loan <= held {
        PayOut(c.balances, b, self, weth, caller, loan, Last(r.value.amounts), params.amountIn, params.pools);
      }
    }
  }

  /**
    The arbitrage reverts, or it pays the caller exactly the contract's prior balance, plus the last amount, minus
    the loan and its premium; the lender gets the premium; no other token of the contract changes.
  */
  lemma {:induction false} ArbitrageSettles(c: Chain, fees: Fees, self: Address, weth: Address, lender: Address,
                                            premium: Word, params: SwapParams,
                         caller: Address)
    requires Chained(c.pairs, params.pools, weth, weth) && Apart(self, lender, caller, params.pools)
    ensures var a := Arbitraged(c, fees, self, weth, lender, premium, params, caller);
            var lent := Sent(c, weth, lender, self, params.amountIn);
            if lent.None? then a.None?
            else
              var r := RunHops(lent.value, fees, self, params.pools, params.amountIn, weth);
              if r.None? then a.None?
              else
                && r.value.amounts != []
                && var profit := Surplus(c.balances, weth, self, Last(r.value.amounts), params.amountIn, premium);
                   && (a.Some? <==> params.amountIn + premium < MODULUS && profit >= 0)
                   && (a.Some? ==> Settled(c, a.value, weth, self, lender, caller, profit, premium))
  {
    hide RunHops, Executed, PaidOut, Settled, Chained;
    var lent := Sent(c, weth, lender, self, params.amountIn);
    TransferMoves(c.balances, weth, lender, self, params.amountIn);
    if lent.Some? {
      var loan := params.amountIn + premium;
      CallbackSettles(lent.value, fees, self, weth, loan, params, caller);
      var r := RunHops(lent.value, fees, self, params.pools, params.amountIn, weth);
      var e := Executed(lent.value, fees, self, weth, loan, params, caller);
      assert Balance(lent.value.balances, weth, self) == Balance(c.balances, weth, self) + params.amountIn;
      if e.Some? {
        var profit := Surplus(c.balances, weth, self, Last(r.value.amounts), params.amountIn, premium);
        LoanReturns(c, lent.value, e.value, weth, self, lender, caller, params.amountIn, premium, profit, params.pools);
      }
    }
  }

  lemma LoanReturns(c: Chain, lent: Chain, paid: Chain, weth: Address, self: Address, lender: Address, caller: Address,
                    amount: Word, premium: Word, profit: nat, pools: seq<Address>)
    requires Apart(self, lender, caller, pools) && Sent(c, weth, lender, self, amount) == Some(lent)
    requires PaidOut(lent.balances, paid.balances, self, weth, caller, amount + premium, profit, pools)
    ensures var back := Sent(paid, weth, self, lender, amount + premium);
            back.Some? && Settled(c, back.value, weth, self, lender, caller, profit, premium)
  {
    TransferMoves(c.balances, weth, lender, self, amount);
    TransferMoves(paid.balances, weth, self, lender, amount + premium);
  }
}
