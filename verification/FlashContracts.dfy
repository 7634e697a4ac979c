/**
  The two contracts that run a compressed path on chain: the quoter and the flash-loan arbitrage.  Hops are V2.
  A revert is None, and the caller of the outermost function finds the chain as it was.
*/
module FlashContracts {
  import opened ConstantProduct
  import opened Ledger
  import opened Outcomes
  import opened Swaps
  import opened U256

  datatype SwapParams = SwapParams(pools: seq<Address>, poolVersions: seq<nat>, amountIn: Word)

  /** Fee of the pairs of a factory. */
  type Fees = Address -> Word

  // ----- specification -----

  datatype HopResult = HopResult(chain: Chain, out: Word)

  function TokenIn(p: Pair, zeroForOne: bool): Address {
    if zeroForOne then p.token0 else p.token1
  }

  function TokenOut(p: Pair, zeroForOne: bool): Address {
    if zeroForOne then p.token1 else p.token0
  }

  function ReserveIn(p: Pair, zeroForOne: bool): Word {
    if zeroForOne then p.reserve0 else p.reserve1
  }

  function ReserveOut(p: Pair, zeroForOne: bool): Word {
    if zeroForOne then p.reserve1 else p.reserve0
  }

  /** Pay the pair, and then ask for the output that the reserves before the payment allow. */
  function SwapHop(c: Chain, fees: Fees, self: Address, pool: Address, amountIn: Word,
                   zeroForOne: bool): Option<HopResult> {
    if pool !in c.pairs then None
    else
      var p := c.pairs[pool];
      match Transfer(c.balances, TokenIn(p, zeroForOne), self, pool, amountIn)
      case None => None
      case Some(paid) =>
        match V2Out(amountIn, ReserveIn(p, zeroForOne), ReserveOut(p, zeroForOne), fees(p.factory))
        case None => None
        case Some(out) =>
          match PairSwap(c.(balances := paid), pool, if zeroForOne then 0 else out, if zeroForOne then out else 0, self)
          case None => None
          case Some(c') => Some(HopResult(c', out))
  }

  /** All amounts of a run and the token it ends in. */
  datatype Ran = Ran(chain: Chain, amounts: seq<Word>, token: Address)

  /** The token that each hop takes is the one the hop before gave; the parameters do not name it. */
  function RunHops(c: Chain, fees: Fees, self: Address, pools: seq<Address>, amount: Word, token: Address): Option<Ran>
    decreases |pools|
  {
    if pools == [] then Some(Ran(c, [amount], token))
    else if pools[0] !in c.pairs then None
    else
      var p := c.pairs[pools[0]];
      var zeroForOne := token == p.token0;
      match SwapHop(c, fees, self, pools[0], amount, zeroForOne)
      case None => None
      case Some(h) =>
        Prefixed([amount], RunHops(h.chain, fees, self, pools[1..], h.out, TokenOut(p, zeroForOne)))
  }

  function Prefixed(before: seq<Word>, r: Option<Ran>): Option<Ran> {
    match r
    case None => None
    case Some(ran) => Some(ran.(amounts := before + ran.amounts))
  }

  lemma PrefixedNothing(r: Option<Ran>)
    ensures Prefixed([], r) == r
  {
    if r.Some? {
      assert [] + r.value.amounts == r.value.amounts;
    }
  }

  lemma PrefixedTwice(a: seq<Word>, b: seq<Word>, r: Option<Ran>)
    ensures Prefixed(a, Prefixed(b, r)) == Prefixed(a + b, r)
  {
    if r.Some? {
      assert a + (b + r.value.amounts) == (a + b) + r.value.amounts;
    }
  }

  // ----- the contracts -----

  /** The state of the chain as the running transaction sees it. */
  class Evm {
    var chain: Chain

    constructor (chain: Chain)
      ensures this.chain == chain
    {
      this.chain := chain;
    }

    method TransferToken(token: Address, from: Address, to: Address, amount: nat) returns (ok: bool)
      modifies this
      ensures var r := Sent(old(chain), token, from, to, amount);
              ok == r.Some? && chain == if ok then r.value else old(chain)
    {
      var r := Transfer(chain.balances, token, from, to, amount);
      ok := r.Some?;
      if ok {
        chain := chain.(balances := r.value);
      }
    }

    method SwapPair(pool: Address, out0: Word, out1: Word, to: Address) returns (ok: bool)
      modifies this
      ensures var r := PairSwap(old(chain), pool, out0, out1, to);
              ok == r.Some? && chain == if ok then r.value else old(chain)
    {
      var r := PairSwap(chain, pool, out0, out1, to);
      ok := r.Some?;
      if ok {
        chain := r.value;
      }
    }
  }

  /** One hop, as both contracts make it. */
  method SwapV2(evm: Evm, fee: Word, self: Address, pool: Address, amountIn: Word, zeroForOne: bool, ghost fees: Fees)
    returns (out: Option<Word>)
    requires pool in evm.chain.pairs && fee == fees(evm.chain.pairs[pool].factory)
    modifies evm
    ensures var r := SwapHop(old(evm.chain), fees, self, pool, amountIn, zeroForOne);
            out.Some? == r.Some? && (out.Some? ==> evm.chain == r.value.chain && out.value == r.value.out)
  {
    var pair := evm.chain.pairs[pool];
    var tokenIn := if zeroForOne then pair.token0 else pair.token1;
    var paid := evm.TransferToken(tokenIn, self, pool, amountIn);
    if !paid {
      return None;
    }
    var reserveIn := if zeroForOne then pair.reserve0 else pair.reserve1;
    var reserveOut := if zeroForOne then pair.reserve1 else pair.reserve0;
    var amountInWithFee := Mul(amountIn, fee);
    var denominator := Add(Mul(reserveIn, SCALAR), amountInWithFee);
    if denominator == 0 {
      return None;
    }
    var amountOut := Div(Mul(amountInWithFee, reserveOut), denominator);
    var ok := evm.SwapPair(pool, if zeroForOne then 0 else amountOut, if zeroForOne then amountOut else 0, self);
    out := if ok then Some(amountOut) else None;
  }

  predicate OnlyV2(params: SwapParams) {
    |params.poolVersions| == |params.pools| && forall i :: 0 <= i < |params.poolVersions| ==> params.poolVersions[i] == 0
  }

  lemma LastOfAll(all: seq<Word>, n: nat)
    requires |all| == n + 1
    ensures all[..n] + [all[n]] == all
  {
  }

  datatype Step = Step(out: Word, token: Address)

  /** One turn of the loop: the direction comes from the token at hand. */
  method RunStep(evm: Evm, fees: Fees, self: Address, pool: Address, amountIn: Word, currentTokenIn: Address,
                 ghost rest: seq<Address>)
    returns (step: Option<Step>)
    modifies evm
    ensures RunHops(old(evm.chain), fees, self, [pool] + rest, amountIn, currentTokenIn) ==
      match step
      case None => None
      case Some(s) => Prefixed([amountIn], RunHops(evm.chain, fees, self, rest, s.out, s.token))
  {
    assert ([pool] + rest)[0] == pool && ([pool] + rest)[1..] == rest;
    if pool !in evm.chain.pairs {
      return None;
    }
    var pair := evm.chain.pairs[pool];
    var zeroForOne := currentTokenIn == pair.token0;
    var out := SwapV2(evm, fees(pair.factory), self, pool, amountIn, zeroForOne, fees);
    step := if out.None? then None else Some(Step(out.value, if zeroForOne then pair.token1 else pair.token0));
  }

  /** The loop of both contracts: it fills `amounts` and keeps track of the token to trade next. */
  method RunLoop(evm: Evm, fees: Fees, self: Address, weth: Address, params: SwapParams) returns (r: Option<seq<Word>>)
    requires OnlyV2(params)
    modifies evm
    ensures var run := RunHops(old(evm.chain), fees, self, params.pools, params.amountIn, weth);
            r.Some? == run.Some? && (r.Some? ==> r.value == run.value.amounts && evm.chain == run.value.chain)
  {
    var n: nat := |params.pools|;
    var amounts := new Word[n + 1];
    amounts[0] := params.amountIn;
    var currentTokenIn := weth;
    ghost var run := RunHops(evm.chain, fees, self, params.pools, params.amountIn, weth);
    assert params.pools[0..] == params.pools;
    PrefixedNothing(run);
    for i := 0 to n
      invariant run == Prefixed(amounts[..i], RunHops(evm.chain, fees, self, params.pools[i..], amounts[i], currentTokenIn))
    {
      ghost var before, amountIn, rest := amounts[..i], amounts[i], params.pools[i + 1..];
      assert params.pools[i..] == [params.pools[i]] + rest;
      var step := RunStep(evm, fees, self, params.pools[i], amounts[i], currentTokenIn, rest);
      if step.None? {
        return None;
      }
      amounts[i + 1] := step.value.out;
      currentTokenIn := step.value.token;
      assert amounts[..i + 1] == before + [amountIn];
      PrefixedTwice(before, [amountIn], RunHops(evm.chain, fees, self, rest, amounts[i + 1], currentTokenIn));
    }
    assert params.pools[n..] == [];
    r := Some(amounts[..]);
    LastOfAll(amounts[..], n);
  }

  // ----- the quoter -----

  /** The fees of the quoter are fixed. */
  function QuoterFee(factory: Address): Word {
    if factory == 0x8909Dc15e40173Ff4699343b6eB8132c65e18eC6 then 9970
    else if factory == 0x71524B4f93c58fcbF659783284E38825f0622859 then 9970
    else if factory == 0x02a84c1b3BBD7401a5f7fa98a384EBC70bB5749E then 9975
    else if factory == 0x04C9f118d21e8B767D2e50C946f0cC9F6C367300 then 9970
    else if factory == 0xFDa619b6d20975be80A10332cD39b9a4b0FAa8BB then 9975
    else if factory == 0x591f122D1df761E616c13d265006fcbf4c6d6551 then 9975
    else if factory == 0x3E84D913803b02A4a7f027165E8cA42C14C0FdE7 then 9984
    else 9970
  }

  const QUOTER_WETH: Address := 0x4200000000000000000000000000000000000006

  /** A quote takes the input from the caller and runs the hops. */
  function Quoted(c: Chain, self: Address, caller: Address, params: SwapParams): Option<Ran> {
    match Sent(c, QUOTER_WETH, caller, self, params.amountIn)
    case None => None
    case Some(funded) => RunHops(funded, QuoterFee, self, params.pools, params.amountIn, QUOTER_WETH)
  }

  class FlashQuoter {
    const address: Address

    constructor (address: Address)
      ensures this.address == address
    {
      this.address := address;
    }

    method QuoteArbitrage(evm: Evm, caller: Address, params: SwapParams) returns (quote: Option<seq<Word>>)
      requires OnlyV2(params)
      modifies evm
      ensures var r := Quoted(old(evm.chain), address, caller, params);
              && quote == (if r.Some? then Some(r.value.amounts) else None)
              && evm.chain == if r.Some? then r.value.chain else old(evm.chain)
    {
      var start := evm.chain;
      var received := evm.TransferToken(QUOTER_WETH, caller, address, params.amountIn);
      if !received {
        return None;
      }
      quote := RunLoop(evm, QuoterFee, address, QUOTER_WETH, params);
      if quote.None? {
        evm.chain := start;
      }
    }
  }

  // ----- the flash loan -----

  /** A factory that was not registered has fee 0. */
  function FeeIn(factoryFees: map<Address, Word>, factory: Address): Word {
    if factory in factoryFees then factoryFees[factory] else 0
  }

  function FeesIn(factoryFees: map<Address, Word>): Fees {
    (factory: Address) => FeeIn(factoryFees, factory)
  }

  /** The fee given last to a factory. */
  function LastFee(factories: seq<Address>, fees: seq<Word>, factory: Address): Word
    requires |factories| <= |fees|
  {
    if factories == [] then 0
    else
      var n := |factories| - 1;
      if factories[n] == factory then fees[n] else LastFee(factories[..n], fees, factory)
  }

  /** What the flash-loan callback does with its chain; `loan` is what is to be repaid. */
  function Executed(c: Chain, fees: Fees, self: Address, weth: Address, loan: nat, params: SwapParams,
                    caller: Address): Option<Chain> {
    match RunHops(c, fees, self, params.pools, params.amountIn, weth)
    case None => None
    case Some(ran) =>
      PaidRest(ran.chain, self, weth, loan, caller)
  }

  /** All but the loan goes to the caller. */
  function PaidRest(c: Chain, self: Address, weth: Address, loan: nat, caller: Address): Option<Chain> {
    var finalBalance := Balance(c.balances, weth, self);
    if loan >= MODULUS || finalBalance < loan then None else Sent(c, weth, self, caller, finalBalance - loan)
  }

  /** The lender lends, calls back, and takes the loan and its premium. */
  function Arbitraged(c: Chain, fees: Fees, self: Address, weth: Address, lender: Address, premium: Word,
                      params: SwapParams,
                      caller: Address): Option<Chain>
  {
    match Sent(c, weth, lender, self, params.amountIn)
    case None => None
    case Some(lent) =>
      match Executed(lent, fees, self, weth, params.amountIn + premium, params, caller)
      case None => None
      case Some(paid) => Sent(paid, weth, self, lender, params.amountIn + premium)
  }

  class FlashSwap {
    const address: Address
    const weth: Address
    const lender: Address
    var factoryFees: map<Address, Word>
    var owner: Address

    /** Too few fees, and the deployment reverts. */
    constructor (address: Address, lender: Address, sender: Address, weth: Address, factories: seq<Address>,
                 fees: seq<Word>)
      requires |factories| <= |fees|
      ensures this.address == address && this.lender == lender && this.weth == weth && owner == sender
      ensures forall f :: FeeIn(factoryFees, f) == LastFee(factories, fees, f)
    {
      this.address := address;
      this.lender := lender;
      this.weth := weth;
      factoryFees := map[];
      owner := sender;
      new;
      for i := 0 to |factories|
        invariant this.address == address && this.lender == lender && this.weth == weth && owner == sender
        invariant forall f :: FeeIn(factoryFees, f) == LastFee(factories[..i], fees, f)
      {
        assert factories[..i + 1][..i] == factories[..i];
        factoryFees := factoryFees[factories[i] := fees[i]];
      }
      assert factories[..|factories|] == factories;
    }

    method ExecuteOperation(evm: Evm, sender: Address, amount: Word, premium: Word, params: SwapParams, caller: Address)
      returns (ok: bool)
      requires OnlyV2(params)
      modifies evm
      ensures var r := Executed(old(evm.chain), FeesIn(factoryFees), address, weth, amount + premium, params, caller);
              ok == (sender == lender && r.Some?) && (ok ==> evm.chain == r.value)
    {
      if sender != lender {
        return false;
      }
      var amounts := RunLoop(evm, FeesIn(factoryFees), address, weth, params);
      if amounts.None? {
        return false;
      }
      ok := PayRest(evm, amount + premium, caller);
    }

    method PayRest(evm: Evm, amountToRepay: nat, caller: Address) returns (ok: bool)
      modifies evm
      ensures var r := PaidRest(old(evm.chain), address, weth, amountToRepay, caller);
              ok == r.Some? && (ok ==> evm.chain == r.value)
    {
      var finalBalance := Balance(evm.chain.balances, weth, address);
      if amountToRepay >= MODULUS || finalBalance < amountToRepay {
        return false;
      }
      ok := evm.TransferToken(weth, address, caller, finalBalance - amountToRepay);
    }

    /** The whole transaction: the lender's pool calls back, and a revert anywhere undoes everything. */
    method ExecuteArbitrage(evm: Evm, caller: Address, premium: Word, params: SwapParams) returns (ok: bool)
      requires OnlyV2(params)
      modifies evm
      ensures var r := Arbitraged(old(evm.chain), FeesIn(factoryFees), address, weth, lender, premium, params, caller);
              ok == r.Some? && evm.chain == if ok then r.value else old(evm.chain)
    {
      hide Executed, Sent;
      var start := evm.chain;
      ok := evm.TransferToken(weth, lender, address, params.amountIn);
      if ok {
        ok := ExecuteOperation(evm, lender, params.amountIn, premium, params, caller);
      }
      if ok {
        ok := evm.TransferToken(weth, address, lender, params.amountIn + premium);
      }
      if !ok {
        evm.chain := start;
      }
    }
  }
}
