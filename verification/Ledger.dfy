/**
  Token balances and constant-product pairs on chain.  The pair contract is external to the program; it is modelled
  after section 3.2.1 of the Uniswap v2 Core whitepaper, with a fee of its own.
*/
module Ledger {
  import opened Arithmetic
  import opened ConstantProduct
  import opened Outcomes
  import opened Swaps
  import opened U256

  datatype Holding = Holding(token: Address, owner: Address)

  type Balances = map<Holding, nat>

  datatype Pair = Pair(token0: Address, token1: Address, factory: Address, fee: Word, reserve0: Word, reserve1: Word)

  datatype Chain = Chain(balances: Balances, pairs: map<Address, Pair>)

  function Balance(b: Balances, token: Address, owner: Address): nat {
    if Holding(token, owner) in b then b[Holding(token, owner)] else 0
  }

  /** None is a revert. */
  function Transfer(b: Balances, token: Address, from: Address, to: Address, amount: nat): Option<Balances> {
    if Balance(b, token, from) < amount then None
    else
      var debited := b[Holding(token, from) := Balance(b, token, from) - amount];
      Some(debited[Holding(token, to) := Balance(debited, token, to) + amount])
  }

  /** The chain after a transfer. */
  function Sent(c: Chain, token: Address, from: Address, to: Address, amount: nat): Option<Chain> {
    match Transfer(c.balances, token, from, to, amount)
    case None => None
    case Some(b) => Some(c.(balances := b))
  }

  /** What a transfer of `amount` from another owner does to a balance. */
  function Delta(token: Address, from: Address, to: Address, amount: nat, t: Address, o: Address): int {
    (if t == token && o == to then amount else 0) - (if t == token && o == from then amount else 0)
  }

  lemma TransferMoves(b: Balances, token: Address, from: Address, to: Address, amount: nat)
    ensures var r := Transfer(b, token, from, to, amount);
            && (r.Some? <==> amount <= Balance(b, token, from))
            && (r.Some? ==> forall t, o :: Balance(r.value, t, o) == Balance(b, t, o) + Delta(token, from, to, amount, t, o))
  {
  }

  function TransferIfAny(b: Balances, token: Address, from: Address, to: Address, amount: nat): Option<Balances> {
    if amount == 0 then Some(b) else Transfer(b, token, from, to, amount)
  }

  /** What the pair received, judged by its balance. */
  function Received(balance: nat, reserve: nat, out: nat): nat {
    if balance > reserve - out then balance - (reserve - out) else 0
  }

  /** The fee-adjusted product of the new balances is not below that of the reserves. */
  predicate ProductCheck(p: Pair, balance0: nat, balance1: nat, in0: nat, in1: nat) {
    (balance0 * SCALAR - in0 * (SCALAR - p.fee)) * (balance1 * SCALAR - in1 * (SCALAR - p.fee))
      >= p.reserve0 * p.reserve1 * SCALAR * SCALAR
  }

  predicate Accepts(p: Pair, balance0: nat, balance1: nat, out0: nat, out1: nat) {
    var in0, in1 := Received(balance0, p.reserve0, out0), Received(balance1, p.reserve1, out1);
    (in0 > 0 || in1 > 0) && balance0 < RESERVE_BOUND && balance1 < RESERVE_BOUND && ProductCheck(p, balance0, balance1, in0, in1)
  }

  /** The pair pays out first, and then checks what it received. */
  function PairSwap(c: Chain, pool: Address, out0: nat, out1: nat, to: Address): Option<Chain> {
    if pool !in c.pairs then None
    else
      var p := c.pairs[pool];
      if (out0 == 0 && out1 == 0) || out0 >= p.reserve0 || out1 >= p.reserve1 || to == p.token0 || to == p.token1 then None
      else
        match TransferIfAny(c.balances, p.token0, pool, to, out0)
        case None => None
        case Some(b0) =>
          match TransferIfAny(b0, p.token1, pool, to, out1)
          case None => None
          case Some(b1) =>
            var balance0, balance1 := Balance(b1, p.token0, pool), Balance(b1, p.token1, pool);
            if Accepts(p, balance0, balance1, out0, out1)
            then Some(Chain(b1, c.pairs[pool := p.(reserve0 := balance0, reserve1 := balance1)]))
            else None
  }

  /** The pair's balances are its reserves. */
  predicate Synced(c: Chain, pool: Address) {
    pool in c.pairs
    && Balance(c.balances, c.pairs[pool].token0, pool) == c.pairs[pool].reserve0
    && Balance(c.balances, c.pairs[pool].token1, pool) == c.pairs[pool].reserve1
  }

  /** A pair that can trade. */
  predicate Liquid(p: Pair) {
    && p.token0 != p.token1 && p.fee <= SCALAR
    && 0 < p.reserve0 < RESERVE_BOUND && 0 < p.reserve1 < RESERVE_BOUND
  }
}
