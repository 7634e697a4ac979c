/** The paths found in a graph of V2-like pools are paths that the contracts can run. */
module FoundPaths {
  import opened ArbGraph
  import opened FlashContracts
  import opened Ledger
  import opened PathAgreement
  import opened Swaps

  /** The pools of the graph are pairs on chain, each listed once. */
  ghost predicate OnChain(pools: seq<Pool>, pairs: map<Address, Pair>) {
    && (forall pool :: pool in pools ==>
          pool.SimplePool? && pool.token0 != pool.token1 && pool.address in pairs
          && pairs[pool.address].token0 == pool.token0 && pairs[pool.address].token1 == pool.token1)
    && (forall a, b :: a in pools && b in pools && a.address == b.address ==> a == b)
  }

  /** The pool whose tokens a step trades. */
  ghost predicate StepOver(pool: Pool, s: SwapStep) {
    && pool.SimplePool? && s.pool == pool.address && s.protocol == pool.protocol
    && ((s.tokenIn == pool.token0 && s.tokenOut == pool.token1) || (s.tokenIn == pool.token1 && s.tokenOut == pool.token0))
  }

  lemma {:induction false} EdgeHasPool(pools: seq<Pool>, e: TokenEdge) returns (pool: Pool)
    requires e in EdgesOf(pools)
    ensures pool in pools && e in PoolEdges(pool)
    decreases |pools|
  {
    var n := |pools| - 1;
    if e in PoolEdges(pools[n]) {
      pool := pools[n];
    } else {
      pool := EdgeHasPool(pools[..n], e);
    }
  }

  lemma StepHasPool(pools: seq<Pool>, pairs: map<Address, Pair>, s: SwapStep) returns (pool: Pool)
    requires OnChain(pools, pairs) && StepOfPools(pools, s)
    ensures pool in pools && StepOver(pool, s)
  {
    var e :| e in EdgesOf(pools) && StepAlong(e, s);
    pool := EdgeHasPool(pools, e);
    EdgesAreTradablePairs(pool, e);
    var k: nat, l: nat :| ArbGraph.IsPair(pool, k, l, e);
    assert k == 0 && l == 1;
  }

  lemma NoReversal(pools: seq<Pool>, token: Address, maxHops: nat, path: SwapPath, i: nat, j: nat)
    requires IsTokenCycle(pools, token, maxHops, path) && i < j < |path|
    ensures path[j].tokenIn != path[i].tokenOut || path[j].tokenOut != path[i].tokenIn || path[j].protocol != path[i].protocol
  {
    if j > i + 1 {
      assert path[i + 1].tokenIn == path[i].tokenOut;
    } else if j + 1 < |path| {
      assert path[j + 1].tokenIn == path[j].tokenOut;
    } else if i > 0 {
      assert path[0].tokenIn == path[j].tokenOut;
    }
  }

  lemma TwoWays(pool: Pool, s: SwapStep, t: SwapStep)
    requires StepOver(pool, s) && StepOver(pool, t) && s.tokenIn != t.tokenIn
    ensures t.tokenIn == s.tokenOut && t.tokenOut == s.tokenIn && t.protocol == s.protocol
  {
  }

  /** A token cycle visits no pool twice. */
  lemma PoolsAreDistinct(pools: seq<Pool>, pairs: map<Address, Pair>, token: Address, maxHops: nat, path: SwapPath,
                         i: nat, j: nat)
    requires OnChain(pools, pairs) && IsTokenCycle(pools, token, maxHops, path) && i < j < |path|
    ensures path[i].pool != path[j].pool
  {
    var a := StepHasPool(pools, pairs, path[i]);
    var b := StepHasPool(pools, pairs, path[j]);
    NoReversal(pools, token, maxHops, path, i, j);
    if a == b {
      TwoWays(a, path[i], path[j]);
      assert false;
    }
  }

  lemma {:induction false} SuffixIsOver(pools: seq<Pool>, pairs: map<Address, Pair>, token: Address, maxHops: nat,
                                        path: SwapPath, i: nat)
    requires OnChain(pools, pairs) && IsTokenCycle(pools, token, maxHops, path) && i <= |path|
    ensures PathOver(pairs, path[i..], if i < |path| then path[i].tokenIn else token, token)
    decreases |path| - i
  {
    if i < |path| {
      var pool := StepHasPool(pools, pairs, path[i]);
      assert path[i..][0] == path[i] && path[i..][1..] == path[i + 1..];
      SuffixIsOver(pools, pairs, token, maxHops, path, i + 1);
    }
  }

  /** Every path that is found runs over its pools from the token back to it, and no pool comes up twice. */
  lemma {:induction false} FoundPathsRun(pools: seq<Pool>, pairs: map<Address, Pair>, token: Address, maxHops: nat,
                                         path: SwapPath)
    requires OnChain(pools, pairs) && IsTokenCycle(pools, token, maxHops, path)
    ensures PathOver(pairs, path, token, token) && Distinct(PoolsOf(path))
  {
    SuffixIsOver(pools, pairs, token, maxHops, path, 0);
    assert path[0..] == path;
    forall i, j | 0 <= i < j < |path| ensures PoolsOf(path)[i] != PoolsOf(path)[j] {
      PoolsAreDistinct(pools, pairs, token, maxHops, path, i, j);
    }
  }
}
