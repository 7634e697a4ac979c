/** Pool protocols, swap steps and swap paths. */
module Swaps {

  type Address = nat

  datatype PoolType =
    | UniswapV2 | SushiSwapV2 | SwapBasedV2
    | PancakeSwapV2 | BaseSwapV2 | DackieSwapV2
    | AlienBaseV2
    | UniswapV3 | SushiSwapV3 | BaseSwapV3 | Slipstream | PancakeSwapV3 | AlienBaseV3 | SwapBasedV3 | DackieSwapV3
    | Aerodrome
    | MaverickV1 | MaverickV2
    | BalancerV2
    | CurveTwoCrypto | CurveTriCrypto
  {
    predicate IsV3() {
      this in {UniswapV3, SushiSwapV3, BaseSwapV3, Slipstream, PancakeSwapV3, AlienBaseV3, SwapBasedV3, DackieSwapV3}
    }
  }

  datatype SwapStep = SwapStep(pool: Address, tokenIn: Address, tokenOut: Address, protocol: PoolType, fee: nat)

  /** The steps of a path; the hash the program stores beside them plays no part here. */
  type SwapPath = seq<SwapStep>

  predicate Distinct<T(==)>(s: seq<T>) {
    forall i, j :: 0 <= i < j < |s| ==> s[i] != s[j]
  }

  lemma DistinctConcat<T>(a: seq<T>, b: seq<T>)
    requires Distinct(a) && Distinct(b)
    requires forall x :: x in a ==> x !in b
    ensures Distinct(a + b)
  {
    forall i, j | 0 <= i < j < |a + b| ensures (a + b)[i] != (a + b)[j] {
      if i < |a| && j >= |a| {
        assert a[i] in a && b[j - |a|] in b;
      }
    }
  }
}
