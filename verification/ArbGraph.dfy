/**
  The token graph: one node per token and one edge per tradable pair of a pool.  Building it keeps nodes and
  tokens in one-to-one correspondence, and the cycles found in it read as swap paths over tokens.
*/
module ArbGraph {
  import opened CycleSearch
  import opened Swaps

  datatype Pool =
    | SimplePool(address: Address, token0: Address, token1: Address, protocol: PoolType, fee: nat)
    | CurvePool(address: Address, tokens: seq<Address>, protocol: PoolType, fee: nat)
    | BalancerPool(address: Address, tokens: seq<Address>, balances: map<Address, nat>, protocol: PoolType, fee: nat)
  {
    function Info(): PoolInfo {
      PoolInfo(address, protocol, fee)
    }

    function Tokens(): seq<Address> {
      if SimplePool? then [token0, token1] else tokens
    }

    function Balance(token: Address): nat
      requires BalancerPool?
    {
      if token in balances then balances[token] else 0
    }

    /** A Balancer pair is tradable only with both balances nonzero. */
    predicate Tradable(a: Address, b: Address) {
      BalancerPool? ==> Balance(a) != 0 && Balance(b) != 0
    }
  }

  /** An edge named by its tokens. */
  datatype TokenEdge = TokenEdge(a: Address, b: Address, pool: PoolInfo)

  /** The tradable pairs (i, l) with i < l < j, in order. */
  function PairsWith(pool: Pool, i: nat, j: nat): seq<TokenEdge>
    requires i < j <= |pool.Tokens()|
  {
    if j == i + 1 then []
    else
      var a, b := pool.Tokens()[i], pool.Tokens()[j - 1];
      PairsWith(pool, i, j - 1) + if pool.Tradable(a, b) then [TokenEdge(a, b, pool.Info())] else []
  }

  /** The tradable pairs whose first token has an index below `n`. */
  function PairsBelow(pool: Pool, n: nat): seq<TokenEdge>
    requires n <= |pool.Tokens()|
  {
    if n == 0 then [] else PairsBelow(pool, n - 1) + PairsWith(pool, n - 1, |pool.Tokens()|)
  }

  function PoolEdges(pool: Pool): seq<TokenEdge> {
    PairsBelow(pool, |pool.Tokens()|)
  }

  function EdgesOf(pools: seq<Pool>): seq<TokenEdge> {
    if pools == [] then [] else EdgesOf(pools[..|pools| - 1]) + PoolEdges(pools[|pools| - 1])
  }

  ghost predicate IsPair(pool: Pool, k: nat, l: nat, e: TokenEdge) {
    k < l < |pool.Tokens()|
    && e == TokenEdge(pool.Tokens()[k], pool.Tokens()[l], pool.Info())
    && pool.Tradable(pool.Tokens()[k], pool.Tokens()[l])
  }

  /** The edges of a pool are exactly its tradable pairs of tokens, earlier token first. */
  lemma EdgesAreTradablePairs(pool: Pool, e: TokenEdge)
    ensures e in PoolEdges(pool) <==> exists k: nat, l: nat :: IsPair(pool, k, l, e)
  {
    PairsBelowArePairs(pool, |pool.Tokens()|, e);
    if k: nat, l: nat :| IsPair(pool, k, l, e) {
      assert HasPair(pool, k, e);
    }
  }

  ghost predicate HasPair(pool: Pool, k: nat, e: TokenEdge) {
    exists l: nat :: IsPair(pool, k, l, e)
  }

  lemma {:induction false} PairsBelowArePairs(pool: Pool, n: nat, e: TokenEdge)
    requires n <= |pool.Tokens()|
    ensures e in PairsBelow(pool, n) <==> exists k: nat :: k < n && HasPair(pool, k, e)
  {
    if n > 0 {
      var below, row := PairsBelow(pool, n - 1), PairsWith(pool, n - 1, |pool.Tokens()|);
      PairsBelowArePairs(pool, n - 1, e);
      RowHasPairs(pool, n - 1, e);
      assert e in below + row <==> e in below || e in row;
    }
  }

  lemma {:induction false} RowHasPairs(pool: Pool, i: nat, e: TokenEdge)
    requires i < |pool.Tokens()|
    ensures e in PairsWith(pool, i, |pool.Tokens()|) <==> HasPair(pool, i, e)
  {
    PairsWithArePairs(pool, i, |pool.Tokens()|, e);
  }

  lemma {:induction false} PairsWithArePairs(pool: Pool, i: nat, j: nat, e: TokenEdge)
    requires i < j <= |pool.Tokens()|
    ensures e in PairsWith(pool, i, j) <==> exists l: nat :: l < j && IsPair(pool, i, l, e)
  {
    if j > i + 1 {
      PairsWithArePairs(pool, i, j - 1, e);
      assert IsPair(pool, i, j - 1, e) <==> e in (if pool.Tradable(pool.Tokens()[i], pool.Tokens()[j - 1]) then
        [TokenEdge(pool.Tokens()[i], pool.Tokens()[j - 1], pool.Info())] else []);
    }
  }

  predicate ValidEdges(nodes: seq<Address>, edges: seq<Edge>) {
    forall e :: e in edges ==> e.a < |nodes| && e.b < |nodes|
  }

  /** The edges, read through the tokens of their nodes. */
  function Named(nodes: seq<Address>, edges: seq<Edge>): seq<TokenEdge>
    requires ValidEdges(nodes, edges)
  {
    if edges == [] then [] else
      var last := edges[|edges| - 1];
      assert last in edges;
      Named(nodes, edges[..|edges| - 1]) + [TokenEdge(nodes[last.a], nodes[last.b], last.pool)]
  }

  lemma {:induction false} NamedAt(nodes: seq<Address>, edges: seq<Edge>)
    requires ValidEdges(nodes, edges)
    ensures |Named(nodes, edges)| == |edges|
    ensures forall i :: 0 <= i < |edges| ==>
              edges[i] in edges && Named(nodes, edges)[i] == TokenEdge(nodes[edges[i].a], nodes[edges[i].b], edges[i].pool)
  {
    if edges != [] {
      NamedAt(nodes, edges[..|edges| - 1]);
    }
  }

  /** New nodes do not change what the edges are called. */
  lemma {:induction false} NamedWithMoreNodes(nodes: seq<Address>, more: seq<Address>, edges: seq<Edge>)
    requires ValidEdges(nodes, edges) && nodes <= more
    ensures ValidEdges(more, edges) && Named(more, edges) == Named(nodes, edges)
  {
    if edges != [] {
      assert edges[|edges| - 1] in edges;
      NamedWithMoreNodes(nodes, more, edges[..|edges| - 1]);
    }
  }

  lemma AppendTwice(a: seq<TokenEdge>, b: seq<TokenEdge>, c: seq<TokenEdge>)
    ensures (a + b) + c == a + (b + c)
  {
  }

  lemma RowByRow(pool: Pool, i: nat)
    requires i < |pool.Tokens()|
    ensures PairsWith(pool, i, i + 1) == []
    ensures PairsBelow(pool, i + 1) == PairsBelow(pool, i) + PairsWith(pool, i, |pool.Tokens()|)
  {
  }

  class Builder {
    var nodes: seq<Address>
    var edges: seq<Edge>
    var inserted: set<Address>
    ghost var named: seq<TokenEdge>

    /** Nodes are distinct tokens, `inserted` is the set of them, and `named` is how the edges read. */
    ghost predicate Valid()
      reads this
    {
      && Distinct(nodes) && (forall t :: t in inserted <==> t in nodes)
      && ValidEdges(nodes, edges) && named == Named(nodes, edges)
    }

    constructor ()
      ensures Valid() && nodes == [] && edges == [] && inserted == {} && named == []
    {
      nodes, edges, inserted, named := [], [], {}, [];
    }

    method AddNode(token: Address)
      requires Valid()
      modifies this`nodes, this`inserted
      ensures Valid() && inserted == old(inserted) + {token}
    {
      if token !in inserted {
        nodes := nodes + [token];
        inserted := inserted + {token};
      }
      NamedWithMoreNodes(old(nodes), nodes, edges);
    }

    /** The node whose token is `token`. */
    method NodeOf(token: Address) returns (n: nat)
      requires Valid() && token in inserted
      ensures n < |nodes| && nodes[n] == token
    {
      n := 0;
      while n < |nodes| && nodes[n] != token
        invariant n <= |nodes| && forall k :: 0 <= k < n ==> nodes[k] != token
      {
        n := n + 1;
      }
    }

    method AddEdge(token0: Address, token1: Address, pool: PoolInfo)
      requires Valid() && token0 in inserted && token1 in inserted
      modifies this`edges, this`named
      ensures Valid() && named == old(named) + [TokenEdge(token0, token1, pool)]
    {
      var node0 := NodeOf(token0);
      var node1 := NodeOf(token1);
      edges := edges + [Edge(node0, node1, pool)];
      named := named + [TokenEdge(token0, token1, pool)];
      assert edges[..|edges| - 1] == old(edges);
    }

    /** Nodes for all tokens of the pool, then an edge for every tradable pair of them. */
    method AddPool(pool: Pool)
      requires Valid()
      modifies this
      ensures Valid() && inserted == old(inserted) + set t | t in pool.Tokens()
      ensures named == old(named) + PoolEdges(pool)
    {
      AddNodes(pool.Tokens());
      AddAllPairs(pool);
    }

    method AddAllPairs(pool: Pool)
      requires Valid() && forall t :: t in pool.Tokens() ==> t in inserted
      modifies this`edges, this`named
      ensures Valid() && named == old(named) + PoolEdges(pool)
    {
      ghost var before := named;
      hide Valid;
      for i := 0 to |pool.Tokens()|
        invariant Valid() && named == before + PairsBelow(pool, i)
      {
        AddPairs(pool, i, before);
      }
    }

    method AddNodes(tokens: seq<Address>)
      requires Valid()
      modifies this`nodes, this`inserted
      ensures Valid() && inserted == old(inserted) + set t | t in tokens
    {
      for i := 0 to |tokens|
        invariant Valid() && inserted == old(inserted) + set t | t in tokens[..i]
      {
        AddNode(tokens[i]);
        assert tokens[..i + 1] == tokens[..i] + [tokens[i]];
      }
      assert tokens[..|tokens|] == tokens;
    }

    method AddPairs(pool: Pool, i: nat, ghost before: seq<TokenEdge>)
      requires Valid() && i < |pool.Tokens()| && forall t :: t in pool.Tokens() ==> t in inserted
      requires named == before + PairsBelow(pool, i)
      modifies this`edges, this`named
      ensures Valid() && named == before + PairsBelow(pool, i + 1)
    {
      hide Valid, PairsWith, PairsBelow;
      RowByRow(pool, i);
      ghost var row := named;
      for j := i + 1 to |pool.Tokens()|
        invariant Valid() && named == row + PairsWith(pool, i, j)
      {
        AddPair(pool, i, j, row);
      }
      AppendTwice(before, PairsBelow(pool, i), PairsWith(pool, i, |pool.Tokens()|));
    }

    /** The edge between two tokens of the pool, if that pair is tradable. */
    method AddPair(pool: Pool, i: nat, j: nat, ghost before: seq<TokenEdge>)
      requires Valid() && i < j < |pool.Tokens()| && forall t :: t in pool.Tokens() ==> t in inserted
      requires named == before + PairsWith(pool, i, j)
      modifies this`edges, this`named
      ensures Valid() && named == before + PairsWith(pool, i, j + 1)
    {
      hide Valid;
      var a, b := pool.Tokens()[i], pool.Tokens()[j];
      if pool.Tradable(a, b) {
        AddEdge(a, b, pool.Info());
        AppendTwice(before, PairsWith(pool, i, j), [TokenEdge(a, b, pool.Info())]);
      }
    }
  }

  function TokensOf(pools: seq<Pool>): set<Address> {
    set p, t | p in pools && t in p.Tokens() :: t
  }

  lemma TokensOfOneMore(pools: seq<Pool>, i: nat)
    requires i < |pools|
    ensures TokensOf(pools[..i + 1]) == TokensOf(pools[..i]) + set t | t in pools[i].Tokens()
    ensures EdgesOf(pools[..i + 1]) == EdgesOf(pools[..i]) + PoolEdges(pools[i])
  {
    var more := pools[..i + 1];
    assert more == pools[..i] + [pools[i]] && more[..|more| - 1] == pools[..i];
    assert pools[i] in more;
  }

  /** One node for each token of the pools, and the edges of the pools in order. */
  method BuildGraph(pools: seq<Pool>) returns (net: Net)
    ensures ValidNet(net) && Distinct(net.nodes)
    ensures forall t :: t in net.nodes <==> t in TokensOf(pools)
    ensures Named(net.nodes, net.edges) == EdgesOf(pools)
  {
    var graph := new Builder();
    for i := 0 to |pools|
      invariant graph.Valid() && graph.inserted == TokensOf(pools[..i])
      invariant graph.named == EdgesOf(pools[..i])
    {
      TokensOfOneMore(pools, i);
      graph.AddPool(pools[i]);
    }
    assert pools[..|pools|] == pools;
    return Net(graph.nodes, graph.edges);
  }

  // ----- cycles over tokens -----

  /** A step along an edge of the pools, in either direction. */
  ghost predicate StepOfPools(pools: seq<Pool>, s: SwapStep) {
    exists e :: e in EdgesOf(pools) && StepAlong(e, s)
  }

  predicate StepAlong(e: TokenEdge, s: SwapStep) {
    && s.pool == e.pool.address && s.protocol == e.pool.protocol && s.fee == e.pool.fee
    && ((s.tokenIn == e.a && s.tokenOut == e.b) || (s.tokenIn == e.b && s.tokenOut == e.a))
  }

  /** A swap path that leaves and re-enters `token`, visits no token twice, and trades only along pool edges. */
  ghost predicate IsTokenCycle(pools: seq<Pool>, token: Address, maxHops: nat, path: SwapPath) {
    && 2 <= |path| <= maxHops
    && path[0].tokenIn == token && path[|path| - 1].tokenOut == token
    && (forall i :: 0 < i < |path| ==> path[i].tokenIn == path[i - 1].tokenOut)
    && (forall i, j :: 0 <= i < j < |path| ==> path[i].tokenIn != path[j].tokenIn)
    && (|path| == 2 ==> path[0].protocol != path[1].protocol)
    && forall i :: 0 <= i < |path| ==> StepOfPools(pools, path[i])
  }

  /** Over a graph built from pools, every cycle of nodes is a cycle of tokens. */
  lemma {:induction false} CyclesAreTokenCycles(pools: seq<Pool>, net: Net, start: nat, maxHops: nat, p: seq<Hop>)
    requires ValidNet(net) && Distinct(net.nodes) && Named(net.nodes, net.edges) == EdgesOf(pools)
    requires start < |net.nodes| && IsArbCycle(net, start, maxHops, p)
    ensures IsTokenCycle(pools, net.nodes[start], maxHops, ToSteps(net, p))
  {
    var path := ToSteps(net, p);
    assert p[0] in p && p[|p| - 1] in p;
    forall i | 0 <= i < |p| ensures StepOfPools(pools, path[i]) {
      HopIsPoolStep(pools, net, p, i);
    }
    forall i | 0 < i < |p| ensures path[i].tokenIn == path[i - 1].tokenOut {
      assert p[i] in p && p[i - 1] in p;
    }
    forall i, j | 0 <= i < j < |p| ensures path[i].tokenIn != path[j].tokenIn {
      DistinctTokens(net, p, i, j);
    }
  }

  lemma {:induction false} HopIsPoolStep(pools: seq<Pool>, net: Net, p: seq<Hop>, i: nat)
    requires ValidNet(net) && Named(net.nodes, net.edges) == EdgesOf(pools) && ValidPath(net, p) && i < |p|
    ensures StepOfPools(pools, ToSteps(net, p)[i])
  {
    NamedAt(net.nodes, net.edges);
    assert p[i] in p;
    var e := EdgesOf(pools)[p[i].edge];
    assert e in EdgesOf(pools) && StepAlong(e, ToSteps(net, p)[i]);
  }

  lemma {:induction false} DistinctTokens(net: Net, p: seq<Hop>, i: nat, j: nat)
    requires ValidNet(net) && Distinct(net.nodes) && ValidPath(net, p) && i < j < |p| && p[i].source != p[j].source
    ensures ToSteps(net, p)[i].tokenIn != ToSteps(net, p)[j].tokenIn
  {
    assert p[i] in p && p[j] in p;
    assert net.edges[p[i].edge] in net.edges && net.edges[p[j].edge] in net.edges;
    assert net.nodes[p[i].source] != net.nodes[p[j].source];
  }

  /** No two edges between the same nodes belong to the same pool. */
  ghost predicate PoolsIdentifyEdges(net: Net) {
    forall e, f :: 0 <= e < f < |net.edges| && SameEnds(net.edges[e], net.edges[f]) ==>
      net.edges[e].pool.address != net.edges[f].pool.address
  }

  predicate SameEnds(e: Edge, f: Edge) {
    (e.a == f.a && e.b == f.b) || (e.a == f.b && e.b == f.a)
  }

  lemma {:induction false} StepsDetermineHops(net: Net, p: seq<Hop>, q: seq<Hop>)
    requires ValidNet(net) && Distinct(net.nodes) && PoolsIdentifyEdges(net)
    requires ValidPath(net, p) && ValidPath(net, q) && ToSteps(net, p) == ToSteps(net, q)
    ensures p == q
  {
    assert |p| == |ToSteps(net, p)| == |q|;
    forall i | 0 <= i < |p| ensures p[i] == q[i] {
      HopOfStep(net, p, q, i);
    }
  }

  lemma {:induction false} HopOfStep(net: Net, p: seq<Hop>, q: seq<Hop>, i: nat)
    requires ValidNet(net) && Distinct(net.nodes) && PoolsIdentifyEdges(net)
    requires ValidPath(net, p) && ValidPath(net, q) && i < |p| == |q| && ToSteps(net, p)[i] == ToSteps(net, q)[i]
    ensures p[i] == q[i]
  {
    var h, k := p[i], q[i];
    assert h in p && k in q;
    assert net.edges[h.edge] in net.edges && net.edges[k.edge] in net.edges;
    assert h.source == k.source && h.target == k.target;
    assert SameEnds(net.edges[h.edge], net.edges[k.edge]) && SameEnds(net.edges[k.edge], net.edges[h.edge]);
  }

  // ----- every token cycle is a cycle of nodes -----

  /** The hop that a step takes. */
  ghost predicate Takes(net: Net, h: Hop, s: SwapStep) {
    ValidNet(net) && IsHop(net, h) && ToStep(net, h) == s
  }

  lemma StepHasHop(pools: seq<Pool>, net: Net, s: SwapStep) returns (h: Hop)
    requires ValidNet(net) && Named(net.nodes, net.edges) == EdgesOf(pools) && StepOfPools(pools, s)
    ensures Takes(net, h, s)
  {
    NamedAt(net.nodes, net.edges);
    var named := EdgesOf(pools);
    var e :| e in named && StepAlong(e, s);
    var k :| 0 <= k < |named| && named[k] == e;
    var edge := net.edges[k];
    assert edge in net.edges;
    h := if s.tokenIn == e.a && s.tokenOut == e.b then Hop(k, edge.a, edge.b) else Hop(k, edge.b, edge.a);
  }

  lemma {:induction false} StepsHaveHops(pools: seq<Pool>, net: Net, path: SwapPath) returns (p: seq<Hop>)
    requires ValidNet(net) && Named(net.nodes, net.edges) == EdgesOf(pools)
    requires forall i :: 0 <= i < |path| ==> StepOfPools(pools, path[i])
    ensures |p| == |path| && forall i :: 0 <= i < |p| ==> Takes(net, p[i], path[i])
  {
    p := [];
    if path != [] {
      var h := StepHasHop(pools, net, path[0]);
      var rest := StepsHaveHops(pools, net, path[1..]);
      p := [h] + rest;
    }
  }

  lemma SameTokenSameNode(net: Net, a: nat, b: nat)
    requires Distinct(net.nodes) && a < |net.nodes| && b < |net.nodes| && net.nodes[a] == net.nodes[b]
    ensures a == b
  {
  }

  lemma TakesNodes(net: Net, h: Hop, s: SwapStep)
    requires Takes(net, h, s)
    ensures h.source < |net.nodes| && h.target < |net.nodes|
    ensures net.nodes[h.source] == s.tokenIn && net.nodes[h.target] == s.tokenOut && PoolOf(net, h).protocol == s.protocol
  {
    assert net.edges[h.edge] in net.edges;
  }

  lemma TokenCycleIsCycle(pools: seq<Pool>, net: Net, start: nat, maxHops: nat, path: SwapPath) returns (p: seq<Hop>)
    requires ValidNet(net) && Distinct(net.nodes) && Named(net.nodes, net.edges) == EdgesOf(pools)
    requires start < |net.nodes| && IsTokenCycle(pools, net.nodes[start], maxHops, path)
    ensures IsArbCycle(net, start, maxHops, p) && ToSteps(net, p) == path
  {
    p := StepsHaveHops(pools, net, path);
    forall i | 0 <= i < |p|
      ensures p[i].source < |net.nodes| && p[i].target < |net.nodes|
      ensures net.nodes[p[i].source] == path[i].tokenIn && net.nodes[p[i].target] == path[i].tokenOut
      ensures IsHop(net, p[i]) && PoolOf(net, p[i]).protocol == path[i].protocol
    {
      TakesNodes(net, p[i], path[i]);
    }
    assert ValidPath(net, p);
    forall i | 0 < i < |p| ensures p[i].source == p[i - 1].target {
      SameTokenSameNode(net, p[i].source, p[i - 1].target);
    }
    SameTokenSameNode(net, p[0].source, start);
    SameTokenSameNode(net, p[|p| - 1].target, start);
    assert Connected(p) && LengthAndTypes(net, maxHops, p);
    assert ToSteps(net, p) == path;
  }

  /**
    `generate_cycles`: the paths found are exactly the token cycles through the given token, and none is listed
    twice when pools identify edges.  None stands for a token that no pool trades, where the program aborts.
  */
  method GenerateCycles(pools: seq<Pool>, token: Address, maxHops: nat) returns (paths: seq<SwapPath>, found: bool,
                        ghost net: Net)
    ensures found <==> token in TokensOf(pools)
    ensures ValidNet(net) && Named(net.nodes, net.edges) == EdgesOf(pools) && Distinct(net.nodes)
    ensures found ==> forall path :: path in paths <==> IsTokenCycle(pools, token, maxHops, path)
    ensures found && PoolsIdentifyEdges(net) ==> Distinct(paths)
  {
    var graph := BuildGraph(pools);
    net := graph;
    paths := [];
    var startNode := 0;
    while startNode < |graph.nodes| && graph.nodes[startNode] != token
      invariant startNode <= |graph.nodes| && forall k :: 0 <= k < startNode ==> graph.nodes[k] != token
    {
      startNode := startNode + 1;
    }
    found := startNode < |graph.nodes|;
    if found {
      paths := FindAllArbitragePaths(graph, startNode, maxHops);
      assert graph.nodes[startNode] in graph.nodes;
      PathsAreTokenCyclesOnce(pools, graph, startNode, maxHops);
    }
  }

  lemma {:induction false} PathsAreTokenCyclesOnce(pools: seq<Pool>, net: Net, start: nat, maxHops: nat)
    requires ValidNet(net) && Distinct(net.nodes) && Named(net.nodes, net.edges) == EdgesOf(pools) && start < |net.nodes|
    ensures ValidPaths(net, FindCycles(net, start, maxHops))
    ensures var paths := AllSteps(net, FindCycles(net, start, maxHops));
            && (forall path :: path in paths <==> IsTokenCycle(pools, net.nodes[start], maxHops, path))
            && (PoolsIdentifyEdges(net) ==> Distinct(paths))
  {
    var cycles := FindCycles(net, start, maxHops);
    FindsEachCycleOnce(net, start, maxHops);
    var paths := AllSteps(net, cycles);
    forall path | path in paths ensures IsTokenCycle(pools, net.nodes[start], maxHops, path) {
      var i :| 0 <= i < |paths| && paths[i] == path;
      assert cycles[i] in cycles;
      CyclesAreTokenCycles(pools, net, start, maxHops, cycles[i]);
    }
    forall path | IsTokenCycle(pools, net.nodes[start], maxHops, path) ensures path in paths {
      var p := TokenCycleIsCycle(pools, net, start, maxHops, path);
      var i :| 0 <= i < |cycles| && cycles[i] == p;
      assert paths[i] in paths;
    }
    if PoolsIdentifyEdges(net) {
      DistinctCyclesReadDistinctly(net, cycles);
    }
  }

  lemma {:induction false} DistinctCyclesReadDistinctly(net: Net, cycles: seq<seq<Hop>>)
    requires ValidNet(net) && Distinct(net.nodes) && PoolsIdentifyEdges(net) && ValidPaths(net, cycles) && Distinct(cycles)
    ensures Distinct(AllSteps(net, cycles))
  {
    var paths := AllSteps(net, cycles);
    forall i, j | 0 <= i < j < |paths| ensures paths[i] != paths[j] {
      var p, q := cycles[i], cycles[j];
      assert p in cycles && q in cycles;
      if ToSteps(net, p) == ToSteps(net, q) {
        StepsDetermineHops(net, p, q);
      }
    }
  }
}
