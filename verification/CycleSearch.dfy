/**
  The backtracking search for arbitrage cycles.  `CyclesFrom` is the search as a function; `IsArbCycle` says,
  without recursion, which edge sequences are wanted.  The search finds each of them exactly once.
*/
module CycleSearch {
  import opened Swaps

  datatype PoolInfo = PoolInfo(address: Address, protocol: PoolType, fee: nat)

  /** An undirected edge between two node indices. */
  datatype Edge = Edge(a: nat, b: nat, pool: PoolInfo)

  /** Token of every node, and the edges. */
  datatype Net = Net(nodes: seq<Address>, edges: seq<Edge>)

  predicate ValidNet(net: Net) {
    forall e :: e in net.edges ==> e.a < |net.nodes| && e.b < |net.nodes|
  }

  /** An edge followed in one direction. */
  datatype Hop = Hop(edge: nat, source: nat, target: nat)

  predicate IsHop(net: Net, h: Hop) {
    h.edge < |net.edges| &&
    var e := net.edges[h.edge];
    (h.source == e.a && h.target == e.b) || (h.source == e.b && h.target == e.a)
  }

  function PoolOf(net: Net, h: Hop): PoolInfo
    requires h.edge < |net.edges|
  {
    net.edges[h.edge].pool
  }

  /** The edges at a node from index `k` on, each once, followed away from it. */
  function Incident(net: Net, node: nat, k: nat): (hops: seq<Hop>)
    requires k <= |net.edges|
    ensures forall h :: h in hops <==> IsHop(net, h) && h.source == node && h.edge >= k
    ensures Distinct(hops)
    decreases |net.edges| - k
  {
    if k == |net.edges| then []
    else
      var e := net.edges[k];
      var rest := Incident(net, node, k + 1);
      if e.a == node then [Hop(k, node, e.b)] + rest
      else if e.b == node then [Hop(k, node, e.a)] + rest
      else rest
  }

  // ----- the search as a function -----

  /** A path closes at length three or more, or at length two when the two pools differ in protocol. */
  predicate Closes(net: Net, path: seq<Hop>, h: Hop)
    requires h.edge < |net.edges| && (|path| > 0 ==> path[0].edge < |net.edges|)
  {
    |path| >= 2 || (|path| == 1 && PoolOf(net, path[0]).protocol != PoolOf(net, h).protocol)
  }

  predicate ValidPath(net: Net, path: seq<Hop>) {
    forall h :: h in path ==> IsHop(net, h)
  }

  function CyclesFrom(net: Net, start: nat, maxHops: nat, path: seq<Hop>, visited: set<nat>,
                      current: nat): seq<seq<Hop>>
    requires ValidPath(net, path)
    decreases maxHops - |path|, 1, 0
  {
    if |path| >= maxHops then [] else CyclesVia(net, start, maxHops, path, visited, Incident(net, current, 0))
  }

  /** The cycles found through the given next hops, in order. */
  function CyclesVia(net: Net, start: nat, maxHops: nat, path: seq<Hop>, visited: set<nat>,
                     hops: seq<Hop>): seq<seq<Hop>>
    requires ValidPath(net, path) && ValidPath(net, hops) && |path| < maxHops
    decreases maxHops - |path|, 0, |hops|
  {
    if hops == [] then []
    else Branch(net, start, maxHops, path, visited, hops[0]) + CyclesVia(net, start, maxHops, path, visited, hops[1..])
  }

  function Branch(net: Net, start: nat, maxHops: nat, path: seq<Hop>, visited: set<nat>, h: Hop): seq<seq<Hop>>
    requires ValidPath(net, path) && IsHop(net, h) && |path| < maxHops
    decreases maxHops - |path|, 0, 0
  {
    if h.target == start then
      (if |path| > 0 then assert path[0] in path; if Closes(net, path, h) then [path + [h]] else [] else [])
    else if h.target !in visited then
      CyclesFrom(net, start, maxHops, path + [h], visited + {h.target}, h.target)
    else
      []
  }

  // ----- soundness and completeness -----

  /** A way back to `start` through nodes that are new, the start excepted. */
  predicate Tail(net: Net, start: nat, visited: set<nat>, current: nat, suffix: seq<Hop>)
    decreases |suffix|
  {
    && suffix != [] && IsHop(net, suffix[0]) && suffix[0].source == current
    && var next := suffix[0].target;
       if |suffix| == 1 then next == start
       else next != start && next !in visited && Tail(net, start, visited + {next}, next, suffix[1..])
  }

  predicate LengthAndTypes(net: Net, maxHops: nat, p: seq<Hop>)
    requires ValidPath(net, p)
  {
    && 2 <= |p| <= maxHops
    && (|p| == 2 ==> assert p[0] in p && p[1] in p; PoolOf(net, p[0]).protocol != PoolOf(net, p[1]).protocol)
  }

  /** `p` extends `path` by a tail, and has an acceptable length and protocols. */
  predicate Wanted(net: Net, start: nat, maxHops: nat, path: seq<Hop>, visited: set<nat>, current: nat, p: seq<Hop>) {
    && path <= p && Tail(net, start, visited, current, p[|path|..])
    && ValidPath(net, p) && LengthAndTypes(net, maxHops, p)
  }

  /** What the search returns from a state is exactly what is wanted from it. */
  lemma {:induction false} FromIffWanted(net: Net, start: nat, maxHops: nat, path: seq<Hop>, visited: set<nat>,
                                         current: nat, p: seq<Hop>)
    requires ValidPath(net, path)
    ensures p in CyclesFrom(net, start, maxHops, path, visited, current) <==> Wanted(net, start, maxHops, path, visited, current, p)
    decreases maxHops - |path|, 1, 0
  {
    if |path| < maxHops {
      ViaIffWanted(net, start, maxHops, path, visited, current, Incident(net, current, 0), p);
    }
  }

  lemma {:induction false} ViaIffWanted(net: Net, start: nat, maxHops: nat, path: seq<Hop>, visited: set<nat>,
                                        current: nat, hops: seq<Hop>, p: seq<Hop>)
    requires ValidPath(net, path) && ValidPath(net, hops) && |path| < maxHops
    requires forall h :: h in hops ==> h.source == current
    ensures p in CyclesVia(net, start, maxHops, path, visited, hops)
       <==> Wanted(net, start, maxHops, path, visited, current, p) && p[|path|] in hops
    decreases maxHops - |path|, 0, |hops|
  {
    if hops != [] {
      BranchIffWanted(net, start, maxHops, path, visited, current, hops[0], p);
      ViaIffWanted(net, start, maxHops, path, visited, current, hops[1..], p);
    }
  }

  lemma {:induction false} BranchIffWanted(net: Net, start: nat, maxHops: nat, path: seq<Hop>, visited: set<nat>,
                                           current: nat, h: Hop, p: seq<Hop>)
    requires ValidPath(net, path) && IsHop(net, h) && h.source == current && |path| < maxHops
    ensures p in Branch(net, start, maxHops, path, visited, h)
       <==> Wanted(net, start, maxHops, path, visited, current, p) && p[|path|] == h
    decreases maxHops - |path|, 0, 0
  {
    var longer := path + [h];
    if h.target != start && h.target !in visited {
      FromIffWanted(net, start, maxHops, longer, visited + {h.target}, h.target, p);
    }
    if path <= p && |p| > |path| && p[|path|] == h {
      assert longer <= p && p[|path|..][1..] == p[|longer|..];
      assert |p| == |longer| ==> p == longer;
    }
    if longer <= p {
      assert path <= p && p[|path|] == h && p[|path|..][1..] == p[|longer|..];
    }
  }

  // ----- exactly once -----

  lemma {:induction false} FromDistinct(net: Net, start: nat, maxHops: nat, path: seq<Hop>, visited: set<nat>,
                                        current: nat)
    requires ValidPath(net, path)
    ensures Distinct(CyclesFrom(net, start, maxHops, path, visited, current))
    decreases maxHops - |path|, 1, 0
  {
    if |path| < maxHops {
      ViaDistinct(net, start, maxHops, path, visited, current, Incident(net, current, 0));
    }
  }

  lemma {:induction false} ViaDistinct(net: Net, start: nat, maxHops: nat, path: seq<Hop>, visited: set<nat>,
                                       current: nat, hops: seq<Hop>)
    requires ValidPath(net, path) && ValidPath(net, hops) && |path| < maxHops
    requires Distinct(hops) && forall h :: h in hops ==> h.source == current
    ensures Distinct(CyclesVia(net, start, maxHops, path, visited, hops))
    decreases maxHops - |path|, 0, |hops|
  {
    if hops != [] {
      var first, rest := Branch(net, start, maxHops, path, visited, hops[0]), CyclesVia(net, start, maxHops, path, visited, hops[1..]);
      if hops[0].target != start && hops[0].target !in visited {
        FromDistinct(net, start, maxHops, path + [hops[0]], visited + {hops[0].target}, hops[0].target);
      }
      ViaDistinct(net, start, maxHops, path, visited, current, hops[1..]);
      forall p | p in first ensures p !in rest {
        BranchIffWanted(net, start, maxHops, path, visited, current, hops[0], p);
        ViaIffWanted(net, start, maxHops, path, visited, current, hops[1..], p);
      }
      DistinctConcat(first, rest);
    }
  }

  // ----- what the cycles are -----

  predicate Connected(p: seq<Hop>) {
    forall i :: 0 < i < |p| ==> p[i].source == p[i - 1].target
  }

  /** The tail, spelled out by position. */
  predicate SpelledTail(net: Net, start: nat, visited: set<nat>, current: nat, s: seq<Hop>) {
    && s != [] && ValidPath(net, s) && Connected(s)
    && s[0].source == current && s[|s| - 1].target == start
    && (forall i :: 0 < i < |s| ==> s[i].source != start && s[i].source !in visited)
    && (forall i, j :: 0 < i < j < |s| ==> s[i].source != s[j].source)
  }

  /** Spelling out a tail that starts with `h` and goes on with `rest`. */
  lemma SpelledStep(net: Net, start: nat, visited: set<nat>, current: nat, h: Hop, rest: seq<Hop>)
    requires rest != [] && IsHop(net, h) && h.source == current && h.target != start && h.target !in visited
    requires SpelledTail(net, start, visited + {h.target}, h.target, rest)
    ensures SpelledTail(net, start, visited, current, [h] + rest)
  {
    var s := [h] + rest;
    forall i | 0 < i < |s| ensures s[i].source == s[i - 1].target && s[i].source != start && s[i].source !in visited {
      assert s[i] == rest[i - 1] && (i > 1 ==> s[i - 1] == rest[i - 2]);
    }
    forall i, j | 0 < i < j < |s| ensures s[i].source != s[j].source {
      assert s[i] == rest[i - 1] && s[j] == rest[j - 1];
    }
  }

  lemma SpelledRest(net: Net, start: nat, visited: set<nat>, current: nat, s: seq<Hop>)
    requires |s| > 1 && SpelledTail(net, start, visited, current, s)
    ensures IsHop(net, s[0]) && s[0].target != start && s[0].target !in visited
    ensures SpelledTail(net, start, visited + {s[0].target}, s[0].target, s[1..])
  {
    var rest := s[1..];
    assert s[0] in s && s[1].source == s[0].target;
    forall i | 0 < i < |rest|
      ensures rest[i].source == rest[i - 1].target && rest[i].source != start && rest[i].source !in visited + {s[0].target}
    {
      assert rest[i] == s[i + 1] && rest[i - 1] == s[i];
    }
    forall i, j | 0 < i < j < |rest| ensures rest[i].source != rest[j].source {
      assert rest[i] == s[i + 1] && rest[j] == s[j + 1];
    }
  }

  lemma {:induction false} TailIsSpelled(net: Net, start: nat, visited: set<nat>, current: nat, s: seq<Hop>)
    ensures Tail(net, start, visited, current, s) <==> SpelledTail(net, start, visited, current, s)
    decreases |s|
  {
    if |s| > 1 {
      TailIsSpelled(net, start, visited + {s[0].target}, s[0].target, s[1..]);
      assert s == [s[0]] + s[1..];
      if Tail(net, start, visited, current, s) {
        SpelledStep(net, start, visited, current, s[0], s[1..]);
      }
      if SpelledTail(net, start, visited, current, s) {
        SpelledRest(net, start, visited, current, s);
      }
    } else if |s| == 1 {
      assert s == [s[0]];
    }
  }

  /**
    The cycles that are wanted: closed at the start node, made of connected hops of the graph, through distinct
    nodes, of length 2 to `maxHops`, and with two different protocols when the length is 2.
  */
  predicate IsArbCycle(net: Net, start: nat, maxHops: nat, p: seq<Hop>) {
    && ValidPath(net, p) && LengthAndTypes(net, maxHops, p)
    && Connected(p) && p[0].source == start && p[|p| - 1].target == start
    && forall i, j :: 0 <= i < j < |p| ==> p[i].source != p[j].source
  }

  /** `find_all_arbitrage_paths`, before hops are turned into swap steps. */
  function FindCycles(net: Net, start: nat, maxHops: nat): seq<seq<Hop>> {
    CyclesFrom(net, start, maxHops, [], {}, start)
  }

  /** Every wanted cycle is found exactly once, and nothing else is found. */
  lemma FindsEachCycleOnce(net: Net, start: nat, maxHops: nat)
    ensures Distinct(FindCycles(net, start, maxHops))
    ensures forall p :: p in FindCycles(net, start, maxHops) <==> IsArbCycle(net, start, maxHops, p)
  {
    FromDistinct(net, start, maxHops, [], {}, start);
    forall p ensures p in FindCycles(net, start, maxHops) <==> IsArbCycle(net, start, maxHops, p) {
      FromIffWanted(net, start, maxHops, [], {}, start, p);
      TailIsSpelled(net, start, {}, start, p);
      assert p[0..] == p;
    }
  }

  /** A cycle uses no edge twice. */
  lemma NoEdgeTwice(net: Net, start: nat, maxHops: nat, p: seq<Hop>)
    requires IsArbCycle(net, start, maxHops, p)
    ensures forall i, j :: 0 <= i < j < |p| ==> p[i].edge != p[j].edge
  {
    forall i, j | 0 <= i < j < |p| ensures p[i].edge != p[j].edge {
      assert p[i] in p && p[j] in p;
      assert p[i + 1].source == p[i].target && (j + 1 < |p| ==> p[j + 1].source == p[j].target);
    }
  }

  // ----- swap steps -----

  function ToStep(net: Net, h: Hop): SwapStep
    requires ValidNet(net) && IsHop(net, h)
  {
    var pool := PoolOf(net, h);
    assert net.edges[h.edge] in net.edges;
    SwapStep(pool.address, net.nodes[h.source], net.nodes[h.target], pool.protocol, pool.fee)
  }

  function ToSteps(net: Net, p: seq<Hop>): (steps: SwapPath)
    requires ValidNet(net) && ValidPath(net, p)
    ensures |steps| == |p| && forall i :: 0 <= i < |p| ==> steps[i] == ToStep(net, p[i])
  {
    if p == [] then [] else ToSteps(net, p[..|p| - 1]) + [ToStep(net, p[|p| - 1])]
  }

  predicate ValidPaths(net: Net, ps: seq<seq<Hop>>) {
    forall p :: p in ps ==> ValidPath(net, p)
  }

  function AllSteps(net: Net, ps: seq<seq<Hop>>): (paths: seq<SwapPath>)
    requires ValidNet(net) && ValidPaths(net, ps)
    ensures |paths| == |ps| && forall i :: 0 <= i < |ps| ==> paths[i] == ToSteps(net, ps[i])
  {
    if ps == [] then [] else [ToSteps(net, ps[0])] + AllSteps(net, ps[1..])
  }

  lemma {:induction false} CyclesAreValidPaths(net: Net, start: nat, maxHops: nat, path: seq<Hop>, visited: set<nat>,
                                               current: nat, hops: seq<Hop>)
    requires ValidPath(net, path)
    ensures ValidPaths(net, CyclesFrom(net, start, maxHops, path, visited, current))
    ensures ValidPath(net, hops) && |path| < maxHops && (forall h :: h in hops ==> h.source == current) ==>
              ValidPaths(net, CyclesVia(net, start, maxHops, path, visited, hops))
  {
    forall p | p in CyclesFrom(net, start, maxHops, path, visited, current) ensures ValidPath(net, p) {
      FromIffWanted(net, start, maxHops, path, visited, current, p);
    }
    if ValidPath(net, hops) && |path| < maxHops && (forall h :: h in hops ==> h.source == current) {
      forall p | p in CyclesVia(net, start, maxHops, path, visited, hops) ensures ValidPath(net, p) {
        ViaIffWanted(net, start, maxHops, path, visited, current, hops, p);
      }
    }
  }

  lemma {:induction false} AllStepsConcat(net: Net, a: seq<seq<Hop>>, b: seq<seq<Hop>>)
    requires ValidNet(net) && ValidPaths(net, a) && ValidPaths(net, b)
    ensures ValidPaths(net, a + b) && AllSteps(net, a + b) == AllSteps(net, a) + AllSteps(net, b)
  {
    assert ValidPaths(net, a + b);
  }

  // ----- the search as the program runs it -----

  /** What has been collected and what the remaining hops will add make up the whole. */
  ghost predicate Remaining(net: Net, start: nat, maxHops: nat, path: seq<Hop>, visited: set<nat>, hops: seq<Hop>,
                            collected: seq<SwapPath>, whole: seq<SwapPath>) {
    && ValidNet(net) && ValidPath(net, path) && ValidPath(net, hops) && |path| < maxHops
    && var rest := CyclesVia(net, start, maxHops, path, visited, hops);
       ValidPaths(net, rest) && collected + AllSteps(net, rest) == whole
  }

  lemma {:induction false} RemainingStep(net: Net, start: nat, maxHops: nat, path: seq<Hop>, visited: set<nat>,
                                         hops: seq<Hop>, i: nat,
                      collected: seq<SwapPath>, whole: seq<SwapPath>)
    requires i < |hops| && Remaining(net, start, maxHops, path, visited, hops[i..], collected, whole)
    ensures IsHop(net, hops[i])
    ensures var branch := Branch(net, start, maxHops, path, visited, hops[i]);
            && ValidPaths(net, branch)
            && Remaining(net, start, maxHops, path, visited, hops[i + 1..], collected + AllSteps(net, branch), whole)
  {
    var left, after := hops[i..], hops[i + 1..];
    assert left[0] == hops[i] && left[1..] == after && left[0] in left;
    assert ValidPath(net, after) by {
      assert forall h :: h in after ==> h in left;
    }
    var branch := Branch(net, start, maxHops, path, visited, hops[i]);
    var others := CyclesVia(net, start, maxHops, path, visited, after);
    assert CyclesVia(net, start, maxHops, path, visited, left) == branch + others;
    SplitValidPaths(net, branch, others);
    AllStepsConcat(net, branch, others);
    assert collected + (AllSteps(net, branch) + AllSteps(net, others)) == (collected + AllSteps(net, branch)) + AllSteps(net, others);
  }

  class Search {
    const net: Net
    const start: nat
    const maxHops: nat
    var currentPath: seq<Hop>
    var visited: set<nat>
    var allPaths: seq<SwapPath>

    constructor (net: Net, start: nat, maxHops: nat)
      ensures this.net == net && this.start == start && this.maxHops == maxHops
      ensures currentPath == [] && visited == {} && allPaths == []
    {
      this.net, this.start, this.maxHops := net, start, maxHops;
      currentPath, visited, allPaths := [], {}, [];
    }

    /** Appends the cycles found from `current`, in order, and leaves the path and the visited set as they were. */
    method ConstructCycles(current: nat)
      requires ValidNet(net) && ValidPath(net, currentPath)
      modifies this
      ensures currentPath == old(currentPath) && visited == old(visited)
      ensures var found := CyclesFrom(net, start, maxHops, old(currentPath), old(visited), current);
              ValidPaths(net, found) && allPaths == old(allPaths) + AllSteps(net, found)
      decreases maxHops - |currentPath|, 1
    {
      if |currentPath| >= maxHops {
        return;
      }
      var edges := Incident(net, current, 0);
      CyclesAreValidPaths(net, start, maxHops, currentPath, visited, current, edges);
      ghost var whole := allPaths + AllSteps(net, CyclesVia(net, start, maxHops, currentPath, visited, edges));
      for i := 0 to |edges|
        invariant currentPath == old(currentPath) && visited == old(visited)
        invariant Remaining(net, start, maxHops, currentPath, visited, edges[i..], allPaths, whole)
      {
        RemainingStep(net, start, maxHops, currentPath, visited, edges, i, allPaths, whole);
        Follow(edges[i]);
      }
    }

    /** One pass of the loop: close a cycle at the start, or go on from a new node and come back. */
    method Follow(edge: Hop)
      requires ValidNet(net) && ValidPath(net, currentPath) && IsHop(net, edge) && |currentPath| < maxHops
      modifies this
      ensures currentPath == old(currentPath) && visited == old(visited)
      ensures var found := Branch(net, start, maxHops, old(currentPath), old(visited), edge);
              ValidPaths(net, found) && allPaths == old(allPaths) + AllSteps(net, found)
      decreases maxHops - |currentPath|, 0
    {
      var next := edge.target;
      if next == start {
        if |currentPath| > 0 {
          assert currentPath[0] in currentPath;
          if |currentPath| >= 2 || (|currentPath| == 1 && PoolOf(net, currentPath[0]).protocol != PoolOf(net, edge).protocol) {
            var newPath := currentPath + [edge];
            var swapPath := BuildSwapPath(net, newPath);
            allPaths := allPaths + [swapPath];
            assert AllSteps(net, [newPath]) == [ToSteps(net, newPath)];
          }
        }
      } else if next !in visited {
        ghost var path, seen := currentPath, visited;
        currentPath := currentPath + [edge];
        visited := visited + {next};
        ConstructCycles(next);
        currentPath := currentPath[..|currentPath| - 1];
        visited := visited - {next};
        assert currentPath == path && visited == seen;
      }
    }
  }

  lemma SplitValidPaths(net: Net, a: seq<seq<Hop>>, b: seq<seq<Hop>>)
    requires ValidPaths(net, a + b)
    ensures ValidPaths(net, a) && ValidPaths(net, b)
  {
    forall p | p in a || p in b ensures ValidPath(net, p) {
      assert p in a + b;
    }
  }

  /** The swap steps of a path of hops. */
  method BuildSwapPath(net: Net, path: seq<Hop>) returns (swapPath: SwapPath)
    requires ValidNet(net) && ValidPath(net, path)
    ensures swapPath == ToSteps(net, path)
  {
    swapPath := [];
    for j := 0 to |path|
      invariant swapPath == ToSteps(net, path[..j])
    {
      assert path[j] in path && net.edges[path[j].edge] in net.edges;
      var pool := PoolOf(net, path[j]);
      swapPath := swapPath + [SwapStep(pool.address, net.nodes[path[j].source], net.nodes[path[j].target], pool.protocol, pool.fee)];
      assert path[..j + 1][..j] == path[..j];
    }
    assert path[..|path|] == path;
  }

  method FindAllArbitragePaths(net: Net, startNode: nat, maxHops: nat) returns (paths: seq<SwapPath>)
    requires ValidNet(net)
    ensures var found := FindCycles(net, startNode, maxHops); ValidPaths(net, found) && paths == AllSteps(net, found)
  {
    var search := new Search(net, startNode, maxHops);
    search.ConstructCycles(startNode);
    return search.allPaths;
  }
}
