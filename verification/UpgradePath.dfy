/**
 The per-platform upgrade graphs and the shortest chain between two versions. The call into
 the graph library is written out as Dijkstra's algorithm and verified against the definition of a
 minimum-weight chain.
*/
module UpgradePath {
  import opened Prelude

  type Version = string
  type Chain = seq<Version>

  datatype EdgeSpec = EdgeSpec(fromVersion: Version, toVersion: Version, weight: nat)

  datatype Graph = Graph(nodes: set<Version>, weight: map<(Version, Version), nat>)

  ghost predicate WellFormed(g: Graph) {
    forall u, v :: (u, v) in g.weight ==> u in g.nodes && v in g.nodes
  }

  // ---- chains --------------------------------------------------------------

  /** A chain is a nonempty sequence of versions whose neighbours are joined by edges. */
  predicate IsChain(g: Graph, p: Chain) {
    p != [] && forall i :: 0 <= i < |p| - 1 ==> (p[i], p[i + 1]) in g.weight
  }

  predicate Connects(g: Graph, p: Chain, from: Version, to: Version) {
    IsChain(g, p) && p[0] == from && p[|p| - 1] == to
  }

  function Cost(g: Graph, p: Chain): nat
    requires IsChain(g, p)
  {
    if |p| == 1 then 0
    else
      assert IsChain(g, p[..|p| - 1]);
      Cost(g, p[..|p| - 1]) + g.weight[(p[|p| - 2], p[|p| - 1])]
  }

  ghost predicate IsShortest(g: Graph, p: Chain, from: Version, to: Version) {
    Connects(g, p, from, to) && forall q :: Connects(g, q, from, to) ==> Cost(g, p) <= Cost(g, q)
  }

  lemma ExtendChain(g: Graph, p: Chain, v: Version)
    requires IsChain(g, p) && (p[|p| - 1], v) in g.weight
    ensures IsChain(g, p + [v])
    ensures Cost(g, p + [v]) == Cost(g, p) + g.weight[(p[|p| - 1], v)]
  {
    assert (p + [v])[..|p|] == p;
  }

  lemma {:induction false} PrefixIsCheaper(g: Graph, p: Chain, n: nat)
    requires IsChain(g, p) && 0 < n <= |p|
    ensures IsChain(g, p[..n]) && Cost(g, p[..n]) <= Cost(g, p)
    decreases |p|
  {
    if n == |p| {
      assert p[..n] == p;
    } else {
      assert IsChain(g, p[..|p| - 1]);
      PrefixIsCheaper(g, p[..|p| - 1], n);
      assert p[..|p| - 1][..n] == p[..n];
    }
  }

  lemma OnlyNodesConnect(g: Graph, from: Version, to: Version)
    requires WellFormed(g) && from != to
    ensures (exists p :: Connects(g, p, from, to)) ==> from in g.nodes && to in g.nodes
  {
    forall p | Connects(g, p, from, to) ensures from in g.nodes && to in g.nodes {
      assert (p[0], p[0 + 1]) in g.weight && (p[|p| - 2], p[|p| - 2 + 1]) in g.weight;
    }
  }

  // ---- Dijkstra ------------------------------------------------------------

  /** `best` records, for each of its versions, a chain from `source`. */
  ghost predicate Recorded(g: Graph, source: Version, best: map<Version, Chain>) {
    forall v :: v in best ==> Connects(g, best[v], source, v)
  }

  ghost predicate AllShortest(g: Graph, source: Version, settled: map<Version, Chain>) {
    forall v :: v in settled ==> IsShortest(g, settled[v], source, v)
  }

  /** Every edge that leaves a settled version is accounted for, at no more than its price. */
  ghost predicate Relaxed(g: Graph, source: Version, settled: map<Version, Chain>, fringe: map<Version, Chain>)
    requires Recorded(g, source, settled) && Recorded(g, source, fringe)
  {
    forall u, v :: u in settled && (u, v) in g.weight && v !in settled ==>
      v in fringe && Cost(g, fringe[v]) <= Cost(g, settled[u]) + g.weight[(u, v)]
  }

  /** A chain that leaves the settled set pays at least for some fringe version on its way. */
  lemma {:induction false} ChainCrossesFringe(g: Graph, source: Version, settled: map<Version, Chain>,
                                              fringe: map<Version, Chain>, q: Chain) returns (x: Version)
    requires Recorded(g, source, settled) && Recorded(g, source, fringe)
    requires AllShortest(g, source, settled) && Relaxed(g, source, settled, fringe)
    requires source in settled || (source in fringe && Cost(g, fringe[source]) == 0)
    requires IsChain(g, q) && q[0] == source && q[|q| - 1] !in settled
    ensures x in fringe && Cost(g, fringe[x]) <= Cost(g, q)
  {
    if |q| == 1 {
      x := source;
    } else {
      var most := q[..|q| - 1];
      assert IsChain(g, most);
      var u := most[|most| - 1];
      if u in settled {
        x := q[|q| - 1];
        assert Connects(g, most, source, u);
      } else {
        x := ChainCrossesFringe(g, source, settled, fringe, most);
      }
    }
  }

  /** The cheapest fringe version is reached by a shortest chain. */
  lemma CheapestIsShortest(g: Graph, source: Version, settled: map<Version, Chain>, fringe: map<Version, Chain>,
                           u: Version)
    requires Recorded(g, source, settled) && Recorded(g, source, fringe)
    requires AllShortest(g, source, settled) && Relaxed(g, source, settled, fringe)
    requires source in settled || (source in fringe && Cost(g, fringe[source]) == 0)
    requires u in fringe && u !in settled
    requires forall v :: v in fringe ==> Cost(g, fringe[u]) <= Cost(g, fringe[v])
    ensures IsShortest(g, fringe[u], source, u)
  {
    forall q | Connects(g, q, source, u) ensures Cost(g, fringe[u]) <= Cost(g, q) {
      var x := ChainCrossesFringe(g, source, settled, fringe, q);
    }
  }

  method PickCheapest(g: Graph, ghost source: Version, fringe: map<Version, Chain>) returns (u: Version)
    requires Recorded(g, source, fringe) && fringe != map[]
    ensures u in fringe && forall v :: v in fringe ==> Cost(g, fringe[u]) <= Cost(g, fringe[v])
  {
    assert fringe.Keys != {};
    u :| u in fringe.Keys;
    var todo := fringe.Keys - {u};
    while todo != {}
      invariant u in fringe && todo <= fringe.Keys
      invariant forall v :: v in fringe && v !in todo ==> Cost(g, fringe[u]) <= Cost(g, fringe[v])
    {
      var v :| v in todo;
      if Cost(g, fringe[v]) < Cost(g, fringe[u]) {
        u := v;
      }
      todo := todo - {v};
    }
  }

  /** Offers every edge out of the newly settled `u` to the fringe. */
  method Relax(g: Graph, ghost source: Version, settled: map<Version, Chain>, fringe: map<Version, Chain>, u: Version)
    returns (next: map<Version, Chain>)
    requires WellFormed(g) && u in settled
    requires Recorded(g, source, settled) && Recorded(g, source, fringe)
    requires fringe.Keys !! settled.Keys && fringe.Keys <= g.nodes
    ensures Recorded(g, source, next) && next.Keys !! settled.Keys && fringe.Keys <= next.Keys <= g.nodes
    ensures forall v :: v in fringe ==> Cost(g, next[v]) <= Cost(g, fringe[v])
    ensures forall v :: (u, v) in g.weight && v !in settled ==>
              v in next && Cost(g, next[v]) <= Cost(g, settled[u]) + g.weight[(u, v)]
  {
    next := fringe;
    var todo := set v | v in g.nodes && (u, v) in g.weight && v !in settled;
    while todo != {}
      invariant forall v :: v in todo ==> v in g.nodes && (u, v) in g.weight && v !in settled
      invariant Recorded(g, source, next) && next.Keys !! settled.Keys && fringe.Keys <= next.Keys <= g.nodes
      invariant forall v :: v in fringe ==> Cost(g, next[v]) <= Cost(g, fringe[v])
      invariant forall v :: (u, v) in g.weight && v !in settled && v !in todo ==>
                  v in next && Cost(g, next[v]) <= Cost(g, settled[u]) + g.weight[(u, v)]
    {
      var v :| v in todo;
      ExtendChain(g, settled[u], v);
      var p := settled[u] + [v];
      if v !in next || Cost(g, p) < Cost(g, next[v]) {
        next := next[v := p];
      }
      todo := todo - {v};
    }
  }

  /** Dijkstra: a chain of minimum weight, or none when the target cannot be reached at all. */
  method Dijkstra(g: Graph, source: Version, target: Version) returns (r: Option<Chain>)
    requires WellFormed(g) && source in g.nodes
    ensures r.Some? ==> IsShortest(g, r.value, source, target)
    ensures r.None? ==> !exists p :: Connects(g, p, source, target)
  {
    var settled: map<Version, Chain> := map[];
    var fringe: map<Version, Chain> := map[source := [source]];
    while fringe != map[]
      invariant settled.Keys <= g.nodes && fringe.Keys <= g.nodes && fringe.Keys !! settled.Keys
      invariant Recorded(g, source, settled) && Recorded(g, source, fringe)
      invariant AllShortest(g, source, settled) && Relaxed(g, source, settled, fringe)
      invariant source in settled || (source in fringe && Cost(g, fringe[source]) == 0)
      invariant target !in settled
      decreases g.nodes - settled.Keys
    {
      var u := PickCheapest(g, source, fringe);
      CheapestIsShortest(g, source, settled, fringe, u);
      if u == target {
        return Some(fringe[u]);
      }
      var rest := fringe - {u};
      var grown := settled[u := fringe[u]];
      assert grown.Keys == settled.Keys + {u};
      var next := Relax(g, source, grown, rest, u);
      assert Relaxed(g, source, grown, next) by {
        forall x, v | x in grown && (x, v) in g.weight && v !in grown
          ensures v in next && Cost(g, next[v]) <= Cost(g, grown[x]) + g.weight[(x, v)]
        {
          if x != u {
            assert v in fringe && v in rest;
          }
        }
      }
      settled, fringe := grown, next;
    }
    forall p | Connects(g, p, source, target) ensures false {
      var x := ChainCrossesFringe(g, source, settled, fringe, p);
    }
    r := None;
  }

  // ---- the cache -----------------------------------------------------------

  datatype Reason = NoPath | PlatformNotFound

  datatype ChainResult = ChainResult(chain: Chain, totalWeight: Option<nat>, hops: nat, reason: Option<Reason>)

  /** Adding the edges one by one; a later edge between the same versions replaces the weight. */
  function GraphOf(edges: seq<EdgeSpec>): (g: Graph)
    ensures WellFormed(g)
  {
    if edges == [] then Graph({}, map[])
    else
      var g, e := GraphOf(edges[..|edges| - 1]), edges[|edges| - 1];
      Graph(g.nodes + {e.fromVersion, e.toVersion}, g.weight[(e.fromVersion, e.toVersion) := e.weight])
  }

  /** The last edge that a list gives between two versions, if it gives one. */
  ghost predicate LastEdge(edges: seq<EdgeSpec>, u: Version, v: Version, i: int) {
    && 0 <= i < |edges| && edges[i].fromVersion == u && edges[i].toVersion == v
    && forall j :: i < j < |edges| ==> edges[j].fromVersion != u || edges[j].toVersion != v
  }

  /** The graph has an edge exactly where the list gives one, and the last one decides its weight. */
  lemma {:induction false} GraphOfExactly(edges: seq<EdgeSpec>, u: Version, v: Version)
    ensures (u, v) in GraphOf(edges).weight <==> exists i :: LastEdge(edges, u, v, i)
    ensures forall i :: LastEdge(edges, u, v, i) ==> GraphOf(edges).weight[(u, v)] == edges[i].weight
  {
    if edges == [] {
    } else {
      var most, last := edges[..|edges| - 1], edges[|edges| - 1];
      GraphOfExactly(most, u, v);
      if last.fromVersion == u && last.toVersion == v {
        assert LastEdge(edges, u, v, |most|);
      } else {
        forall i ensures LastEdge(edges, u, v, i) <==> LastEdge(most, u, v, i) {
        }
      }
    }
  }

  /** Its versions are the ends of its edges. */
  lemma {:induction false} VersionsOfGraph(edges: seq<EdgeSpec>, v: Version)
    ensures v in GraphOf(edges).nodes <==> exists e :: e in edges && (e.fromVersion == v || e.toVersion == v)
  {
    if edges == [] {
    } else {
      var most, last := edges[..|edges| - 1], edges[|edges| - 1];
      VersionsOfGraph(most, v);
      assert edges == most + [last];
    }
  }

  /** What a query must answer about the graph `g` of its platform. */
  ghost predicate Answers(r: ChainResult, g: Graph, from: Version, to: Version) {
    if r.chain != [] then
      IsShortest(g, r.chain, from, to) && r.totalWeight == Some(Cost(g, r.chain)) &&
      r.hops == |r.chain| - 1 && r.reason == None
    else
      r == ChainResult([], None, 0, Some(NoPath)) && !exists p :: Connects(g, p, from, to)
  }

  class UpgradePathGraphCache {
    var graphs: map<string, Graph>

    ghost predicate Valid()
      reads this
    {
      forall f :: f in graphs ==> WellFormed(graphs[f])
    }

    constructor ()
      ensures Valid() && graphs == map[]
    {
      graphs := map[];
    }

    /** Drops one platform, or all of them. */
    method Invalidate(platform: Option<string>)
      requires Valid()
      modifies this
      ensures Valid()
      ensures graphs == if platform.Some? then old(graphs) - {platform.value} else map[]
    {
      graphs := if platform.Some? then graphs - {platform.value} else map[];
    }

    method Rebuild(platform: string, edges: seq<EdgeSpec>)
      requires Valid()
      modifies this
      ensures Valid() && graphs == old(graphs)[platform := GraphOf(edges)]
    {
      var g := Graph({}, map[]);
      for i := 0 to |edges|
        invariant g == GraphOf(edges[..i])
      {
        var e := edges[i];
        assert edges[..i + 1][..i] == edges[..i];
        g := Graph(g.nodes + {e.fromVersion, e.toVersion}, g.weight[(e.fromVersion, e.toVersion) := e.weight]);
      }
      assert edges[..|edges|] == edges;
      graphs := graphs[platform := g];
    }

    method ShortestPath(platform: string, from: Version, to: Version) returns (r: ChainResult)
      requires Valid()
      ensures from == to ==> r == ChainResult([from], Some(0), 0, None)
      ensures from != to && platform !in graphs ==> r == ChainResult([], None, 0, Some(PlatformNotFound))
      ensures platform in graphs ==> Answers(r, graphs[platform], from, to)
    {
      if from == to {
        return ChainResult([from], Some(0), 0, None);
      }
      if platform !in graphs {
        return ChainResult([], None, 0, Some(PlatformNotFound));
      }
      var g := graphs[platform];
      if from !in g.nodes || to !in g.nodes {
        OnlyNodesConnect(g, from, to);
        return ChainResult([], None, 0, Some(NoPath));
      }
      var path := Dijkstra(g, from, to);
      if path.None? {
        return ChainResult([], None, 0, Some(NoPath));
      }
      var p := path.value;
      var total := 0;
      for i := 1 to |p|
        invariant IsChain(g, p[..i]) && total == Cost(g, p[..i])
      {
        ExtendChain(g, p[..i], p[i]);
        assert p[..i + 1] == p[..i] + [p[i]];
        total := total + g.weight[(p[i - 1], p[i])];
      }
      assert p[..|p|] == p;
      r := ChainResult(p, Some(total), |p| - 1, None);
    }

    method WithEdges(platform: string, edges: seq<EdgeSpec>, from: Version, to: Version) returns (r: ChainResult)
      requires Valid()
      modifies this
      ensures Valid() && graphs == old(graphs)[platform := GraphOf(edges)]
      ensures Answers(r, GraphOf(edges), from, to)
    {
      Rebuild(platform, edges);
      r := ShortestPath(platform, from, to);
    }
  }

  // ---- chains of catalog rows ----------------------------------------------

  datatype EdgeRow = EdgeRow(platform: string, fromVersion: Version, toVersion: Version, weight: nat, live: bool)

  predicate LiveOn(r: EdgeRow, platform: string) {
    r.live && r.platform == platform
  }

  /** The live edges of one platform, in the order of the table. */
  function PlatformEdges(rows: seq<EdgeRow>, platform: string): seq<EdgeSpec> {
    if rows == [] then []
    else
      var most, r := PlatformEdges(rows[..|rows| - 1], platform), rows[|rows| - 1];
      if LiveOn(r, platform) then most + [EdgeSpec(r.fromVersion, r.toVersion, r.weight)] else most
  }

  /** The unique index on live edges. */
  ghost predicate LiveEdgesUnique(rows: seq<EdgeRow>) {
    forall r, s | r in rows && s in rows && r.live && s.live && SameEdge(r, s) :: r == s
  }

  predicate SameEdge(r: EdgeRow, s: EdgeRow) {
    r.platform == s.platform && r.fromVersion == s.fromVersion && r.toVersion == s.toVersion
  }

  /** A chain of catalog rows: live edges of the platform, each starting where the previous one ends. */
  ghost predicate RowChain(rows: seq<EdgeRow>, platform: string, from: Version, to: Version, steps: seq<EdgeRow>)
    decreases |steps|
  {
    if steps == [] then from == to
    else
      var last := steps[|steps| - 1];
      last in rows && LiveOn(last, platform) && last.toVersion == to &&
      RowChain(rows, platform, from, last.fromVersion, steps[..|steps| - 1])
  }

  /** Step by step: live rows of the table and the platform, from the first version to the last one. */
  ghost predicate Joins(rows: seq<EdgeRow>, platform: string, from: Version, to: Version, steps: seq<EdgeRow>) {
    && (forall i :: 0 <= i < |steps| ==> steps[i] in rows && steps[i].live && steps[i].platform == platform)
    && (forall i :: 0 < i < |steps| ==> steps[i].fromVersion == steps[i - 1].toVersion)
    && if steps == [] then from == to else steps[0].fromVersion == from && steps[|steps| - 1].toVersion == to
  }

  lemma {:induction false} RowChainExactly(rows: seq<EdgeRow>, platform: string, from: Version, to: Version,
                                           steps: seq<EdgeRow>)
    ensures RowChain(rows, platform, from, to, steps) <==> Joins(rows, platform, from, to, steps)
    decreases |steps|
  {
    if steps == [] {
    } else {
      var most, last := steps[..|steps| - 1], steps[|steps| - 1];
      RowChainExactly(rows, platform, from, last.fromVersion, most);
      assert forall i :: 0 <= i < |most| ==> most[i] == steps[i];
      assert steps[|most|] == last;
    }
  }

  /** The weight of a chain is what its parts weigh, and of one edge the weight of its row. */
  lemma {:induction false} TotalWeightAdds(a: seq<EdgeRow>, b: seq<EdgeRow>)
    ensures TotalWeight(a + b) == TotalWeight(a) + TotalWeight(b)
    ensures |a| == 1 ==> TotalWeight(a) == a[0].weight
  {
    if |a| == 1 {
      assert a[..0] == [];
    }
    if b == [] {
      assert a + b == a;
    } else {
      TotalWeightAdds(a, b[..|b| - 1]);
      assert (a + b)[..|a + b| - 1] == a + b[..|b| - 1];
    }
  }

  ghost function TotalWeight(steps: seq<EdgeRow>): nat {
    if steps == [] then 0 else TotalWeight(steps[..|steps| - 1]) + steps[|steps| - 1].weight
  }

  lemma {:induction false} EdgeHasRow(rows: seq<EdgeRow>, platform: string, u: Version, v: Version) returns (r: EdgeRow)
    requires (u, v) in GraphOf(PlatformEdges(rows, platform)).weight
    ensures r in rows && LiveOn(r, platform) && r.fromVersion == u && r.toVersion == v
    ensures r.weight == GraphOf(PlatformEdges(rows, platform)).weight[(u, v)]
  {
    var most, last := rows[..|rows| - 1], rows[|rows| - 1];
    if LiveOn(last, platform) {
      var edges, e := PlatformEdges(most, platform), EdgeSpec(last.fromVersion, last.toVersion, last.weight);
      assert (edges + [e])[..|edges|] == edges;
      if last.fromVersion == u && last.toVersion == v {
        r := last;
      } else {
        r := EdgeHasRow(most, platform, u, v);
      }
    } else {
      r := EdgeHasRow(most, platform, u, v);
    }
  }

  lemma {:induction false} RowHasEdge(rows: seq<EdgeRow>, platform: string, r: EdgeRow)
    requires LiveEdgesUnique(rows) && r in rows && LiveOn(r, platform)
    ensures (r.fromVersion, r.toVersion) in GraphOf(PlatformEdges(rows, platform)).weight
    ensures GraphOf(PlatformEdges(rows, platform)).weight[(r.fromVersion, r.toVersion)] == r.weight
  {
    var most, last := rows[..|rows| - 1], rows[|rows| - 1];
    assert rows == most + [last];
    if LiveOn(last, platform) {
      var edges, e := PlatformEdges(most, platform), EdgeSpec(last.fromVersion, last.toVersion, last.weight);
      assert (edges + [e])[..|edges|] == edges;
      if r != last {
        assert !SameEdge(r, last);
        RowHasEdge(most, platform, r);
      }
    } else {
      RowHasEdge(most, platform, r);
    }
  }

  lemma {:induction false} ChainHasRows(rows: seq<EdgeRow>, platform: string, p: Chain) returns (steps: seq<EdgeRow>)
    requires IsChain(GraphOf(PlatformEdges(rows, platform)), p)
    ensures RowChain(rows, platform, p[0], p[|p| - 1], steps)
    ensures TotalWeight(steps) == Cost(GraphOf(PlatformEdges(rows, platform)), p)
  {
    if |p| == 1 {
      steps := [];
    } else {
      var most, u, v := p[..|p| - 1], p[|p| - 2], p[|p| - 1];
      var before := ChainHasRows(rows, platform, most);
      var r := EdgeHasRow(rows, platform, u, v);
      steps := before + [r];
      assert steps[..|before|] == before;
    }
  }

  lemma {:induction false} RowsMakeAChain(rows: seq<EdgeRow>, platform: string, from: Version, to: Version,
                                          steps: seq<EdgeRow>)
    returns (p: Chain)
    requires LiveEdgesUnique(rows) && RowChain(rows, platform, from, to, steps)
    ensures Connects(GraphOf(PlatformEdges(rows, platform)), p, from, to)
    ensures Cost(GraphOf(PlatformEdges(rows, platform)), p) == TotalWeight(steps)
    decreases |steps|
  {
    if steps == [] {
      p := [from];
    } else {
      var last := steps[|steps| - 1];
      var q := RowsMakeAChain(rows, platform, from, last.fromVersion, steps[..|steps| - 1]);
      RowHasEdge(rows, platform, last);
      ExtendChain(GraphOf(PlatformEdges(rows, platform)), q, to);
      p := q + [to];
    }
  }

  /** The test the readiness controller makes: a chain was found and its weight fits the cap. */
  predicate Fits(r: ChainResult, cap: nat) {
    r.chain != [] && (r.totalWeight.None? || r.totalWeight.value <= cap)
  }

  /** Some chain of live catalog edges from `from` to `to` weighs at most `cap`. */
  ghost predicate ReachableWithin(rows: seq<EdgeRow>, platform: string, from: Version, to: Version, cap: nat) {
    exists steps :: Joins(rows, platform, from, to, steps) && TotalWeight(steps) <= cap
  }

  /**
   Testing only the shortest chain against the cap decides whether any chain of live edges fits:
   a correct answer fits the cap exactly when some chain of catalog rows does.
  */
  lemma ShortestDecidesReachability(rows: seq<EdgeRow>, platform: string, from: Version, to: Version, cap: nat,
                                    r: ChainResult)
    requires LiveEdgesUnique(rows)
    requires Answers(r, GraphOf(PlatformEdges(rows, platform)), from, to)
    ensures Fits(r, cap) <==> ReachableWithin(rows, platform, from, to, cap)
  {
    if Fits(r, cap) {
      var steps := ChainHasRows(rows, platform, r.chain);
      RowChainExactly(rows, platform, from, to, steps);
    }
    if ReachableWithin(rows, platform, from, to, cap) {
      var steps :| Joins(rows, platform, from, to, steps) && TotalWeight(steps) <= cap;
      RowChainExactly(rows, platform, from, to, steps);
      var p := RowsMakeAChain(rows, platform, from, to, steps);
    }
  }
}
