/**
 * The graph partitioner of utils/partgraph.cpp.
 *
 * IDs are kept as unsigned 32-bit values; the code stores some of them as `int`, which is one to one.
 */
module Partition {
  import opened Prelude
  import opened GraphFiles

  datatype Vertex = Vertex(id: uint32, edges: seq<uint32>)

  type Partitions = seq<seq<Vertex>>

  predicate Inside(partition: seq<Vertex>, id: uint32) {
    exists i | 0 <= i < |partition| :: partition[i].id == id
  }

  /** How many of `targets` lie outside the partition. */
  function External(targets: seq<uint32>, partition: seq<Vertex>): nat {
    if targets == [] then 0
    else
      var n := |targets| - 1;
      External(targets[..n], partition) + if Inside(partition, targets[n]) then 0 else 1
  }

  /** The external edges of the vertices `vs` of a partition. */
  function ExternalOf(vs: seq<Vertex>, partition: seq<Vertex>): nat {
    if vs == [] then 0
    else
      var n := |vs| - 1;
      ExternalOf(vs[..n], partition) + External(vs[n].edges, partition)
  }

  function HyperEdges(partition: seq<Vertex>): nat {
    ExternalOf(partition, partition)
  }

  /** The sum over all partitions, which the program prints as its total. */
  function Total(nodes: Partitions): nat {
    if nodes == [] then 0
    else
      var n := |nodes| - 1;
      Total(nodes[..n]) + HyperEdges(nodes[n])
  }

  /** The external edges: the j-th edge of the i-th vertex of `vs`. */
  function Leavers(vs: seq<Vertex>, partition: seq<Vertex>): set<(nat, nat)> {
    set i: nat, j: nat | i < |vs| && j < |vs[i].edges| && !Inside(partition, vs[i].edges[j]) :: (i, j)
  }

  lemma {:induction false} ExternalCounts(targets: seq<uint32>, partition: seq<Vertex>, i: nat)
    ensures External(targets, partition)
         == |set j: nat | j < |targets| && !Inside(partition, targets[j]) :: (i, j)|
  {
    var all := set j: nat | j < |targets| && !Inside(partition, targets[j]) :: (i, j);
    if targets == [] {
      assert all == {};
    } else {
      var n := |targets| - 1;
      var init := targets[..n];
      var before := set j: nat | j < n && !Inside(partition, init[j]) :: (i, j);
      ExternalCounts(init, partition, i);
      assert forall j | 0 <= j < n :: init[j] == targets[j];
      assert all == before + if Inside(partition, targets[n]) then {} else {(i, n)};
    }
  }

  lemma {:induction false} ExternalOfCounts(vs: seq<Vertex>, partition: seq<Vertex>)
    ensures ExternalOf(vs, partition) == |Leavers(vs, partition)|
  {
    if vs == [] {
      assert Leavers(vs, partition) == {};
    } else {
      var n := |vs| - 1;
      var init, last := vs[..n], vs[n].edges;
      var here := set j: nat | j < |last| && !Inside(partition, last[j]) :: (n, j);
      ExternalOfCounts(init, partition);
      ExternalCounts(last, partition, n);
      assert forall i | 0 <= i < n :: init[i] == vs[i];
      assert Leavers(vs, partition) == Leavers(init, partition) + here;
    }
  }

  /** `countHyperEdges` counts each edge whose target is no vertex of the partition once. */
  lemma HyperEdgesCount(partition: seq<Vertex>)
    ensures HyperEdges(partition) ==
              |set i: nat, j: nat | i < |partition| && j < |partition[i].edges|
                  && (forall k | 0 <= k < |partition| :: partition[k].id != partition[i].edges[j]) :: (i, j)|
  {
    ExternalOfCounts(partition, partition);
    assert Leavers(partition, partition) ==
             set i: nat, j: nat | i < |partition| && j < |partition[i].edges|
                 && (forall k | 0 <= k < |partition| :: partition[k].id != partition[i].edges[j]) :: (i, j);
  }

  method CountHyperEdges(partition: seq<Vertex>) returns (count: nat)
    ensures count == HyperEdges(partition)
  {
    count := 0;
    for i := 0 to |partition|
      invariant count == ExternalOf(partition[..i], partition)
    {
      var v := partition[i];
      for j := 0 to |v.edges|
        invariant count == ExternalOf(partition[..i], partition) + External(v.edges[..j], partition)
      {
        var external := true;
        var k := 0;
        while k < |partition| && external
          invariant k <= |partition|
          invariant external ==> forall m | 0 <= m < k :: partition[m].id != v.edges[j]
          invariant !external ==> Inside(partition, v.edges[j])
        {
          if v.edges[j] == partition[k].id {
            external := false;
          }
          k := k + 1;
        }
        if external {
          count := count + 1;
        }
        assert v.edges[..j + 1][..j] == v.edges[..j];
      }
      assert v.edges[..|v.edges|] == v.edges;
      assert partition[..i + 1][..i] == partition[..i];
    }
    assert partition[..|partition|] == partition;
  }

  /** The total that `printPartitions` prints. */
  method CountAll(nodes: Partitions) returns (total: nat)
    ensures total == Total(nodes)
  {
    total := 0;
    for i := 0 to |nodes|
      invariant total == Total(nodes[..i])
    {
      var edges := CountHyperEdges(nodes[i]);
      assert nodes[..i + 1][..i] == nodes[..i];
      total := total + edges;
    }
    assert nodes[..|nodes|] == nodes;
  }

  // ----- one optimisation step -----

  /** Two vertices of different partitions, as `rand` picks them. */
  datatype Pick = Pick(part1: nat, vert1: nat, part2: nat, vert2: nat)

  predicate PickOk(nodes: Partitions, k: Pick) {
    && k.part1 < |nodes| && k.part2 < |nodes| && k.part1 != k.part2
    && k.vert1 < |nodes[k.part1]| && k.vert2 < |nodes[k.part2]|
  }

  function Swapped(nodes: Partitions, k: Pick): (s: Partitions)
    requires PickOk(nodes, k)
    ensures |s| == |nodes| && forall p | 0 <= p < |nodes| :: |s[p]| == |nodes[p]|
  {
    nodes[k.part1 := nodes[k.part1][k.vert1 := nodes[k.part2][k.vert2]]]
         [k.part2 := nodes[k.part2][k.vert2 := nodes[k.part1][k.vert1]]]
  }

  /** `s` is `nodes` with the vertices at the two picked places exchanged, and nothing else changed. */
  ghost predicate Exchanged(nodes: Partitions, s: Partitions, k: Pick)
    requires PickOk(nodes, k)
  {
    && |s| == |nodes| && (forall p | 0 <= p < |nodes| :: |s[p]| == |nodes[p]|)
    && s[k.part1][k.vert1] == nodes[k.part2][k.vert2]
    && s[k.part2][k.vert2] == nodes[k.part1][k.vert1]
    && forall p, i | 0 <= p < |nodes| && 0 <= i < |nodes[p]| ::
         (p, i) != (k.part1, k.vert1) && (p, i) != (k.part2, k.vert2) ==> s[p][i] == nodes[p][i]
  }

  lemma ExchangedIffSwapped(nodes: Partitions, s: Partitions, k: Pick)
    requires PickOk(nodes, k)
    ensures Exchanged(nodes, s, k) <==> s == Swapped(nodes, k)
  {
    if Exchanged(nodes, s, k) {
      var t := Swapped(nodes, k);
      forall p | 0 <= p < |nodes| ensures s[p] == t[p] {
        assert forall i | 0 <= i < |nodes[p]| :: s[p][i] == t[p][i];
      }
    }
  }

  /** The swap, unless it adds external edges to the two partitions together. */
  function Optimized(nodes: Partitions, k: Pick): Partitions
    requires PickOk(nodes, k)
  {
    var s := Swapped(nodes, k);
    if HyperEdges(nodes[k.part1]) + HyperEdges(nodes[k.part2])
     < HyperEdges(s[k.part1]) + HyperEdges(s[k.part2]) then nodes else s
  }

  class Optimizer {
    var nodes: Partitions

    constructor (nodes: Partitions)
      ensures this.nodes == nodes
    {
      this.nodes := nodes;
    }

    method Swap(k: Pick)
      requires PickOk(nodes, k)
      modifies this
      ensures nodes == Swapped(old(nodes), k) && PickOk(nodes, k)
      ensures Exchanged(old(nodes), nodes, k)
    {
      var v1, v2 := nodes[k.part1][k.vert1], nodes[k.part2][k.vert2];
      nodes := nodes[k.part1 := nodes[k.part1][k.vert1 := v2]];
      nodes := nodes[k.part2 := nodes[k.part2][k.vert2 := v1]];
      ExchangedIffSwapped(old(nodes), nodes, k);
    }

    method OptimizePartitions(k: Pick)
      requires PickOk(nodes, k)
      modifies this
      ensures nodes == Optimized(old(nodes), k)
      ensures nodes == old(nodes) || Exchanged(old(nodes), nodes, k)
    {
      var a := CountHyperEdges(nodes[k.part1]);
      var b := CountHyperEdges(nodes[k.part2]);
      Swap(k);
      var c := CountHyperEdges(nodes[k.part1]);
      var d := CountHyperEdges(nodes[k.part2]);
      if a + b < c + d {
        SwapTwice(old(nodes), k);
        Swap(k);
      }
    }
  }

  lemma SwapTwice(nodes: Partitions, k: Pick)
    requires PickOk(nodes, k)
    ensures PickOk(Swapped(nodes, k), k) && Swapped(Swapped(nodes, k), k) == nodes
  {
    var t := Swapped(Swapped(nodes, k), k);
    assert t[k.part1] == nodes[k.part1];
    assert t[k.part2] == nodes[k.part2];
  }

  // ----- the local test decides about the total -----

  lemma {:induction false} TotalOfUpdate(nodes: Partitions, p: nat, part: seq<Vertex>)
    requires p < |nodes|
    ensures Total(nodes[p := part]) == Total(nodes) - HyperEdges(nodes[p]) + HyperEdges(part)
  {
    var n := |nodes| - 1;
    if p == n {
      assert nodes[p := part][..n] == nodes[..n];
    } else {
      assert nodes[p := part][..n] == nodes[..n][p := part];
      TotalOfUpdate(nodes[..n], p, part);
    }
  }

  /** The step keeps the exchange of the picked vertices unless that makes the total greater. */
  lemma OptimizedMeans(nodes: Partitions, k: Pick, s: Partitions)
    requires PickOk(nodes, k) && Exchanged(nodes, s, k)
    ensures Optimized(nodes, k) == if Total(nodes) < Total(s) then nodes else s
  {
    ExchangedIffSwapped(nodes, s, k);
    var half := nodes[k.part1 := nodes[k.part1][k.vert1 := nodes[k.part2][k.vert2]]];
    TotalOfUpdate(nodes, k.part1, half[k.part1]);
    TotalOfUpdate(half, k.part2, s[k.part2]);
  }

  /** One step leaves the smaller of the two totals, although it compares two partitions only. */
  lemma StepTakesSmallerTotal(nodes: Partitions, k: Pick)
    requires PickOk(nodes, k)
    ensures Total(Optimized(nodes, k)) ==
              if Total(nodes) < Total(Swapped(nodes, k)) then Total(nodes) else Total(Swapped(nodes, k))
  {
    ExchangedIffSwapped(nodes, Swapped(nodes, k), k);
    OptimizedMeans(nodes, k, Swapped(nodes, k));
  }

  // ----- what the total means -----

  /** The targets of the edges that leave `id`, in file order. */
  function TargetsOf(edges: seq<GraphEdge>, id: uint32): seq<uint32> {
    if edges == [] then []
    else
      var n := |edges| - 1;
      TargetsOf(edges[..n], id) + if edges[n].from == id then [edges[n].to] else []
  }

  /** Files joined give targets joined: none is lost or added, and the order is the file's. */
  lemma {:induction false} TargetsOfConcat(a: seq<GraphEdge>, b: seq<GraphEdge>, id: uint32)
    ensures TargetsOf(a + b, id) == TargetsOf(a, id) + TargetsOf(b, id)
  {
    if b == [] {
      assert a + b == a;
    } else {
      var n := |b| - 1;
      assert (a + b)[..|a + b| - 1] == a + b[..n];
      TargetsOfConcat(a, b[..n], id);
      Assoc(TargetsOf(a, id), TargetsOf(b[..n], id), if b[n].from == id then [b[n].to] else []);
    }
  }

  lemma TargetsOfOne(e: GraphEdge, id: uint32)
    ensures TargetsOf([e], id) == if e.from == id then [e.to] else []
  {
    assert [e][..0] == [];
  }

  ghost predicate UniqueIds(nodes: Partitions) {
    forall p, i, q, j | 0 <= p < |nodes| && 0 <= i < |nodes[p]| && 0 <= q < |nodes| && 0 <= j < |nodes[q]| ::
      nodes[p][i].id == nodes[q][j].id ==> p == q && i == j
  }

  /** Every vertex holds the graph's edges that leave it. */
  ghost predicate Holds(nodes: Partitions, edges: seq<GraphEdge>) {
    forall p, i | 0 <= p < |nodes| && 0 <= i < |nodes[p]| :: nodes[p][i].edges == TargetsOf(edges, nodes[p][i].id)
  }

  /** The edge leaves a vertex of some partition for a target outside that partition. */
  ghost predicate Crosses(nodes: Partitions, e: GraphEdge) {
    exists p | 0 <= p < |nodes| :: Inside(nodes[p], e.from) && !Inside(nodes[p], e.to)
  }

  /** The cut, counted edge by edge over the graph. */
  ghost function Cut(nodes: Partitions, edges: seq<GraphEdge>): nat {
    if edges == [] then 0
    else
      var n := |edges| - 1;
      Cut(nodes, edges[..n]) + if Crosses(nodes, edges[n]) then 1 else 0
  }

  /** `ExternalOf` and `Total` with the vertices' edges taken from `edges`. */
  function ExternalIn(vs: seq<Vertex>, partition: seq<Vertex>, edges: seq<GraphEdge>): nat {
    SumOver(vs, Leaving(partition, edges))
  }

  /** How many edges leave the partition from a vertex. */
  function Leaving(partition: seq<Vertex>, edges: seq<GraphEdge>): uint32 -> nat {
    id => External(TargetsOf(edges, id), partition)
  }

  function SumOver(vs: seq<Vertex>, f: uint32 -> nat): nat {
    if vs == [] then 0
    else
      var n := |vs| - 1;
      SumOver(vs[..n], f) + f(vs[n].id)
  }

  function TotalIn(nodes: Partitions, edges: seq<GraphEdge>): nat {
    if nodes == [] then 0
    else
      var n := |nodes| - 1;
      TotalIn(nodes[..n], edges) + ExternalIn(nodes[n], nodes[n], edges)
  }

  lemma {:induction false} ExternalMatches(vs: seq<Vertex>, partition: seq<Vertex>, edges: seq<GraphEdge>)
    requires forall i | 0 <= i < |vs| :: vs[i].edges == TargetsOf(edges, vs[i].id)
    ensures ExternalOf(vs, partition) == ExternalIn(vs, partition, edges)
  {
    if vs != [] {
      ExternalMatches(vs[..|vs| - 1], partition, edges);
    }
  }

  lemma {:induction false} TotalMatches(nodes: Partitions, edges: seq<GraphEdge>)
    requires Holds(nodes, edges)
    ensures Total(nodes) == TotalIn(nodes, edges)
  {
    if nodes != [] {
      var n := |nodes| - 1;
      TotalMatches(nodes[..n], edges);
      ExternalMatches(nodes[n], nodes[n], edges);
    }
  }

  lemma {:induction false} NoEdgesNoExternal(vs: seq<Vertex>, partition: seq<Vertex>)
    ensures ExternalIn(vs, partition, []) == 0
  {
    if vs != [] {
      NoEdgesNoExternal(vs[..|vs| - 1], partition);
    }
  }

  lemma {:induction false} NoEdgesNoTotal(nodes: Partitions)
    ensures TotalIn(nodes, []) == 0
  {
    if nodes != [] {
      NoEdgesNoTotal(nodes[..|nodes| - 1]);
      NoEdgesNoExternal(nodes[|nodes| - 1], nodes[|nodes| - 1]);
    }
  }

  /** Adding an edge adds its target to those of the vertex that it leaves. */
  lemma ExternalOfTargets(edges: seq<GraphEdge>, e: GraphEdge, id: uint32, partition: seq<Vertex>)
    ensures External(TargetsOf(edges + [e], id), partition) ==
              External(TargetsOf(edges, id), partition) + if e.from == id && !Inside(partition, e.to) then 1 else 0
  {
    var targets := TargetsOf(edges, id);
    SplitConcat(edges, [e]);
    SplitConcat(targets, [e.to]);
    assert (edges + [e])[|edges|] == e && (targets + [e.to])[|targets|] == e.to;
    assert e.from != id ==> targets + [] == targets;
  }

  lemma InsideSplits(vs: seq<Vertex>, id: uint32)
    requires vs != []
    ensures Inside(vs, id) <==> Inside(vs[..|vs| - 1], id) || vs[|vs| - 1].id == id
  {
    var n := |vs| - 1;
    if i :| 0 <= i < n && vs[i].id == id {
      assert vs[..n][i].id == id;
    }
  }

  /** A function that differs for one ID only differs in its sum if that is there. */
  lemma {:induction false} SumDiffersAt(vs: seq<Vertex>, f: uint32 -> nat, g: uint32 -> nat, id: uint32)
    requires forall i, j | 0 <= i < j < |vs| :: vs[i].id != vs[j].id
    requires forall x | x != id :: g(x) == f(x)
    ensures SumOver(vs, g) - SumOver(vs, f) == if Inside(vs, id) then g(id) - f(id) else 0
  {
    if vs != [] {
      var n := |vs| - 1;
      SumDiffersAt(vs[..n], f, g, id);
      InsideSplits(vs, id);
      assert Inside(vs[..n], id) ==> vs[n].id != id;
    }
  }

  /** It adds 1 to what leaves the partition, if it leaves one of its vertices and the target is outside. */
  lemma {:induction false} ExternalAddEdge(vs: seq<Vertex>, partition: seq<Vertex>, edges: seq<GraphEdge>, e: GraphEdge)
    requires forall i, j | 0 <= i < j < |vs| :: vs[i].id != vs[j].id
    ensures ExternalIn(vs, partition, edges + [e]) ==
              ExternalIn(vs, partition, edges) + if Inside(vs, e.from) && !Inside(partition, e.to) then 1 else 0
  {
    var f, g := Leaving(partition, edges), Leaving(partition, edges + [e]);
    forall id ensures g(id) == f(id) + if e.from == id && !Inside(partition, e.to) then 1 else 0 {
      ExternalOfTargets(edges, e, id, partition);
    }
    SumDiffersAt(vs, f, g, e.from);
  }

  lemma {:induction false} TotalAddEdge(nodes: Partitions, edges: seq<GraphEdge>, e: GraphEdge)
    requires UniqueIds(nodes)
    ensures TotalIn(nodes, edges + [e]) == TotalIn(nodes, edges) + if Crosses(nodes, e) then 1 else 0
  {
    if nodes != [] {
      var n := |nodes| - 1;
      TotalAddEdge(nodes[..n], edges, e);
      ExternalAddEdge(nodes[n], nodes[n], edges, e);
      CrossesInOnePlace(nodes, e);
    }
  }

  lemma CrossesInOnePlace(nodes: Partitions, e: GraphEdge)
    requires UniqueIds(nodes) && nodes != []
    ensures var (init, last) := (nodes[..|nodes| - 1], nodes[|nodes| - 1]);
            var crossesLast := Inside(last, e.from) && !Inside(last, e.to);
            && (Crosses(nodes, e) <==> Crosses(init, e) || crossesLast)
            && !(Crosses(init, e) && crossesLast)
  {
    var n := |nodes| - 1;
    var init := nodes[..n];
    if Crosses(init, e) {
      var p :| 0 <= p < n && Inside(init[p], e.from) && !Inside(init[p], e.to);
      var i :| 0 <= i < |nodes[p]| && nodes[p][i].id == e.from;
      assert Inside(nodes[p], e.from) && !Inside(nodes[p], e.to);
      forall j | 0 <= j < |nodes[n]| ensures nodes[n][j].id != e.from {
        assert nodes[p][i].id == e.from;
      }
    } else if Crosses(nodes, e) {
      var p :| 0 <= p < |nodes| && Inside(nodes[p], e.from) && !Inside(nodes[p], e.to);
    }
  }

  /**
   * The sum of the per-partition counts, taken vertex by vertex within each partition, is the number
   * of the graph's edges that leave their own partition.
   */
  lemma TotalIsCut(nodes: Partitions, edges: seq<GraphEdge>)
    requires UniqueIds(nodes) && Holds(nodes, edges)
    ensures Total(nodes) == Cut(nodes, edges)
  {
    TotalMatches(nodes, edges);
    TotalInIsCut(nodes, edges);
  }

  lemma {:induction false} TotalInIsCut(nodes: Partitions, edges: seq<GraphEdge>)
    requires UniqueIds(nodes)
    ensures TotalIn(nodes, edges) == Cut(nodes, edges)
  {
    if edges == [] {
      NoEdgesNoTotal(nodes);
    } else {
      var n := |edges| - 1;
      TotalInIsCut(nodes, edges[..n]);
      assert edges == edges[..n] + [edges[n]];
      TotalAddEdge(nodes, edges[..n], edges[n]);
    }
  }

  // ----- every series of steps -----

  /** Any picks; the code only makes ones that are in range. */
  function OptimizedBy(nodes: Partitions, picks: seq<Pick>): Partitions
    decreases |picks|
  {
    if picks == [] then nodes
    else OptimizedBy(if PickOk(nodes, picks[0]) then Optimized(nodes, picks[0]) else nodes, picks[1..])
  }

  function AllVertices(nodes: Partitions): multiset<Vertex> {
    if nodes == [] then multiset{} else AllVertices(nodes[..|nodes| - 1]) + multiset(nodes[|nodes| - 1])
  }

  lemma {:induction false} VerticesOfUpdate(nodes: Partitions, p: nat, i: nat, v: Vertex)
    requires p < |nodes| && i < |nodes[p]|
    ensures AllVertices(nodes[p := nodes[p][i := v]]) == AllVertices(nodes) - multiset{nodes[p][i]} + multiset{v}
    ensures nodes[p][i] in AllVertices(nodes)
  {
    var n := |nodes| - 1;
    var next := nodes[p := nodes[p][i := v]];
    if p == n {
      assert next[..n] == nodes[..n];
    } else {
      assert next[..n] == nodes[..n][p := nodes[..n][p][i := v]];
      VerticesOfUpdate(nodes[..n], p, i, v);
    }
  }

  lemma SwapKeepsVertices(nodes: Partitions, k: Pick)
    requires PickOk(nodes, k)
    ensures AllVertices(Swapped(nodes, k)) == AllVertices(nodes)
  {
    var v1, v2 := nodes[k.part1][k.vert1], nodes[k.part2][k.vert2];
    var half := nodes[k.part1 := nodes[k.part1][k.vert1 := v2]];
    VerticesOfUpdate(nodes, k.part1, k.vert1, v2);
    assert half[k.part2] == nodes[k.part2];
    VerticesOfUpdate(half, k.part2, k.vert2, v1);
    Exchange(AllVertices(nodes), AllVertices(half), v1, v2);
  }

  lemma Exchange(a: multiset<Vertex>, b: multiset<Vertex>, x: Vertex, y: Vertex)
    requires x in a && b == a - multiset{x} + multiset{y}
    ensures b - multiset{y} + multiset{x} == a
  {
  }

  lemma SwapKeepsHolds(nodes: Partitions, edges: seq<GraphEdge>, k: Pick)
    requires PickOk(nodes, k) && Holds(nodes, edges)
    ensures Holds(Swapped(nodes, k), edges)
  {
    var s: seq<seq<Vertex>> := Swapped(nodes, k);
    forall p, i | 0 <= p < |s| && 0 <= i < |s[p]| ensures s[p][i].edges == TargetsOf(edges, s[p][i].id) {
      var (p0, i0) := Origin(k, p, i);
      assert s[p][i] == nodes[p0][i0];
    }
  }

  /** Where the vertex at place (p, i) was before the swap. */
  function Origin(k: Pick, p: nat, i: nat): (nat, nat) {
    if (p, i) == (k.part1, k.vert1) then (k.part2, k.vert2)
    else if (p, i) == (k.part2, k.vert2) then (k.part1, k.vert1)
    else (p, i)
  }

  lemma SwapKeepsUnique(nodes: Partitions, k: Pick)
    requires PickOk(nodes, k) && UniqueIds(nodes)
    ensures UniqueIds(Swapped(nodes, k))
  {
    var s: seq<seq<Vertex>> := Swapped(nodes, k);
    forall p, i, q, j | 0 <= p < |s| && 0 <= i < |s[p]| && 0 <= q < |s| && 0 <= j < |s[q]| && s[p][i].id == s[q][j].id
      ensures p == q && i == j
    {
      var (p0, i0) := Origin(k, p, i);
      var (q0, j0) := Origin(k, q, j);
      assert s[p][i] == nodes[p0][i0] && s[q][j] == nodes[q0][j0];
    }
  }

  /**
   * Over any series of steps the vertices stay the same, the total keeps being the graph's cut, and
   * the cut never increases.
   */
  lemma {:induction false} CutNeverIncreases(nodes: Partitions, edges: seq<GraphEdge>, picks: seq<Pick>)
    requires UniqueIds(nodes) && Holds(nodes, edges)
    ensures var s := OptimizedBy(nodes, picks);
            && AllVertices(s) == AllVertices(nodes)
            && UniqueIds(s) && Holds(s, edges)
            && Total(s) == Cut(s, edges) <= Cut(nodes, edges)
    decreases |picks|
  {
    TotalIsCut(nodes, edges);
    if picks != [] {
      var k := picks[0];
      if PickOk(nodes, k) {
        if Optimized(nodes, k) == Swapped(nodes, k) {
          SwapKeepsVertices(nodes, k);
          SwapKeepsUnique(nodes, k);
          SwapKeepsHolds(nodes, edges, k);
        }
        StepTakesSmallerTotal(nodes, k);
        TotalIsCut(Optimized(nodes, k), edges);
        CutNeverIncreases(Optimized(nodes, k), edges, picks[1..]);
      } else {
        CutNeverIncreases(nodes, edges, picks[1..]);
      }
    }
  }

  // ----- loading -----

  /** The nodes dealt out in turn to `groups` partitions. */
  function Dealt(nodes: seq<GraphNode>, edges: seq<GraphEdge>, groups: nat): (r: Partitions)
    requires groups > 0
    ensures |r| == groups
  {
    if nodes == [] then seq(groups, _ => [])
    else
      var n := |nodes| - 1;
      var r := Dealt(nodes[..n], edges, groups);
      r[n % groups := r[n % groups] + [Vertex(nodes[n].id, TargetsOf(edges, nodes[n].id))]]
  }

  method LoadGraph(nodes: seq<GraphNode>, edges: seq<GraphEdge>, groups: nat) returns (verts: Partitions)
    requires groups > 0
    ensures verts == Dealt(nodes, edges, groups)
  {
    verts := seq(groups, _ => []);
    for i := 0 to |nodes|
      invariant verts == Dealt(nodes[..i], edges, groups)
    {
      var id := nodes[i].id;
      var targets: seq<uint32> := [];
      for j := 0 to |edges|
        invariant targets == TargetsOf(edges[..j], id)
      {
        assert edges[..j + 1][..j] == edges[..j];
        if edges[j].from == id {
          targets := targets + [edges[j].to];
        }
      }
      assert edges[..|edges|] == edges;
      assert nodes[..i + 1][..i] == nodes[..i];
      verts := verts[i % groups := verts[i % groups] + [Vertex(id, targets)]];
    }
    assert nodes[..|nodes|] == nodes;
  }

  /** The nodes at `start`, `start + step` and so on, as vertices. */
  function EveryNth(nodes: seq<GraphNode>, edges: seq<GraphEdge>, start: nat, step: nat): seq<Vertex>
    requires step > 0
    decreases |nodes| - start
  {
    if start >= |nodes| then []
    else [Vertex(nodes[start].id, TargetsOf(edges, nodes[start].id))] + EveryNth(nodes, edges, start + step, step)
  }

  lemma ModStep(x: int, m: nat)
    requires m > 0
    ensures (x + m) % m == x % m
  {
    var q, r := x / m, x % m;
    assert x + m == (q + 1) * m + r;
    ModUnique(x + m, q + 1, r, m);
  }

  lemma ModUnique(x: int, q: int, r: nat, m: nat)
    requires x == q * m + r && r < m
    ensures x % m == r
  {
    var q2, r2 := x / m, x % m;
    assert (q - q2) * m == r2 - r;
    MultipleOf(q - q2, m);
  }

  lemma MultipleOf(a: int, m: nat)
    ensures (a >= 1 ==> a * m >= m) && (a <= -1 ==> a * m <= -(m as int))
  {
  }

  /** One more node goes to the end of its turn's list and of no other. */
  lemma {:induction false} EveryNthSnoc(nodes: seq<GraphNode>, edges: seq<GraphEdge>, start: nat, step: nat)
    requires step > 0 && nodes != []
    ensures var n := |nodes| - 1;
            EveryNth(nodes, edges, start, step) == EveryNth(nodes[..n], edges, start, step) +
              if start <= n && (n - start) % step == 0 then [Vertex(nodes[n].id, TargetsOf(edges, nodes[n].id))] else []
    decreases |nodes| - start
  {
    var n := |nodes| - 1;
    if start < n {
      EveryNthSnoc(nodes, edges, start + step, step);
      ModStep(n - start - step, step);
      if n < start + step {
        SmallMod(n - start, step);
      }
      Assoc([Vertex(nodes[start].id, TargetsOf(edges, nodes[start].id))],
            EveryNth(nodes[..n], edges, start + step, step),
            if start + step <= n && (n - start - step) % step == 0
            then [Vertex(nodes[n].id, TargetsOf(edges, nodes[n].id))] else []);
    }
  }

  lemma SmallMod(x: nat, m: nat)
    requires x < m
    ensures x % m == x
  {
    ModUnique(x, 0, x, m);
  }

  /** The node's turn is `p` exactly when it lies a multiple of `m` behind the p-th. */
  lemma TurnIff(n: nat, p: nat, m: nat)
    requires p < m
    ensures n % m == p <==> p <= n && (n - p) % m == 0
  {
    var q := n / m;
    if n % m == p {
      assert n - p == q * m + 0 && q >= 0;
      assert q * m >= 0;
      ModUnique(n - p, q, 0, m);
    } else if p <= n && (n - p) % m == 0 {
      var t := (n - p) / m;
      assert n == t * m + p;
      ModUnique(n, t, p, m);
    }
  }

  /** Partition p holds, in file order, the nodes p, p + groups, p + 2 * groups and so on. */
  lemma {:induction false} DealtInTurn(nodes: seq<GraphNode>, edges: seq<GraphEdge>, groups: nat, p: nat)
    requires p < groups
    ensures Dealt(nodes, edges, groups)[p] == EveryNth(nodes, edges, p, groups)
  {
    if nodes != [] {
      var n := |nodes| - 1;
      DealtInTurn(nodes[..n], edges, groups, p);
      EveryNthSnoc(nodes, edges, p, groups);
      TurnIff(n, p, groups);
    }
  }

  ghost predicate DistinctNodes(nodes: seq<GraphNode>) {
    forall i, j | 0 <= i < j < |nodes| :: nodes[i].id != nodes[j].id
  }

  lemma {:induction false} DealtHolds(nodes: seq<GraphNode>, edges: seq<GraphEdge>, groups: nat)
    requires groups > 0
    ensures Holds(Dealt(nodes, edges, groups), edges)
  {
    if nodes != [] {
      DealtHolds(nodes[..|nodes| - 1], edges, groups);
    }
  }

  ghost predicate HasNode(nodes: seq<GraphNode>, id: uint32) {
    exists m | 0 <= m < |nodes| :: nodes[m].id == id
  }

  lemma {:induction false} DealtFromNodes(nodes: seq<GraphNode>, edges: seq<GraphEdge>, groups: nat)
    requires groups > 0
    ensures forall p, i | 0 <= p < groups && 0 <= i < |Dealt(nodes, edges, groups)[p]| ::
              HasNode(nodes, Dealt(nodes, edges, groups)[p][i].id)
  {
    if nodes != [] {
      var n := |nodes| - 1;
      DealtFromNodes(nodes[..n], edges, groups);
      var before: seq<seq<Vertex>> := Dealt(nodes[..n], edges, groups);
      var r: seq<seq<Vertex>> := Dealt(nodes, edges, groups);
      forall p, i | 0 <= p < groups && 0 <= i < |r[p]| ensures HasNode(nodes, r[p][i].id) {
        if i == |before[p]| {
          assert nodes[n].id == r[p][i].id;
        } else {
          var m :| 0 <= m < n && nodes[..n][m].id == before[p][i].id;
          assert nodes[m].id == r[p][i].id;
        }
      }
    }
  }

  lemma {:induction false} DealtUnique(nodes: seq<GraphNode>, edges: seq<GraphEdge>, groups: nat)
    requires groups > 0 && DistinctNodes(nodes)
    ensures UniqueIds(Dealt(nodes, edges, groups))
  {
    if nodes != [] {
      var n := |nodes| - 1;
      DealtUnique(nodes[..n], edges, groups);
      DealtFromNodes(nodes[..n], edges, groups);
      assert !HasNode(nodes[..n], nodes[n].id);
    }
  }

  // ----- saving -----

  function NodeItems(group: seq<Vertex>, lab: int): seq<Written> {
    seq(|group|, i requires 0 <= i < |group| => WroteNode(GraphNode(group[i].id, lab)))
  }

  /** The nodes that `saveGraph` writes: partition by partition, labelled with its number. */
  function SavedNodes(verts: Partitions): seq<Written> {
    if verts == [] then []
    else
      var n := |verts| - 1;
      SavedNodes(verts[..n]) + NodeItems(verts[n], n)
  }

  /** How many vertices the partitions hold together. */
  function Size(verts: Partitions): nat {
    if verts == [] then 0 else Size(verts[..|verts| - 1]) + |verts[|verts| - 1]|
  }

  lemma {:induction false} SavedSize(verts: Partitions)
    ensures |SavedNodes(verts)| == Size(verts)
  {
    if verts != [] {
      SavedSize(verts[..|verts| - 1]);
    }
  }

  /** Every vertex is saved once, behind those of the partitions before, with its partition's number as label. */
  lemma {:induction false} SavedNodeAt(verts: Partitions, p: nat, i: nat)
    requires p < |verts| && i < |verts[p]|
    ensures Size(verts[..p]) + i < Size(verts) == |SavedNodes(verts)|
    ensures SavedNodes(verts)[Size(verts[..p]) + i] == WroteNode(GraphNode(verts[p][i].id, p))
  {
    var n := |verts| - 1;
    var init := verts[..n];
    SavedSize(verts);
    SavedSize(init);
    if p < n {
      assert init[..p] == verts[..p];
      SavedNodeAt(init, p, i);
    }
  }

  function SavedEdges(edges: seq<GraphEdge>): seq<Written> {
    seq(|edges|, i requires 0 <= i < |edges| => WroteEdge(edges[i]))
  }

  lemma OneMore<T>(before: seq<T>, items: seq<T>, k: nat)
    requires k < |items|
    ensures before + items[..k] + [items[k]] == before + items[..k + 1]
  {
  }

  method SaveGraph(verts: Partitions, edges: seq<GraphEdge>, nowMs: int) returns (file: string)
    ensures file == ClosedFile(HeaderLine(Stamp(nowMs)), SavedNodes(verts) + SavedEdges(edges))
  {
    var graph := new GraphWriter();
    var name := graph.InitGraph(nowMs);
    ghost var header := graph.header;
    for i := 0 to |verts|
      invariant graph.Open() && graph.header == header && graph.written == SavedNodes(verts[..i])
    {
      var vgroup := verts[i];
      for j := 0 to |vgroup|
        invariant graph.Open() && graph.header == header
        invariant graph.written == SavedNodes(verts[..i]) + NodeItems(vgroup, i)[..j]
      {
        graph.WriteNode(vgroup[j].id, i);
        OneMore(SavedNodes(verts[..i]), NodeItems(vgroup, i), j);
      }
      assert NodeItems(vgroup, i)[..|vgroup|] == NodeItems(vgroup, i);
      assert verts[..i + 1][..i] == verts[..i];
    }
    assert verts[..|verts|] == verts;
    for k := 0 to |edges|
      invariant graph.Open() && graph.header == header
      invariant graph.written == SavedNodes(verts) + SavedEdges(edges)[..k]
    {
      graph.WriteEdge(edges[k].from, edges[k].to, edges[k].lab);
      OneMore(SavedNodes(verts), SavedEdges(edges), k);
    }
    assert SavedEdges(edges)[..|edges|] == SavedEdges(edges);
    graph.CloseGraph();
    file := graph.file;
  }

  /** The nodes of the partitions in order, each labelled with its partition as a parser reads it. */
  function Labelled(verts: Partitions): seq<GraphNode> {
    if verts == [] then []
    else
      var n := |verts| - 1;
      Labelled(verts[..n]) + seq(|verts[n]|, i requires 0 <= i < |verts[n]| => GraphNode(verts[n][i].id, ReadLabel(n)))
  }

  lemma {:induction false} CollectedNodeItems(g: Graph, group: seq<Vertex>, lab: int)
    ensures Collected(g, NodeItems(group, lab)) ==
              g.(nodes := g.nodes + seq(|group|, i requires 0 <= i < |group| => GraphNode(group[i].id, ReadLabel(lab))))
    decreases |group|
  {
    if group != [] {
      CollectedNodeItems(g.(nodes := g.nodes + [GraphNode(group[0].id, ReadLabel(lab))]), group[1..], lab);
      assert NodeItems(group, lab)[1..] == NodeItems(group[1..], lab);
    }
  }

  lemma {:induction false} CollectedSavedNodes(g: Graph, verts: Partitions)
    ensures Collected(g, SavedNodes(verts)) == g.(nodes := g.nodes + Labelled(verts))
  {
    if verts != [] {
      var n := |verts| - 1;
      CollectedSavedNodes(g, verts[..n]);
      CollectedConcat(g, SavedNodes(verts[..n]), NodeItems(verts[n], n));
      CollectedNodeItems(Collected(g, SavedNodes(verts[..n])), verts[n], n);
    }
  }

  lemma {:induction false} CollectedSavedEdges(g: Graph, edges: seq<GraphEdge>)
    requires forall i | 0 <= i < |edges| :: edges[i].lab != 0
    ensures Collected(g, SavedEdges(edges)) == g.(edges := g.edges + edges)
    decreases |edges|
  {
    if edges != [] {
      CollectedSavedEdges(g.(edges := g.edges + [edges[0]]), edges[1..]);
      assert SavedEdges(edges)[1..] == SavedEdges(edges[1..]);
      assert edges[0].(lab := ReadLabel(edges[0].lab)) == edges[0];
    }
  }

  ghost predicate IdsInDomain(verts: Partitions) {
    forall p, i | 0 <= p < |verts| && 0 <= i < |verts[p]| :: 1 <= verts[p][i].id < 0x8000_0000
  }

  lemma {:induction false} SavedNodesInDomain(verts: Partitions)
    requires IdsInDomain(verts)
    ensures forall i | 0 <= i < |SavedNodes(verts)| :: InDomain(SavedNodes(verts)[i])
  {
    if verts != [] {
      SavedNodesInDomain(verts[..|verts| - 1]);
    }
  }

  /**
   * A saved graph parses to the partitions' vertices in order, labelled with their partition's
   * number (-1 for partition 0), and to the very edges that were loaded, which a parser never gives
   * label 0.
   */
  lemma SavedGraphReadsBack(verts: Partitions, edges: seq<GraphEdge>, dt: nat)
    requires IdsInDomain(verts)
    requires forall i | 0 <= i < |edges| ::
               edges[i].from < 0x8000_0000 && edges[i].to < 0x8000_0000 && edges[i].lab != 0
    ensures var lines := Lines(ClosedFile(HeaderLine(dt), SavedNodes(verts) + SavedEdges(edges)));
            FileOk(lines) && ParsedFrom(Graph([], []), lines) == Graph(Labelled(verts), edges)
  {
    var ws := SavedNodes(verts) + SavedEdges(edges);
    SavedNodesInDomain(verts);
    assert forall i | 0 <= i < |ws| :: InDomain(ws[i]);
    WrittenFileReadsBack(dt, ws);
    CollectedMeans(Graph([], []), ws);
    CollectedConcat(Graph([], []), SavedNodes(verts), SavedEdges(edges));
    CollectedSavedNodes(Graph([], []), verts);
    CollectedSavedEdges(Graph(Labelled(verts), []), edges);
    assert Collected(Graph([], []), SavedNodes(verts)) == Graph(Labelled(verts), []);
  }

  lemma {:induction false} InAllVertices(nodes: Partitions, v: Vertex)
    requires v in AllVertices(nodes)
    ensures exists p, i | 0 <= p < |nodes| && 0 <= i < |nodes[p]| :: nodes[p][i] == v
  {
    var n := |nodes| - 1;
    if v in multiset(nodes[n]) {
      assert v in nodes[n];
      var i :| 0 <= i < |nodes[n]| && nodes[n][i] == v;
      assert nodes[n][i] == v;
    } else {
      InAllVertices(nodes[..n], v);
      var p, i :| 0 <= p < n && 0 <= i < |nodes[..n][p]| && nodes[..n][p][i] == v;
      assert nodes[p][i] == v;
    }
  }

  lemma SameVerticesSameDomain(a: Partitions, b: Partitions)
    requires AllVertices(a) == AllVertices(b) && IdsInDomain(a)
    ensures IdsInDomain(b)
  {
    forall p, i | 0 <= p < |b| && 0 <= i < |b[p]| ensures 1 <= b[p][i].id < 0x8000_0000 {
      VerticesOfUpdate(b, p, i, b[p][i]);
      InAllVertices(a, b[p][i]);
    }
  }

  ghost predicate GraphInDomain(g: Graph) {
    && (forall i | 0 <= i < |g.nodes| :: 1 <= g.nodes[i].id < 0x8000_0000)
    && (forall i | 0 <= i < |g.edges| :: g.edges[i].from < 0x8000_0000 && g.edges[i].to < 0x8000_0000)
  }

  /**
   * The whole program on a file with distinct nodes: after any optimisation the printed total is the
   * cut of the file's graph and no larger than at the start; and the saved file parses to the
   * vertices in their partitions and to exactly the edges of the input file.
   */
  lemma PartitionFile(lines: seq<string>, groups: nat, picks: seq<Pick>, dt: nat)
    requires FileOk(lines) && groups > 0
    requires GraphInDomain(ParsedFrom(Graph([], []), lines))
    requires DistinctNodes(ParsedFrom(Graph([], []), lines).nodes)
    ensures var g := ParsedFrom(Graph([], []), lines);
            var loaded := Dealt(g.nodes, g.edges, groups);
            var s := OptimizedBy(loaded, picks);
            var saved := Lines(ClosedFile(HeaderLine(dt), SavedNodes(s) + SavedEdges(g.edges)));
            && Total(s) == Cut(s, g.edges) <= Cut(loaded, g.edges)
            && FileOk(saved) && ParsedFrom(Graph([], []), saved) == Graph(Labelled(s), g.edges)
  {
    var g := ParsedFrom(Graph([], []), lines);
    var loaded: seq<seq<Vertex>> := Dealt(g.nodes, g.edges, groups);
    var s := OptimizedBy(loaded, picks);
    ParsedLabelsNonzero(Graph([], []), lines);
    DealtHolds(g.nodes, g.edges, groups);
    DealtUnique(g.nodes, g.edges, groups);
    DealtFromNodes(g.nodes, g.edges, groups);
    CutNeverIncreases(loaded, g.edges, picks);
    assert IdsInDomain(loaded);
    SameVerticesSameDomain(loaded, s);
    SavedGraphReadsBack(s, g.edges, dt);
  }
}
