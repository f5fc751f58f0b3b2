/** The lineage graph and the queries on it (servo-lineage/src/graph.rs, queries.rs). */
module Lineage {
  import opened Wrappers
  import opened Assets
  import opened Digraphs
  import opened Walks
  import opened BreadthFirst

  datatype LineageNode = LineageNode(assetId: AssetId, name: string, nodeType: string)

  datatype LineageEdge = LineageEdge(edgeType: string)

  datatype Direction = Outgoing | Incoming

  /** The underlying directed multigraph: nodes by index, edges in insertion order. */
  datatype DiGraph = DiGraph(nodes: seq<LineageNode>, edges: seq<(Node, Node)>, weights: seq<LineageEdge>)
  {
    ghost predicate WellFormed() {
      && |edges| == |weights|
      && forall e :: e in edges ==> e.0 < |nodes| && e.1 < |nodes|
    }

    /** The edges as read in the given direction. */
    function Towards(direction: Direction): seq<(Node, Node)> {
      if direction == Outgoing then edges else Flip(edges)
    }

    function NeighborsDirected(n: Node, direction: Direction): seq<Node> {
      Successors(Towards(direction), n)
    }

    function Labels(p: seq<Node>): (ids: seq<AssetId>)
      requires Holds(p)
      ensures |ids| == |p|
      ensures forall i :: 0 <= i < |p| ==> ids[i] == nodes[p[i]].assetId
    {
      if p == [] then [] else [nodes[p[0]].assetId] + Labels(p[1..])
    }

    predicate Holds(p: seq<Node>) {
      forall i :: 0 <= i < |p| ==> p[i] < |nodes|
    }
  }

  /** The targets of the edges out of `n`, one per edge, newest edge first. */
  function Successors(edges: seq<(Node, Node)>, n: Node): seq<Node> {
    if edges == [] then []
    else
      var last := edges[|edges| - 1];
      (if last.0 == n then [last.1] else []) + Successors(edges[..|edges| - 1], n)
  }

  lemma {:induction false} SuccessorsAreEdges(edges: seq<(Node, Node)>, n: Node)
    ensures forall v :: v in Successors(edges, n) <==> (n, v) in edges
  {
    if edges != [] {
      var k := |edges| - 1;
      SuccessorsAreEdges(edges[..k], n);
      assert edges == edges[..k] + [edges[k]];
    }
  }

  lemma TowardsInRange(g: DiGraph, direction: Direction)
    requires g.WellFormed()
    ensures forall e :: e in g.Towards(direction) ==> e.0 < |g.nodes| && e.1 < |g.nodes|
  {
    forall e | e in g.Towards(direction) ensures e.0 < |g.nodes| && e.1 < |g.nodes| {
      var k :| 0 <= k < |g.Towards(direction)| && g.Towards(direction)[k] == e;
      assert g.edges[k] in g.edges;
    }
  }

  lemma NeighborsInRange(g: DiGraph, n: Node, direction: Direction)
    requires g.WellFormed()
    ensures forall v :: v in g.NeighborsDirected(n, direction) <==> (n, v) in g.Towards(direction)
    ensures forall v :: v in g.NeighborsDirected(n, direction) ==> v < |g.nodes|
  {
    SuccessorsAreEdges(g.Towards(direction), n);
    TowardsInRange(g, direction);
    forall v | v in g.NeighborsDirected(n, direction) ensures v < |g.nodes| {
      assert (n, v) in g.Towards(direction);
    }
  }

  class LineageGraph {
    var graph: DiGraph
    var assetToNode: map<AssetId, Node>

    /** The index leads each known asset to a node of that asset. */
    ghost predicate Valid()
      reads this
    {
      graph.WellFormed() && Indexed(graph, assetToNode)
    }

    constructor ()
      ensures Valid() && graph == DiGraph([], [], []) && assetToNode == map[]
    {
      graph := DiGraph([], [], []);
      assetToNode := map[];
    }

    /** A second node for the same asset takes over the index; the first keeps its edges. */
    method AddNode(node: LineageNode) returns (idx: Node)
      requires Valid()
      modifies this
      ensures Valid()
      ensures idx == |old(graph).nodes|
      ensures graph == old(graph).(nodes := old(graph).nodes + [node])
      ensures assetToNode == old(assetToNode)[node.assetId := idx]
      ensures old(UniqueIds(graph)) && node.assetId !in old(assetToNode) ==> UniqueIds(graph)
      ensures old(HasNoMixedEdges(graph, assetToNode)) ==>
                (HasNoMixedEdges(graph, assetToNode) <==> CanBeReplaced(old(graph), old(assetToNode), node.assetId))
    {
      ghost var before, index := graph, assetToNode;
      idx := |graph.nodes|;
      graph := graph.(nodes := graph.nodes + [node]);
      assetToNode := assetToNode[node.assetId := idx];
      if HasNoMixedEdges(before, index) {
        NewNodeMixesEdgesIff(before, index, node);
      }
    }

    method AddEdge(from: AssetId, to: AssetId, edge: LineageEdge) returns (r: Result<(), AssetId>)
      requires Valid()
      modifies this`graph
      ensures Valid()
      ensures old(HasNoMixedEdges(graph, assetToNode)) ==> HasNoMixedEdges(graph, assetToNode)
      ensures r == if from !in assetToNode then Err(from) else if to !in assetToNode then Err(to) else Ok(())
      ensures r.Err? ==> graph == old(graph)
      ensures r.Ok? ==> graph == old(graph).(
          edges := old(graph).edges + [(assetToNode[from], assetToNode[to])],
          weights := old(graph).weights + [edge])
    {
      if from !in assetToNode {
        return Err(from);
      }
      if to !in assetToNode {
        return Err(to);
      }
      graph := graph.(edges := graph.edges + [(assetToNode[from], assetToNode[to])],
                      weights := graph.weights + [edge]);
      return Ok(());
    }
  }

  /** A node with a depth, and an asset with a depth. */
  datatype Entry = Entry(node: Node, depth: nat)

  datatype Answer = Answer(assetId: AssetId, depth: nat)

  /** No two nodes are for the same asset. */
  ghost predicate UniqueIds(g: DiGraph) {
    forall i, j :: 0 <= i < j < |g.nodes| ==> g.nodes[i].assetId != g.nodes[j].assetId
  }

  // ----- What the queries answer -----

  predicate Within(maxDepth: MaxDepth, d: nat) {
    maxDepth.Unlimited? || d <= maxDepth.limit
  }

  /** How often the traversal lists node `v` at depth `d`: once if `d` is the length of the
      shortest nonempty walk to it and within the limit, but a direct neighbor once per edge. */
  ghost function ListedTimes(edges: seq<(Node, Node)>, s: Node, maxDepth: MaxDepth, v: Node, d: nat): nat {
    if Within(maxDepth, d) && IsDistance(edges, s, v, 1, d)
    then if d == 1 then multiset(Successors(edges, s))[v] else 1
    else 0
  }

  ghost predicate SortedByDepth(entries: seq<Entry>) {
    forall i, j :: 0 <= i < j < |entries| ==> entries[i].depth <= entries[j].depth
  }

  ghost predicate IsTraversal(edges: seq<(Node, Node)>, s: Node, maxDepth: MaxDepth, entries: seq<Entry>) {
    && (forall v, d: nat :: multiset(entries)[Entry(v, d)] == ListedTimes(edges, s, maxDepth, v, d))
    && SortedByDepth(entries)
  }

  ghost predicate InRange(g: DiGraph, entries: seq<Entry>) {
    forall e :: e in entries ==> e.node < |g.nodes|
  }

  ghost predicate LabelledAs(g: DiGraph, entries: seq<Entry>, r: seq<Answer>) {
    && InRange(g, entries)
    && |r| == |entries|
    && forall i :: 0 <= i < |r| ==> r[i] == Answer(g.nodes[entries[i].node].assetId, entries[i].depth)
  }

  /** `(a, d)` is an answer to the depth query from `start`: some node of `a` has its
      shortest nonempty walk from the start's node of length `d`, within the limit. */
  ghost predicate IsAnswer(g: DiGraph, index: map<AssetId, Node>, start: AssetId, direction: Direction,
                           maxDepth: MaxDepth, a: AssetId, d: nat)
  {
    && start in index
    && Within(maxDepth, d)
    && exists v :: FoundAt(g, index[start], direction, v, a, d)
  }

  ghost predicate FoundAt(g: DiGraph, s: Node, direction: Direction, v: Node, a: AssetId, d: nat) {
    v < |g.nodes| && g.nodes[v].assetId == a && IsDistance(g.Towards(direction), s, v, 1, d)
  }

  /** The whole answer: the labelled traversal, or nothing for an unknown start. */
  ghost predicate AnswersDepthQuery(g: DiGraph, index: map<AssetId, Node>, start: AssetId, direction: Direction,
                                    maxDepth: MaxDepth, r: seq<Answer>)
  {
    if start in index
    then exists entries :: LabelledAs(g, entries, r)
                           && IsTraversal(g.Towards(direction), index[start], maxDepth, entries)
    else r == []
  }

  /** A limit keeps the answers of the query without one up to that depth, itself included, and depths start
      at one. */
  lemma LimitCutsAnswers(g: DiGraph, index: map<AssetId, Node>, start: AssetId, direction: Direction, limit: nat,
                         a: AssetId, d: nat)
    ensures IsAnswer(g, index, start, direction, AtMost(limit), a, d)
       <==> 1 <= d <= limit && IsAnswer(g, index, start, direction, Unlimited, a, d)
  {
  }

  /** As a set, the answer is exactly the assets within the limit, each at its distance. */
  lemma AnswersAreExact(g: DiGraph, index: map<AssetId, Node>, start: AssetId, direction: Direction,
                        maxDepth: MaxDepth, r: seq<Answer>)
    requires g.WellFormed()
    requires AnswersDepthQuery(g, index, start, direction, maxDepth, r)
    ensures forall a, d: nat :: Answer(a, d) in r <==> IsAnswer(g, index, start, direction, maxDepth, a, d)
  {
    if start in index {
      var s, edges := index[start], g.Towards(direction);
      var entries: seq<Entry> :| LabelledAs(g, entries, r) && IsTraversal(edges, s, maxDepth, entries);
      forall a, d: nat ensures Answer(a, d) in r <==> IsAnswer(g, index, start, direction, maxDepth, a, d) {
        if Answer(a, d) in r {
          var i :| 0 <= i < |r| && r[i] == Answer(a, d);
          EntryIsFound(g, s, direction, maxDepth, entries, i);
          assert FoundAt(g, s, direction, entries[i].node, a, d);
        }
        if IsAnswer(g, index, start, direction, maxDepth, a, d) {
          var v: Node :| FoundAt(g, s, direction, v, a, d);
          var i := FoundIsEntry(g, s, direction, maxDepth, entries, v, a, d);
          assert r[i] == Answer(a, d);
        }
      }
    }
  }

  lemma EntryIsFound(g: DiGraph, s: Node, direction: Direction, maxDepth: MaxDepth, entries: seq<Entry>, i: nat)
    requires IsTraversal(g.Towards(direction), s, maxDepth, entries) && InRange(g, entries) && i < |entries|
    ensures Within(maxDepth, entries[i].depth)
    ensures entries[i].node < |g.nodes|
    ensures FoundAt(g, s, direction, entries[i].node, g.nodes[entries[i].node].assetId, entries[i].depth)
  {
    var Entry(v, d) := entries[i];
    assert entries[i] in entries;
    assert multiset(entries)[Entry(v, d)] == ListedTimes(g.Towards(direction), s, maxDepth, v, d);
  }

  lemma FoundIsEntry(g: DiGraph, s: Node, direction: Direction, maxDepth: MaxDepth, entries: seq<Entry>,
                     v: Node, a: AssetId, d: nat)
    returns (i: nat)
    requires IsTraversal(g.Towards(direction), s, maxDepth, entries)
    requires FoundAt(g, s, direction, v, a, d) && Within(maxDepth, d)
    ensures i < |entries| && entries[i] == Entry(v, d)
  {
    OneStepIsEdge(g.Towards(direction), s, v);
    SuccessorsAreEdges(g.Towards(direction), s);
    assert multiset(entries)[Entry(v, d)] == ListedTimes(g.Towards(direction), s, maxDepth, v, d);
    assert Entry(v, d) in entries;
    i :| 0 <= i < |entries| && entries[i] == Entry(v, d);
  }

  lemma OneStepIsEdge(edges: seq<(Node, Node)>, s: Node, v: Node)
    ensures HasWalk(edges, s, v, 1) <==> (s, v) in edges
  {
    if HasWalk(edges, s, v, 1) {
      var p :| WalkOf(edges, s, v, 1, p);
      assert (p[0], p[1]) in edges;
    }
    if (s, v) in edges {
      assert WalkOf(edges, s, v, 1, [s, v]);
    }
  }

  // ----- Relations between the queries -----

  ghost predicate Indexed(g: DiGraph, index: map<AssetId, Node>) {
    && (forall a :: a in index ==> index[a] < |g.nodes| && g.nodes[index[a]].assetId == a)
    && (forall n :: 0 <= n < |g.nodes| ==> g.nodes[n].assetId in index)
  }

  predicate IsIndexed(g: DiGraph, index: map<AssetId, Node>, n: Node) {
    n < |g.nodes| && g.nodes[n].assetId in index && index[g.nodes[n].assetId] == n
  }

  /** No edge joins an indexed node and one that another node of its asset has replaced in the index. */
  ghost predicate HasNoMixedEdges(g: DiGraph, index: map<AssetId, Node>) {
    forall e :: e in g.edges ==> (IsIndexed(g, index, e.0) <==> IsIndexed(g, index, e.1))
  }

  /** The asset has no node yet, or one with no edges but to itself. */
  ghost predicate CanBeReplaced(g: DiGraph, index: map<AssetId, Node>, a: AssetId) {
    a in index ==> forall e :: e in g.edges ==> (e.0 == index[a] <==> e.1 == index[a])
  }

  function WithNode(g: DiGraph, node: LineageNode): DiGraph {
    g.(nodes := g.nodes + [node])
  }

  /** Adding a node takes one node out of the index at most. */
  lemma StillIndexed(g: DiGraph, index: map<AssetId, Node>, node: LineageNode, n: Node)
    requires Indexed(g, index) && n < |g.nodes|
    ensures IsIndexed(WithNode(g, node), index[node.assetId := |g.nodes|], n)
       <==> IsIndexed(g, index, n) && !(node.assetId in index && n == index[node.assetId])
  {
  }

  lemma NewNodeMixesEdgesIff(g: DiGraph, index: map<AssetId, Node>, node: LineageNode)
    requires g.WellFormed() && Indexed(g, index) && HasNoMixedEdges(g, index)
    ensures HasNoMixedEdges(WithNode(g, node), index[node.assetId := |g.nodes|])
       <==> CanBeReplaced(g, index, node.assetId)
  {
    hide IsIndexed;
    var g', index' := WithNode(g, node), index[node.assetId := |g.nodes|];
    forall e | e in g.edges
      ensures IsIndexed(g', index', e.0) <==>
                IsIndexed(g, index, e.0) && !(node.assetId in index && e.0 == index[node.assetId])
      ensures IsIndexed(g', index', e.1) <==>
                IsIndexed(g, index, e.1) && !(node.assetId in index && e.1 == index[node.assetId])
    {
      StillIndexed(g, index, node, e.0);
      StillIndexed(g, index, node, e.1);
    }
    if node.assetId in index {
      IndexIsIndexed(g, index, node.assetId);
    }
  }

  lemma IndexIsIndexed(g: DiGraph, index: map<AssetId, Node>, a: AssetId)
    requires Indexed(g, index) && a in index
    ensures IsIndexed(g, index, index[a])
  {
  }

  /** With no two nodes for one asset, no edge is mixed. */
  lemma UniqueIdsAreIndexed(g: DiGraph, index: map<AssetId, Node>)
    requires g.WellFormed() && Indexed(g, index) && UniqueIds(g)
    ensures HasNoMixedEdges(g, index)
  {
    forall n | 0 <= n < |g.nodes| ensures IsIndexed(g, index, n) {
      assert index[g.nodes[n].assetId] == n;
    }
  }

  /** Without mixed edges walks from indexed nodes stay on indexed nodes. */
  lemma {:induction false} WalksStayIndexed(g: DiGraph, index: map<AssetId, Node>, direction: Direction,
                                            s: Node, v: Node, d: nat)
    requires HasNoMixedEdges(g, index) && IsIndexed(g, index, s) && HasWalk(g.Towards(direction), s, v, d)
    ensures IsIndexed(g, index, v)
    decreases d
  {
    hide IsIndexed;
    var edges := g.Towards(direction);
    if d == 0 {
      var p :| WalkOf(edges, s, v, 0, p);
    } else {
      var u := LastEdge(edges, s, v, d);
      WalksStayIndexed(g, index, direction, s, u, d - 1);
      var k :| 0 <= k < |edges| && edges[k] == (u, v);
      assert g.edges[k] in g.edges;
    }
  }

  /** Without mixed edges the answer is about the asset's own node. */
  lemma IndexedAnswer(g: DiGraph, index: map<AssetId, Node>, start: AssetId, direction: Direction,
                      maxDepth: MaxDepth, a: AssetId, d: nat)
    requires Indexed(g, index) && HasNoMixedEdges(g, index)
    ensures IsAnswer(g, index, start, direction, maxDepth, a, d)
       <==> start in index && a in index && Within(maxDepth, d)
            && IsDistance(g.Towards(direction), index[start], index[a], 1, d)
  {
    if IsAnswer(g, index, start, direction, maxDepth, a, d) {
      var v: Node :| FoundAt(g, index[start], direction, v, a, d);
      WalksStayIndexed(g, index, direction, index[start], v, d);
      assert v == index[a];
    }
    if start in index && a in index && IsDistance(g.Towards(direction), index[start], index[a], 1, d) {
      assert FoundAt(g, index[start], direction, index[a], a, d);
    }
  }

  ghost predicate AreDual(g: DiGraph, index: map<AssetId, Node>, a: AssetId, b: AssetId, maxDepth: MaxDepth, d: nat) {
    IsAnswer(g, index, b, Incoming, maxDepth, a, d) <==> IsAnswer(g, index, a, Outgoing, maxDepth, b, d)
  }

  /** For all pairs of assets ancestors and descendants correspond. */
  ghost predicate IsDual(g: DiGraph, index: map<AssetId, Node>) {
    forall a, b, maxDepth, d: nat :: AreDual(g, index, a, b, maxDepth, d)
  }

  /** Ancestors and descendants are dual when no edge is mixed. */
  lemma AncestorsAndDescendantsAreDual(g: DiGraph, index: map<AssetId, Node>)
    requires Indexed(g, index) && HasNoMixedEdges(g, index)
    ensures IsDual(g, index)
  {
    forall a, b, maxDepth, d: nat ensures AreDual(g, index, a, b, maxDepth, d) {
      IndexedAnswer(g, index, b, Incoming, maxDepth, a, d);
      IndexedAnswer(g, index, a, Outgoing, maxDepth, b, d);
      if a in index && b in index {
        FlipDistance(g.edges, index[a], index[b], 1, d);
      }
    }
  }

  /** A graph without mixed edges stays dual when a node is added exactly if the node it replaces in the
      index, if any, has no edges but to itself. */
  lemma NewNodeKeepsDualityIff(g: DiGraph, index: map<AssetId, Node>, node: LineageNode)
    requires g.WellFormed() && Indexed(g, index) && HasNoMixedEdges(g, index)
    ensures IsDual(WithNode(g, node), index[node.assetId := |g.nodes|]) <==> CanBeReplaced(g, index, node.assetId)
  {
    var g', index' := WithNode(g, node), index[node.assetId := |g.nodes|];
    if CanBeReplaced(g, index, node.assetId) {
      NewNodeMixesEdgesIff(g, index, node);
      AncestorsAndDescendantsAreDual(g', index');
    } else {
      var u := index[node.assetId];
      var e :| e in g.edges && !(e.0 == u <==> e.1 == u);
      IndexIsIndexed(g, index, node.assetId);
      if e.0 == u {
        EdgeOfReplacedNode(g, index, node, Incoming, e.1);
        assert !AreDual(g', index', node.assetId, g.nodes[e.1].assetId, Unlimited, 1);
      } else {
        EdgeOfReplacedNode(g, index, node, Outgoing, e.0);
        assert !AreDual(g', index', g.nodes[e.0].assetId, node.assetId, Unlimited, 1);
      }
    }
  }

  /** A node next to the replaced one still finds its asset, and is not found from it. */
  lemma EdgeOfReplacedNode(g: DiGraph, index: map<AssetId, Node>, node: LineageNode, direction: Direction, w: Node)
    requires g.WellFormed() && Indexed(g, index) && node.assetId in index
    requires IsIndexed(g, index, w) && w != index[node.assetId]
    requires (w, index[node.assetId]) in g.Towards(direction)
    ensures var back := if direction == Incoming then Outgoing else Incoming;
            var g', index', b := WithNode(g, node), index[node.assetId := |g.nodes|], g.nodes[w].assetId;
            && IsAnswer(g', index', b, direction, Unlimited, node.assetId, 1)
            && !IsAnswer(g', index', node.assetId, back, Unlimited, b, 1)
  {
    var g', index' := WithNode(g, node), index[node.assetId := |g.nodes|];
    var u, back := index[node.assetId], if direction == Incoming then Outgoing else Incoming;
    OneStepIsEdge(g'.Towards(direction), w, u);
    assert FoundAt(g', w, direction, u, node.assetId, 1);
    forall v ensures !FoundAt(g', |g.nodes|, back, v, g.nodes[w].assetId, 1) {
      OneStepIsEdge(g'.Towards(back), |g.nodes|, v);
      TowardsInRange(g, back);
    }
  }

  /** For distinct assets the distance is the depth of an unlimited descendant entry. */
  lemma DistanceIsDescendantDepth(g: DiGraph, index: map<AssetId, Node>, a: AssetId, b: AssetId, d: nat)
    requires Indexed(g, index) && HasNoMixedEdges(g, index) && a != b
    ensures (a in index && b in index && IsDistance(g.edges, index[a], index[b], 0, d))
       <==> IsAnswer(g, index, a, Outgoing, Unlimited, b, d)
  {
    IndexedAnswer(g, index, a, Outgoing, Unlimited, b, d);
    if a in index && b in index {
      assert index[a] != index[b];
      assert !HasWalk(g.edges, index[a], index[b], 0);
    }
  }

  // ----- Roots and leaves -----

  /** The nodes with no neighbor in the given direction, in index order. */
  function EndNodes(g: DiGraph, direction: Direction, n: nat): (r: seq<Node>)
    requires n <= |g.nodes|
    ensures g.Holds(r)
  {
    if n == 0 then []
    else EndNodes(g, direction, n - 1) + if g.NeighborsDirected(n - 1, direction) == [] then [n - 1] else []
  }

  function Roots(g: DiGraph): seq<AssetId> {
    g.Labels(EndNodes(g, Incoming, |g.nodes|))
  }

  function Leaves(g: DiGraph): seq<AssetId> {
    g.Labels(EndNodes(g, Outgoing, |g.nodes|))
  }

  /** No walk of an edge or more leads on from the node. */
  ghost predicate ReachesNothing(g: DiGraph, direction: Direction, v: Node) {
    forall w, d: nat :: !IsDistance(g.Towards(direction), v, w, 1, d)
  }

  ghost predicate IsEndOf(g: DiGraph, direction: Direction, v: Node, a: AssetId) {
    v < |g.nodes| && g.nodes[v].assetId == a && ReachesNothing(g, direction, v)
  }

  /** The roots are exactly the assets with a node that nothing leads to, the leaves those with one
      that leads nowhere. */
  lemma RootsAndLeavesAreEnds(g: DiGraph, a: AssetId)
    ensures a in Roots(g) <==> exists v :: IsEndOf(g, Incoming, v, a)
    ensures a in Leaves(g) <==> exists v :: IsEndOf(g, Outgoing, v, a)
  {
    LabelsOfEndNodes(g, Incoming, a);
    LabelsOfEndNodes(g, Outgoing, a);
  }

  lemma LabelsOfEndNodes(g: DiGraph, direction: Direction, a: AssetId)
    ensures a in g.Labels(EndNodes(g, direction, |g.nodes|)) <==> exists v :: IsEndOf(g, direction, v, a)
  {
    hide ReachesNothing;
    var ends := EndNodes(g, direction, |g.nodes|);
    if a in g.Labels(ends) {
      var i :| 0 <= i < |ends| && g.Labels(ends)[i] == a;
      EndNodesReachNothing(g, direction, ends[i]);
      assert IsEndOf(g, direction, ends[i], a);
    }
    if v: Node :| IsEndOf(g, direction, v, a) {
      EndNodesReachNothing(g, direction, v);
      var i :| 0 <= i < |ends| && ends[i] == v;
      assert g.Labels(ends)[i] == a;
    }
  }

  ghost predicate IsIncreasingBelow(nodes: seq<Node>, n: nat) {
    && (forall i :: 0 <= i < |nodes| ==> nodes[i] < n)
    && (forall i, j :: 0 <= i < j < |nodes| ==> nodes[i] < nodes[j])
  }

  /** End nodes are listed in order, so each once. */
  lemma {:induction false} EndNodesIncrease(g: DiGraph, direction: Direction, n: nat)
    requires n <= |g.nodes|
    ensures IsIncreasingBelow(EndNodes(g, direction, n), n)
  {
    hide Successors;
    if n > 0 {
      EndNodesIncrease(g, direction, n - 1);
      var before := EndNodes(g, direction, n - 1);
      if g.NeighborsDirected(n - 1, direction) == [] {
        assert EndNodes(g, direction, n) == before + [n - 1];
      } else {
        assert EndNodes(g, direction, n) == before;
      }
    }
  }

  /** A node is an end node exactly when its traversal in that direction finds nothing. */
  lemma EndNodesReachNothing(g: DiGraph, direction: Direction, v: Node)
    requires v < |g.nodes|
    ensures v in EndNodes(g, direction, |g.nodes|) <==> ReachesNothing(g, direction, v)
  {
    var edges := g.Towards(direction);
    EndNodesMembership(g, direction, |g.nodes|, v);
    SuccessorsAreEdges(edges, v);
    forall w, d: nat | IsDistance(edges, v, w, 1, d) ensures Successors(edges, v) != [] {
      var p :| WalkOf(edges, v, w, d, p);
      assert (p[0], p[1]) in edges;
    }
    if Successors(edges, v) != [] {
      var w := Successors(edges, v)[0];
      assert w in Successors(edges, v);
      OneStepIsEdge(edges, v, w);
      assert IsDistance(edges, v, w, 1, 1);
    }
  }

  lemma {:induction false} EndNodesMembership(g: DiGraph, direction: Direction, n: nat, v: Node)
    requires n <= |g.nodes|
    ensures v in EndNodes(g, direction, n) <==> v < n && g.NeighborsDirected(v, direction) == []
  {
    hide Successors;
    if n > 0 {
      EndNodesMembership(g, direction, n - 1, v);
    }
  }

  /** The walk lists no shorter way from the first asset's node to the second's. */
  ghost predicate IsShortestPath(g: DiGraph, index: map<AssetId, Node>, from: AssetId, to: AssetId,
                                 path: seq<AssetId>) {
    && from in index && to in index
    && exists p :: IsShortestWalk(g, index[from], index[to], p) && path == g.Labels(p)
  }

  ghost predicate IsShortestWalk(g: DiGraph, s: Node, t: Node, p: seq<Node>) {
    && g.Holds(p)
    && |p| > 0
    && WalkOf(g.edges, s, t, |p| - 1, p)
    && IsDistance(g.edges, s, t, 0, |p| - 1)
  }

  ghost predicate Reachable(g: DiGraph, index: map<AssetId, Node>, from: AssetId, to: AssetId) {
    from in index && to in index && exists n: nat :: HasWalk(g.edges, index[from], index[to], n)
  }

  // ----- Sorting -----

  /** The stable sort by depth applied to the result. */
  function SortByDepth(r: seq<Answer>): seq<Answer> {
    if r == [] then [] else InsertByDepth(r[0], SortByDepth(r[1..]))
  }

  function InsertByDepth(a: Answer, sorted: seq<Answer>): seq<Answer> {
    if sorted == [] || a.depth <= sorted[0].depth then [a] + sorted
    else [sorted[0]] + InsertByDepth(a, sorted[1..])
  }

  /** Sorting changes nothing in a list already in order of depth. */
  lemma {:induction false} SortIsIdentity(r: seq<Answer>)
    requires forall i, j :: 0 <= i < j < |r| ==> r[i].depth <= r[j].depth
    ensures SortByDepth(r) == r
  {
    if r != [] {
      SortIsIdentity(r[1..]);
    }
  }

  // ----- The shortest-path search -----

  /** Each discovered node but the source has a parent one step nearer to it. */
  ghost predicate ParentsLeadBack(edges: seq<(Node, Node)>, s: Node, dist: map<Node, nat>, parent: map<Node, Node>) {
    && s in dist && dist[s] == 0
    && parent.Keys == dist.Keys - {s}
    && forall v :: v in parent ==>
         parent[v] in dist && dist[v] == dist[parent[v]] + 1 && (parent[v], v) in edges
  }

  /** The state of the path search: `dist` is the distance that the search assigned. */
  ghost predicate PathSearch(g: DiGraph, s: Node, dist: map<Node, nat>, queue: seq<Node>, level: nat,
                             current: Node, rest: seq<Node>, parent: map<Node, Node>)
  {
    && Search(g.edges, s, 0, Unlimited, dist, queue, level, current, rest)
    && ParentsLeadBack(g.edges, s, dist, parent)
    && forall v :: v in dist ==> v < |g.nodes|
  }

  lemma DiscoverKeepsPathSearch(g: DiGraph, s: Node, dist: map<Node, nat>, queue: seq<Node>, level: nat,
                                current: Node, rest: seq<Node>, parent: map<Node, Node>)
    requires g.WellFormed() && PathSearch(g, s, dist, queue, level, current, rest, parent)
    requires current in dist && dist[current] == level
    requires rest != [] && rest[0] !in dist && (current, rest[0]) in g.edges
    ensures PathSearch(g, s, dist[rest[0] := level + 1], queue + [rest[0]], level, current, rest[1..],
                       parent[rest[0] := current])
  {
    DiscoverKeepsSearch(g.edges, s, 0, Unlimited, dist, queue, level, current, rest);
    DiscoverKeepsParents(g.edges, s, dist, parent, current, rest[0]);
    assert (current, rest[0]).1 < |g.nodes|;
  }

  /** The state of the scan of the neighbors of `current`, from `dist0` and `queue0` on. */
  ghost predicate Visiting(g: DiGraph, s: Node, t: Node, level: nat, current: Node, rest: seq<Node>,
                           visited: set<Node>, parent: map<Node, Node>, queue: seq<Node>, dist: map<Node, nat>,
                           dist0: map<Node, nat>, queue0: seq<Node>)
  {
    && visited == dist.Keys
    && current in dist && dist[current] == level
    && PathSearch(g, s, dist, queue, level, current, rest, parent)
    && (t in dist ==> t in queue)
    && Progress(g, dist0, queue0, dist, queue)
  }

  /** The state of the path search between two pops: the target, once discovered, is still queued. */
  ghost predicate Searching(g: DiGraph, s: Node, t: Node, visited: set<Node>, parent: map<Node, Node>,
                            queue: seq<Node>, dist: map<Node, nat>, level: nat, current: Node)
  {
    && visited == dist.Keys
    && PathSearch(g, s, dist, queue, level, current, [], parent)
    && (t in dist ==> t in queue)
  }

  lemma PopStartsVisiting(g: DiGraph, s: Node, t: Node, visited: set<Node>, parent: map<Node, Node>,
                          queue: seq<Node>, dist: map<Node, nat>, level: nat, current: Node)
    requires g.WellFormed() && queue != [] && queue[0] != t
    requires Searching(g, s, t, visited, parent, queue, dist, level, current)
    ensures queue[0] in dist
    ensures Visiting(g, s, t, dist[queue[0]], queue[0], g.NeighborsDirected(queue[0], Outgoing),
                     visited, parent, queue[1..], dist, dist, queue[1..])
  {
    NeighborsInRange(g, queue[0], Outgoing);
    assert queue == [queue[0]] + queue[1..];
    PopKeepsSearch(g.edges, s, 0, Unlimited, dist, queue, level, current, g.NeighborsDirected(queue[0], Outgoing));
  }

  /** When the target is next in the queue it has been found at its distance. */
  lemma TargetIsFound(g: DiGraph, s: Node, t: Node, visited: set<Node>, parent: map<Node, Node>,
                      queue: seq<Node>, dist: map<Node, nat>, level: nat, current: Node)
    requires Searching(g, s, t, visited, parent, queue, dist, level, current)
    requires queue != [] && queue[0] == t
    ensures t in dist && IsDistance(g.edges, s, t, 0, dist[t])
  {
    FoundAtDistance(g.edges, s, 0, Unlimited, dist, queue, level, current, t);
  }

  lemma SeenKeepsVisiting(g: DiGraph, s: Node, t: Node, level: nat, current: Node, rest: seq<Node>,
        visited: set<Node>, parent: map<Node, Node>, queue: seq<Node>, dist: map<Node, nat>,
        dist0: map<Node, nat>, queue0: seq<Node>)
    requires Visiting(g, s, t, level, current, rest, visited, parent, queue, dist, dist0, queue0)
    requires rest != [] && rest[0] in visited
    ensures Visiting(g, s, t, level, current, rest[1..], visited, parent, queue, dist, dist0, queue0)
  {
    SeenKeepsSearch(g.edges, s, 0, Unlimited, dist, queue, level, current, rest);
  }

  lemma DiscoverKeepsVisiting(g: DiGraph, s: Node, t: Node, level: nat, current: Node, rest: seq<Node>,
        visited: set<Node>, parent: map<Node, Node>, queue: seq<Node>, dist: map<Node, nat>,
        dist0: map<Node, nat>, queue0: seq<Node>)
    requires Visiting(g, s, t, level, current, rest, visited, parent, queue, dist, dist0, queue0)
    requires g.WellFormed() && rest != [] && rest[0] !in visited && (current, rest[0]) in g.edges
    ensures Visiting(g, s, t, level, current, rest[1..], visited + {rest[0]}, parent[rest[0] := current],
                     queue + [rest[0]], dist[rest[0] := level + 1], dist0, queue0)
  {
    hide PathSearch, Progress;
    var dist', queue' := dist[rest[0] := level + 1], queue + [rest[0]];
    DiscoverKeepsPathSearch(g, s, dist, queue, level, current, rest, parent);
    assert (current, rest[0]).1 < |g.nodes|;
    DiscoveryIsProgress(g, dist0, queue0, dist, queue, rest[0], level + 1, queue');
    assert visited + {rest[0]} == dist'.Keys;
    assert dist'[current] == level;
  }

  lemma PathSearchStarts(g: DiGraph, s: Node)
    requires s < |g.nodes|
    ensures PathSearch(g, s, map[s := 0], [s], 0, s, [], map[])
  {
  }

  lemma DiscoverKeepsParents(edges: seq<(Node, Node)>, s: Node, dist: map<Node, nat>, parent: map<Node, Node>,
                             current: Node, v: Node)
    requires ParentsLeadBack(edges, s, dist, parent)
    requires current in dist && v !in dist && (current, v) in edges
    ensures ParentsLeadBack(edges, s, dist[v := dist[current] + 1], parent[v := current])
  {
  }

  class LineageQuery {
    const graph: LineageGraph

    constructor (graph: LineageGraph)
      ensures this.graph == graph
    {
      this.graph := graph;
    }

    /** Breadth-first search with parent links. The answer is an edge-by-edge walk from
        `from` to `to` than which no walk is shorter. */
    method Path(from: AssetId, to: AssetId) returns (r: Option<seq<AssetId>>)
      requires graph.Valid()
      ensures r.Some? <==> Reachable(graph.graph, graph.assetToNode, from, to)
      ensures r.Some? ==> IsShortestPath(graph.graph, graph.assetToNode, from, to, r.value)
    {
      hide Search, Undiscovered, HasWalk, Reaches;
      if from !in graph.assetToNode {
        return None;
      }
      if to !in graph.assetToNode {
        return None;
      }
      var g := graph.graph;
      var fromIdx, toIdx := graph.assetToNode[from], graph.assetToNode[to];
      ghost var dist: map<Node, nat> := map[fromIdx := 0];
      ghost var level, last := 0, fromIdx;
      var visited := {fromIdx};
      var queue := [fromIdx];
      var parent: map<Node, Node> := map[];
      PathSearchStarts(g, fromIdx);
      while queue != []
        invariant Searching(g, fromIdx, toIdx, visited, parent, queue, dist, level, last)
        decreases Undiscovered(g, dist), |queue|
      {
        var current := queue[0];
        if current == toIdx {
          TargetIsFound(g, fromIdx, toIdx, visited, parent, queue, dist, level, last);
          ghost var walk;
          var path;
          path, walk := ReconstructPath(g, parent, toIdx, fromIdx, dist);
          return Some(path);
        }
        var neighbors := g.NeighborsDirected(current, Outgoing);
        NeighborsInRange(g, current, Outgoing);
        PopStartsVisiting(g, fromIdx, toIdx, visited, parent, queue, dist, level, last);
        last, level := current, dist[current];
        visited, parent, queue, dist :=
          VisitNeighbors(g, current, neighbors, visited, parent, queue[1..], fromIdx, toIdx, dist);
      }
      ExhaustedFindsAll(g.edges, fromIdx, dist, level, last, toIdx);
      return None;
    }

    /** The inner loop of `Path`: discovers the neighbors of `current` not yet visited. */
    static method VisitNeighbors(g: DiGraph, current: Node, neighbors: seq<Node>, visited0: set<Node>,
                                 parent0: map<Node, Node>, queue0: seq<Node>,
                                 ghost s: Node, ghost t: Node, ghost dist0: map<Node, nat>)
      returns (visited: set<Node>, parent: map<Node, Node>, queue: seq<Node>, ghost dist: map<Node, nat>)
      requires g.WellFormed() && current in dist0
      requires Visiting(g, s, t, dist0[current], current, neighbors, visited0, parent0, queue0, dist0, dist0, queue0)
      requires forall v :: v in neighbors ==> (current, v) in g.edges
      ensures Visiting(g, s, t, dist0[current], current, [], visited, parent, queue, dist, dist0, queue0)
      ensures visited == visited0 + Elems(neighbors) && queue0 <= queue
      ensures forall v :: v in parent0 && v in visited0 ==> v in parent && parent[v] == parent0[v]
      ensures forall v :: v in visited - visited0 ==> v in queue && v in parent && parent[v] == current
    {
      hide Visiting;
      visited, parent, queue, dist := visited0, parent0, queue0, dist0;
      for k := 0 to |neighbors|
        invariant Visiting(g, s, t, dist0[current], current, neighbors[k..], visited, parent, queue, dist,
                           dist0, queue0)
        invariant visited == visited0 + Elems(neighbors[..k]) && queue0 <= queue
        invariant forall v :: v in parent0 && v in visited0 ==> v in parent && parent[v] == parent0[v]
        invariant forall v :: v in visited - visited0 ==> v in queue && v in parent && parent[v] == current
      {
        var neighbor := neighbors[k];
        assert neighbors[k..][0] == neighbor && neighbors[k..][1..] == neighbors[k + 1..];
        assert neighbors[..k + 1] == neighbors[..k] + [neighbor];
        assert Elems(neighbors[..k + 1]) == Elems(neighbors[..k]) + {neighbor};
        if neighbor !in visited {
          DiscoverKeepsVisiting(g, s, t, dist0[current], current, neighbors[k..], visited, parent, queue, dist,
                                dist0, queue0);
          visited := visited + {neighbor};
          parent := parent[neighbor := current];
          queue := queue + [neighbor];
          dist := dist[neighbor := dist0[current] + 1];
        } else {
          SeenKeepsVisiting(g, s, t, dist0[current], current, neighbors[k..], visited, parent, queue, dist,
                            dist0, queue0);
        }
      }
      assert neighbors[|neighbors|..] == [] && neighbors[..|neighbors|] == neighbors;
    }

    /** Follows the parent links from the target; they end at the source. */
    static method ReconstructPath(g: DiGraph, parent: map<Node, Node>, toIdx: Node,
                                  ghost s: Node, ghost dist: map<Node, nat>)
      returns (path: seq<AssetId>, ghost walk: seq<Node>)
      requires ParentsLeadBack(g.edges, s, dist, parent) && toIdx in dist
      requires forall v :: v in dist ==> v < |g.nodes|
      ensures g.Holds(walk)
      ensures WalkOf(g.edges, s, toIdx, dist[toIdx], walk)
      ensures path == g.Labels(walk)
      ensures |path| == dist[toIdx] + 1
      ensures path[0] == g.nodes[s].assetId && path[|path| - 1] == g.nodes[toIdx].assetId
    {
      path := [g.nodes[toIdx].assetId];
      walk := [toIdx];
      var curr := toIdx;
      while curr in parent
        invariant curr in dist
        invariant g.Holds(walk)
        invariant dist[curr] <= dist[toIdx]
        invariant WalkOf(g.edges, curr, toIdx, dist[toIdx] - dist[curr], walk)
        invariant Reverse(path) == g.Labels(walk)
        decreases dist[curr]
      {
        var prev := parent[curr];
        PrependStep(g.edges, prev, curr, toIdx, dist[toIdx] - dist[curr], walk);
        path := path + [g.nodes[prev].assetId];
        walk := [prev] + walk;
        curr := prev;
      }
      path := Reverse(path);
    }

    /** Depth-limited breadth-first search. The start is not marked visited, so it is listed
        if it lies on a cycle, and a direct neighbor is listed once per edge. */
    method TraverseWithDepth(start: AssetId, direction: Direction, maxDepth: MaxDepth)
      returns (r: seq<Answer>)
      requires graph.Valid()
      ensures AnswersDepthQuery(graph.graph, graph.assetToNode, start, direction, maxDepth, r)
    {
      hide Traversal, ListedTimes, Undiscovered, Successors, SortByDepth;
      if start !in graph.assetToNode {
        return [];
      }
      var g := graph.graph;
      var startIdx := graph.assetToNode[start];
      ghost var edges := g.Towards(direction);
      ghost var entries: seq<Entry> := [];
      ghost var dist: map<Node, nat>;
      ghost var level: nat, last: Node := 0, startIdx;
      r := [];
      var visited, queue;
      visited, queue, dist := EnqueueNeighbors(g, startIdx, direction);
      TraversalStarts(edges, startIdx, maxDepth, dist, queue);
      while queue != []
        invariant Traversing(g, direction, startIdx, maxDepth, visited, queue, dist, entries, level, last)
        invariant LabelledAs(g, entries, r)
        decreases Undiscovered(g, dist), |queue|
      {
        var Entry(nodeIdx, depth) := queue[0];
        var neighbors := g.NeighborsDirected(nodeIdx, direction);
        NeighborsInRange(g, nodeIdx, direction);
        PopStartsEnqueuing(g, direction, startIdx, maxDepth, visited, queue, dist, entries, level, last);
        queue := queue[1..];
        last, level := nodeIdx, depth;
        if maxDepth.AtMost? && depth > maxDepth.limit {
          continue;
        }
        LabelledSnoc(g, entries, r, nodeIdx, depth);
        entries := entries + [Entry(nodeIdx, depth)];
        r := r + [Answer(g.nodes[nodeIdx].assetId, depth)];
        if Below(maxDepth, depth) {
          visited, queue, dist :=
            EnqueueUnvisited(g, direction, nodeIdx, depth, neighbors, visited, queue, startIdx, maxDepth, dist,
                             entries);
        }
      }
      TraversalEnds(edges, startIdx, maxDepth, dist, entries, level, last);
      SortIsIdentity(r);
      r := SortByDepth(r);
    }

    /** The first loop of `TraverseWithDepth`: every edge out of the start queues its end. */
    static method EnqueueNeighbors(g: DiGraph, startIdx: Node, direction: Direction)
      returns (visited: set<Node>, queue: seq<Entry>, ghost dist: map<Node, nat>)
      requires g.WellFormed()
      ensures visited == dist.Keys && forall v :: v in dist ==> v < |g.nodes|
      ensures StartsWithNeighbors(g.Towards(direction), startIdx, dist, queue)
      ensures FirstOf(queue) == g.NeighborsDirected(startIdx, direction) && visited == Elems(FirstOf(queue))
      ensures forall e :: e in queue ==> e.depth == 1
    {
      hide Successors;
      var neighbors := g.NeighborsDirected(startIdx, direction);
      SuccessorsAreEdges(g.Towards(direction), startIdx);
      TowardsInRange(g, direction);
      visited, queue, dist := {}, [], map[];
      for k := 0 to |neighbors|
        invariant |queue| == k && forall i :: 0 <= i < k ==> queue[i] == Entry(neighbors[i], 1)
        invariant visited == dist.Keys
        invariant forall v :: v in dist <==> v in neighbors[..k]
        invariant forall v :: v in dist ==> dist[v] == 1
      {
        queue := queue + [Entry(neighbors[k], 1)];
        visited := visited + {neighbors[k]};
        dist := dist[neighbors[k] := 1];
        assert neighbors[..k + 1] == neighbors[..k] + [neighbors[k]];
      }
      assert neighbors[..|neighbors|] == neighbors;
      forall v | v in dist ensures v < |g.nodes| {
        assert (startIdx, v) in g.Towards(direction);
      }
    }

    /** The inner loop of `TraverseWithDepth`: queues the neighbors not yet visited. */
    static method EnqueueUnvisited(g: DiGraph, direction: Direction, nodeIdx: Node, depth: nat, neighbors: seq<Node>,
                                   visited0: set<Node>, queue0: seq<Entry>,
                                   ghost s: Node, ghost maxDepth: MaxDepth, ghost dist0: map<Node, nat>,
                                   ghost entries: seq<Entry>)
      returns (visited: set<Node>, queue: seq<Entry>, ghost dist: map<Node, nat>)
      requires g.WellFormed() && Below(maxDepth, depth)
      requires Enqueuing(g, direction, s, maxDepth, visited0, queue0, dist0, entries, depth, nodeIdx, neighbors,
                         dist0, queue0)
      requires forall v :: v in neighbors ==> (nodeIdx, v) in g.Towards(direction) && v < |g.nodes|
      ensures Enqueuing(g, direction, s, maxDepth, visited, queue, dist, entries, depth, nodeIdx, [], dist0, queue0)
      ensures visited == visited0 + Elems(neighbors) && queue0 <= queue
      ensures forall v :: v in visited && v !in visited0 ==> Entry(v, depth + 1) in queue
    {
      hide Enqueuing;
      visited, queue, dist := visited0, queue0, dist0;
      for k := 0 to |neighbors|
        invariant Enqueuing(g, direction, s, maxDepth, visited, queue, dist, entries, depth, nodeIdx, neighbors[k..],
                            dist0, queue0)
        invariant visited == visited0 + Elems(neighbors[..k]) && queue0 <= queue
        invariant forall v :: v in visited && v !in visited0 ==> Entry(v, depth + 1) in queue
      {
        var neighbor := neighbors[k];
        assert neighbors[k..][0] == neighbor && neighbors[k..][1..] == neighbors[k + 1..];
        assert neighbors[..k + 1] == neighbors[..k] + [neighbor];
        assert Elems(neighbors[..k + 1]) == Elems(neighbors[..k]) + {neighbor};
        if neighbor !in visited {
          DiscoverKeepsEnqueuing(g, direction, s, maxDepth, visited, queue, dist, entries, depth, nodeIdx,
                                 neighbors[k..],
                                 dist0, queue0);
          visited := visited + {neighbor};
          queue := queue + [Entry(neighbor, depth + 1)];
          assert Entry(neighbor, depth + 1) in queue;
          dist := dist[neighbor := depth + 1];
        } else {
          SeenKeepsEnqueuing(g, direction, s, maxDepth, visited, queue, dist, entries, depth, nodeIdx, neighbors[k..],
                             dist0, queue0);
        }
      }
      assert neighbors[|neighbors|..] == [] && neighbors[..|neighbors|] == neighbors;
    }

    method AncestorsWithDepth(assetId: AssetId, maxDepth: MaxDepth) returns (r: seq<Answer>)
      requires graph.Valid()
      ensures AnswersDepthQuery(graph.graph, graph.assetToNode, assetId, Incoming, maxDepth, r)
      ensures forall a, d: nat :: Answer(a, d) in r <==>
                IsAnswer(graph.graph, graph.assetToNode, assetId, Incoming, maxDepth, a, d)
    {
      r := TraverseWithDepth(assetId, Incoming, maxDepth);
      AnswersAreExact(graph.graph, graph.assetToNode, assetId, Incoming, maxDepth, r);
    }

    method DescendantsWithDepth(assetId: AssetId, maxDepth: MaxDepth) returns (r: seq<Answer>)
      requires graph.Valid()
      ensures AnswersDepthQuery(graph.graph, graph.assetToNode, assetId, Outgoing, maxDepth, r)
      ensures forall a, d: nat :: Answer(a, d) in r <==>
                IsAnswer(graph.graph, graph.assetToNode, assetId, Outgoing, maxDepth, a, d)
    {
      r := TraverseWithDepth(assetId, Outgoing, maxDepth);
      AnswersAreExact(graph.graph, graph.assetToNode, assetId, Outgoing, maxDepth, r);
    }

    /** The assets that are ancestors of both, each once, in arbitrary order. */
    method CommonAncestors(asset1: AssetId, asset2: AssetId) returns (r: seq<AssetId>)
      requires graph.Valid()
      ensures NoRepeats(r)
      ensures forall a :: a in r <==>
                (exists d: nat :: IsAnswer(graph.graph, graph.assetToNode, asset1, Incoming, Unlimited, a, d)) &&
                (exists d: nat :: IsAnswer(graph.graph, graph.assetToNode, asset2, Incoming, Unlimited, a, d))
    {
      hide IsAnswer, AnswersDepthQuery;
      var ancestors1 := AncestorsWithDepth(asset1, Unlimited);
      var ancestors2 := AncestorsWithDepth(asset2, Unlimited);
      r := ListOf(Ids(ancestors1) * Ids(ancestors2));
    }

    /** The assets that are descendants of both, each once, in arbitrary order. */
    method CommonDescendants(asset1: AssetId, asset2: AssetId) returns (r: seq<AssetId>)
      requires graph.Valid()
      ensures NoRepeats(r)
      ensures forall a :: a in r <==>
                (exists d: nat :: IsAnswer(graph.graph, graph.assetToNode, asset1, Outgoing, Unlimited, a, d)) &&
                (exists d: nat :: IsAnswer(graph.graph, graph.assetToNode, asset2, Outgoing, Unlimited, a, d))
    {
      hide IsAnswer, AnswersDepthQuery;
      var descendants1 := DescendantsWithDepth(asset1, Unlimited);
      var descendants2 := DescendantsWithDepth(asset2, Unlimited);
      r := ListOf(Ids(descendants1) * Ids(descendants2));
    }

    /** Both unlimited traversals, their sizes and their greatest depths. */
    method FullLineage(assetId: AssetId) returns (r: LineageInfo)
      requires graph.Valid()
      ensures r.assetId == assetId
      ensures AnswersDepthQuery(graph.graph, graph.assetToNode, assetId, Incoming, Unlimited, r.upstreamAssets)
      ensures AnswersDepthQuery(graph.graph, graph.assetToNode, assetId, Outgoing, Unlimited, r.downstreamAssets)
      ensures r.upstreamCount == |r.upstreamAssets| && r.downstreamCount == |r.downstreamAssets|
      ensures IsGreatestDepth(r.upstreamAssets, r.maxUpstreamDepth)
      ensures IsGreatestDepth(r.downstreamAssets, r.maxDownstreamDepth)
    {
      var upstream := AncestorsWithDepth(assetId, Unlimited);
      var downstream := DescendantsWithDepth(assetId, Unlimited);
      r := LineageInfo(assetId, |upstream|, |downstream|, upstream, downstream,
                       GreatestDepth(upstream), GreatestDepth(downstream));
    }

    static method ListOf(ids: set<AssetId>) returns (r: seq<AssetId>)
      ensures NoRepeats(r) && forall a :: a in r <==> a in ids
    {
      r := [];
      var left := ids;
      while left != {}
        invariant left <= ids && NoRepeats(r)
        invariant forall a :: a in r <==> a in ids - left
        decreases left
      {
        var a :| a in left;
        assert a !in r;
        r := r + [a];
        left := left - {a};
      }
    }

    method Distance(from: AssetId, to: AssetId) returns (r: Option<nat>)
      requires graph.Valid()
      ensures r.Some? <==> Reachable(graph.graph, graph.assetToNode, from, to)
      ensures r.Some? ==> IsDistance(graph.graph.edges, graph.assetToNode[from], graph.assetToNode[to], 0, r.value)
    {
      var path := Path(from, to);
      if path.None? {
        return None;
      }
      return Some(|path.value| - 1);
    }

    method IsReachable(from: AssetId, to: AssetId) returns (r: bool)
      requires graph.Valid()
      ensures r <==> Reachable(graph.graph, graph.assetToNode, from, to)
    {
      var path := Path(from, to);
      return path.Some?;
    }
  }

  /** With the queue empty, a node never discovered is not reachable. */
  lemma ExhaustedFindsAll(edges: seq<(Node, Node)>, s: Node, dist: map<Node, nat>, level: nat, current: Node, v: Node)
    requires Search(edges, s, 0, Unlimited, dist, [], level, current, [])
    ensures v !in dist ==> forall n: nat :: !HasWalk(edges, s, v, n)
  {
    forall n: nat | HasWalk(edges, s, v, n) ensures v in dist {
      ReachesIffWalk(edges, s, v, n);
      ShortWalksAreFound(edges, s, 0, Unlimited, dist, [], level, current, n, v);
    }
  }

  // ----- The depth-limited traversal -----

  function FirstOf(queue: seq<Entry>): (r: seq<Node>)
    ensures |r| == |queue|
    ensures forall i :: 0 <= i < |queue| ==> r[i] == queue[i].node
  {
    if queue == [] then [] else [queue[0].node] + FirstOf(queue[1..])
  }

  /** The entries carry the distances assigned to their nodes. */
  ghost predicate Carries(dist: map<Node, nat>, entries: seq<Entry>) {
    forall e :: e in entries ==> e.node in dist && e.depth == dist[e.node]
  }

  /** Each discovered node is queued or listed once, a direct neighbor once per edge. */
  ghost predicate Tallied(edges: seq<(Node, Node)>, s: Node, dist: map<Node, nat>, all: seq<Entry>) {
    forall v :: v in dist ==>
      multiset(all)[Entry(v, dist[v])] == if dist[v] == 1 then multiset(Successors(edges, s))[v] else 1
  }

  /** What has been listed, and what is queued to be listed. */
  ghost predicate Listing(edges: seq<(Node, Node)>, s: Node, maxDepth: MaxDepth, dist: map<Node, nat>,
                          queue: seq<Entry>, entries: seq<Entry>, level: nat)
  {
    && Carries(dist, queue) && Carries(dist, entries)
    && SortedByDepth(entries) && (forall e :: e in entries ==> e.depth <= level && Within(maxDepth, e.depth))
    && if !Within(maxDepth, 1) then entries == []
       else (forall e :: e in queue ==> Within(maxDepth, e.depth))
            && Tallied(edges, s, dist, entries + queue)
  }

  ghost predicate Traversal(edges: seq<(Node, Node)>, s: Node, maxDepth: MaxDepth, dist: map<Node, nat>,
                            queue: seq<Entry>, entries: seq<Entry>, level: nat, current: Node, rest: seq<Node>)
  {
    && Search(edges, s, 1, maxDepth, dist, FirstOf(queue), level, current, rest)
    && Listing(edges, s, maxDepth, dist, queue, entries, level)
  }

  ghost predicate StartsWithNeighbors(edges: seq<(Node, Node)>, s: Node, dist: map<Node, nat>, queue: seq<Entry>) {
    && FirstOf(queue) == Successors(edges, s)
    && (forall e :: e in queue ==> e.depth == 1)
    && (forall v :: v in dist <==> v in Successors(edges, s))
    && (forall v :: v in dist ==> dist[v] == 1)
  }

  lemma {:induction false} PairedTally(queue: seq<Entry>, d: nat, v: Node)
    requires forall e :: e in queue ==> e.depth == d
    ensures multiset(queue)[Entry(v, d)] == multiset(FirstOf(queue))[v]
  {
    if queue != [] {
      assert queue == [queue[0]] + queue[1..];
      PairedTally(queue[1..], d, v);
    }
  }

  lemma SearchStarts(edges: seq<(Node, Node)>, s: Node, maxDepth: MaxDepth, dist: map<Node, nat>, queue: seq<Node>)
    requires queue == Successors(edges, s)
    requires forall v :: v in dist <==> v in queue
    requires forall v :: v in dist ==> dist[v] == 1
    ensures Search(edges, s, 1, maxDepth, dist, queue, 0, s, [])
  {
    SuccessorsAreEdges(edges, s);
    forall v ensures Reaches(edges, s, v, 1) <==> v in dist {
      if v in dist {
        assert Reaches(edges, s, s, 0);
      }
    }
    assert forall i :: 0 <= i < |queue| ==> queue[i] in queue;
  }

  lemma ListingStarts(edges: seq<(Node, Node)>, s: Node, maxDepth: MaxDepth, dist: map<Node, nat>, queue: seq<Entry>)
    requires StartsWithNeighbors(edges, s, dist, queue)
    ensures Listing(edges, s, maxDepth, dist, queue, [], 0)
  {
    forall e | e in queue ensures e.node in dist && e.depth == dist[e.node] {
      var i :| 0 <= i < |queue| && queue[i] == e;
      assert FirstOf(queue)[i] in Successors(edges, s);
    }
    assert [] + queue == queue;
    forall v | v in dist ensures multiset(queue)[Entry(v, dist[v])] == multiset(Successors(edges, s))[v] {
      PairedTally(queue, 1, v);
    }
    assert Tallied(edges, s, dist, queue);
  }

  lemma TraversalStarts(edges: seq<(Node, Node)>, s: Node, maxDepth: MaxDepth, dist: map<Node, nat>, queue: seq<Entry>)
    requires StartsWithNeighbors(edges, s, dist, queue)
    ensures Traversal(edges, s, maxDepth, dist, queue, [], 0, s, [])
  {
    hide Search, Listing;
    SearchStarts(edges, s, maxDepth, dist, FirstOf(queue));
    ListingStarts(edges, s, maxDepth, dist, queue);
  }

  lemma ListFront(edges: seq<(Node, Node)>, s: Node, maxDepth: MaxDepth, dist: map<Node, nat>,
                  queue: seq<Entry>, entries: seq<Entry>, level: nat)
    requires Listing(edges, s, maxDepth, dist, queue, entries, level) && queue != []
    requires level <= queue[0].depth && 0 < queue[0].depth && Within(maxDepth, queue[0].depth)
    ensures Listing(edges, s, maxDepth, dist, queue[1..], entries + [queue[0]], queue[0].depth)
  {
    hide Tallied;
    var e := queue[0];
    assert (entries + [e]) + queue[1..] == entries + queue;
    assert queue == [e] + queue[1..];
    assert SortedByDepth(entries + [e]) by {
      assert forall i :: 0 <= i < |entries| ==> entries[i] in entries;
    }
  }

  lemma DropFront(edges: seq<(Node, Node)>, s: Node, maxDepth: MaxDepth, dist: map<Node, nat>,
                  queue: seq<Entry>, entries: seq<Entry>, level: nat)
    requires Listing(edges, s, maxDepth, dist, queue, entries, level) && queue != []
    requires level <= queue[0].depth && !Within(maxDepth, queue[0].depth)
    ensures Listing(edges, s, maxDepth, dist, queue[1..], entries, queue[0].depth)
  {
    assert queue == [queue[0]] + queue[1..];
    assert queue[0] in queue;
  }

  lemma PopKeepsTraversal(edges: seq<(Node, Node)>, s: Node, maxDepth: MaxDepth, dist: map<Node, nat>,
                          queue: seq<Entry>, entries: seq<Entry>, level: nat, current: Node, neighbors: seq<Node>)
    requires Traversal(edges, s, maxDepth, dist, queue, entries, level, current, []) && queue != []
    requires forall v :: (queue[0].node, v) in edges ==> v in neighbors
    ensures var Entry(n, d) := queue[0];
            && n in dist && d == dist[n]
            && Traversal(edges, s, maxDepth, dist, queue[1..],
                         if Within(maxDepth, d) then entries + [Entry(n, d)] else entries, d, n,
                         if Below(maxDepth, d) then neighbors else [])
  {
    var Entry(n, d) := queue[0];
    assert FirstOf(queue)[0] == n;
    assert FirstOf(queue)[1..] == FirstOf(queue[1..]);
    PopKeepsSearch(edges, s, 1, maxDepth, dist, FirstOf(queue), level, current,
                   if Below(maxDepth, d) then neighbors else []);
    assert n in dist && d == dist[n] && level <= d && d >= 1;
    if Within(maxDepth, d) {
      ListFront(edges, s, maxDepth, dist, queue, entries, level);
    } else {
      DropFront(edges, s, maxDepth, dist, queue, entries, level);
    }
  }

  lemma DiscoverKeepsListing(edges: seq<(Node, Node)>, s: Node, maxDepth: MaxDepth, dist: map<Node, nat>,
                             queue: seq<Entry>, entries: seq<Entry>, v: Node, depth: nat)
    requires Listing(edges, s, maxDepth, dist, queue, entries, depth)
    requires v !in dist && 0 < depth && Below(maxDepth, depth)
    ensures Listing(edges, s, maxDepth, dist[v := depth + 1], queue + [Entry(v, depth + 1)], entries, depth)
  {
    hide Tallied, SortedByDepth;
    var all := entries + queue;
    assert entries + (queue + [Entry(v, depth + 1)]) == all + [Entry(v, depth + 1)];
    if Within(maxDepth, 1) {
      DiscoverKeepsTally(edges, s, dist, all, v, depth + 1);
    }
  }

  lemma DiscoverKeepsTally(edges: seq<(Node, Node)>, s: Node, dist: map<Node, nat>, all: seq<Entry>, v: Node, d: nat)
    requires Tallied(edges, s, dist, all) && Carries(dist, all)
    requires v !in dist && d > 1
    ensures Tallied(edges, s, dist[v := d], all + [Entry(v, d)])
  {
    hide Successors;
    assert Entry(v, d) !in all;
    forall u | u in dist[v := d]
      ensures multiset(all + [Entry(v, d)])[Entry(u, dist[v := d][u])]
           == if dist[v := d][u] == 1 then multiset(Successors(edges, s))[u] else 1
    {
      if u != v {
        assert multiset(all)[Entry(u, dist[u])] == if dist[u] == 1 then multiset(Successors(edges, s))[u] else 1;
      }
    }
  }

  lemma DiscoverKeepsTraversal(edges: seq<(Node, Node)>, s: Node, maxDepth: MaxDepth, dist: map<Node, nat>,
                               queue: seq<Entry>, entries: seq<Entry>, depth: nat, current: Node, rest: seq<Node>)
    requires Traversal(edges, s, maxDepth, dist, queue, entries, depth, current, rest)
    requires current in dist && dist[current] == depth && Below(maxDepth, depth)
    requires rest != [] && (current, rest[0]) in edges && rest[0] !in dist
    ensures Traversal(edges, s, maxDepth, dist[rest[0] := depth + 1], queue + [Entry(rest[0], depth + 1)],
                      entries, depth, current, rest[1..])
  {
    DiscoverKeepsSearch(edges, s, 1, maxDepth, dist, FirstOf(queue), depth, current, rest);
    assert FirstOf(queue + [Entry(rest[0], depth + 1)]) == FirstOf(queue) + [rest[0]];
    DiscoverKeepsListing(edges, s, maxDepth, dist, queue, entries, rest[0], depth);
  }

  /** The state of the scan of the neighbors of `current`, from `dist0` and `queue0` on. */
  ghost predicate Enqueuing(g: DiGraph, direction: Direction, s: Node, maxDepth: MaxDepth, visited: set<Node>,
                            queue: seq<Entry>, dist: map<Node, nat>, entries: seq<Entry>, depth: nat, current: Node,
                            rest: seq<Node>, dist0: map<Node, nat>, queue0: seq<Entry>)
  {
    && visited == dist.Keys && (forall v :: v in dist ==> v < |g.nodes|)
    && current in dist && dist[current] == depth
    && Traversal(g.Towards(direction), s, maxDepth, dist, queue, entries, depth, current, rest)
    && Progress(g, dist0, queue0, dist, queue)
  }

  /** The state of the traversal between two pops. */
  ghost predicate Traversing(g: DiGraph, direction: Direction, s: Node, maxDepth: MaxDepth, visited: set<Node>,
                             queue: seq<Entry>, dist: map<Node, nat>, entries: seq<Entry>, level: nat, current: Node)
  {
    && visited == dist.Keys && (forall v :: v in dist ==> v < |g.nodes|)
    && Traversal(g.Towards(direction), s, maxDepth, dist, queue, entries, level, current, [])
  }

  lemma PopStartsEnqueuing(g: DiGraph, direction: Direction, s: Node, maxDepth: MaxDepth, visited: set<Node>,
                           queue: seq<Entry>, dist: map<Node, nat>, entries: seq<Entry>, level: nat, current: Node)
    requires g.WellFormed() && queue != []
    requires Traversing(g, direction, s, maxDepth, visited, queue, dist, entries, level, current)
    ensures queue[0].node < |g.nodes|
    ensures var Entry(n, d) := queue[0];
            Enqueuing(g, direction, s, maxDepth, visited, queue[1..], dist,
                      if Within(maxDepth, d) then entries + [queue[0]] else entries, d, n,
                      if Below(maxDepth, d) then g.NeighborsDirected(n, direction) else [], dist, queue[1..])
  {
    NeighborsInRange(g, queue[0].node, direction);
    PopKeepsTraversal(g.Towards(direction), s, maxDepth, dist, queue, entries, level, current,
                      g.NeighborsDirected(queue[0].node, direction));
  }

  lemma SeenKeepsEnqueuing(g: DiGraph, direction: Direction, s: Node, maxDepth: MaxDepth, visited: set<Node>,
        queue: seq<Entry>, dist: map<Node, nat>, entries: seq<Entry>, depth: nat, current: Node,
        rest: seq<Node>, dist0: map<Node, nat>, queue0: seq<Entry>)
    requires Enqueuing(g, direction, s, maxDepth, visited, queue, dist, entries, depth, current, rest, dist0, queue0)
    requires rest != [] && rest[0] in visited
    ensures Enqueuing(g, direction, s, maxDepth, visited, queue, dist, entries, depth, current, rest[1..],
                      dist0, queue0)
  {
    SeenKeepsSearch(g.Towards(direction), s, 1, maxDepth, dist, FirstOf(queue), depth, current, rest);
  }

  lemma DiscoverKeepsEnqueuing(g: DiGraph, direction: Direction, s: Node, maxDepth: MaxDepth, visited: set<Node>,
        queue: seq<Entry>, dist: map<Node, nat>, entries: seq<Entry>, depth: nat, current: Node,
        rest: seq<Node>, dist0: map<Node, nat>, queue0: seq<Entry>)
    requires Enqueuing(g, direction, s, maxDepth, visited, queue, dist, entries, depth, current, rest, dist0, queue0)
    requires g.WellFormed() && Below(maxDepth, depth)
    requires rest != [] && rest[0] !in visited && (current, rest[0]) in g.Towards(direction) && rest[0] < |g.nodes|
    ensures Enqueuing(g, direction, s, maxDepth, visited + {rest[0]}, queue + [Entry(rest[0], depth + 1)],
                      dist[rest[0] := depth + 1], entries, depth, current, rest[1..], dist0, queue0)
  {
    hide Traversal, Progress;
    var dist', queue' := dist[rest[0] := depth + 1], queue + [Entry(rest[0], depth + 1)];
    DiscoverKeepsTraversal(g.Towards(direction), s, maxDepth, dist, queue, entries, depth, current, rest);
    DiscoveryIsProgress(g, dist0, queue0, dist, queue, rest[0], depth + 1, queue');
    assert visited + {rest[0]} == dist'.Keys;
    assert dist'[current] == depth;
  }

  lemma LabelledSnoc(g: DiGraph, entries: seq<Entry>, r: seq<Answer>, n: Node, d: nat)
    requires LabelledAs(g, entries, r) && n < |g.nodes|
    ensures LabelledAs(g, entries + [Entry(n, d)], r + [Answer(g.nodes[n].assetId, d)])
  {
  }

  /** When the queue is empty the entries are the traversal. */
  lemma TraversalEnds(edges: seq<(Node, Node)>, s: Node, maxDepth: MaxDepth, dist: map<Node, nat>,
                      entries: seq<Entry>, level: nat, current: Node)
    requires Traversal(edges, s, maxDepth, dist, [], entries, level, current, [])
    ensures IsTraversal(edges, s, maxDepth, entries)
  {
    forall v: Node, d: nat ensures multiset(entries)[Entry(v, d)] == ListedTimes(edges, s, maxDepth, v, d) {
      ListedOnce(edges, s, maxDepth, dist, entries, level, current, v, d);
    }
  }

  lemma ListedOnce(edges: seq<(Node, Node)>, s: Node, maxDepth: MaxDepth, dist: map<Node, nat>,
                   entries: seq<Entry>, level: nat, current: Node, v: Node, d: nat)
    requires Traversal(edges, s, maxDepth, dist, [], entries, level, current, [])
    ensures multiset(entries)[Entry(v, d)] == ListedTimes(edges, s, maxDepth, v, d)
  {
    var none: seq<Entry> := [];
    assert entries + none == entries;
    if Entry(v, d) in entries {
      FoundAtDistance(edges, s, 1, maxDepth, dist, [], level, current, v);
    } else if Within(maxDepth, d) && IsDistance(edges, s, v, 1, d) {
      ReachesIffWalk(edges, s, v, d);
      ShortWalksAreFound(edges, s, 1, maxDepth, dist, [], level, current, d, v);
      ReachesIffWalk(edges, s, v, dist[v]);
      assert d == dist[v];
      SuccessorsAreEdges(edges, s);
      assert d == 1 ==> (s, v) in edges;
    }
  }

  ghost function Undiscovered(g: DiGraph, dist: map<Node, nat>): nat {
    |Indices(|g.nodes|) - dist.Keys|
  }

  /** Scanning the neighbors discovers something new or leaves the queue as it was. */
  ghost predicate Progress<T>(g: DiGraph, dist0: map<Node, nat>, queue0: seq<T>, dist: map<Node, nat>, queue: seq<T>) {
    Undiscovered(g, dist) < Undiscovered(g, dist0) || (dist == dist0 && queue == queue0)
  }

  lemma DiscoveryIsProgress<T>(g: DiGraph, dist0: map<Node, nat>, queue0: seq<T>, dist: map<Node, nat>, queue: seq<T>,
                               v: Node, d: nat, queue': seq<T>)
    requires Progress(g, dist0, queue0, dist, queue)
    requires v < |g.nodes| && v !in dist
    ensures Progress(g, dist0, queue0, dist[v := d], queue')
  {
    hide Indices;
    var all := Indices(|g.nodes|);
    assert all - dist[v := d].Keys == (all - dist.Keys) - {v};
    assert v in all - dist.Keys;
  }

  datatype LineageInfo = LineageInfo(
    assetId: AssetId,
    upstreamCount: nat,
    downstreamCount: nat,
    upstreamAssets: seq<Answer>,
    downstreamAssets: seq<Answer>,
    maxUpstreamDepth: nat,
    maxDownstreamDepth: nat)

  function Ids(r: seq<Answer>): (ids: set<AssetId>)
    ensures forall a :: a in ids <==> exists d: nat :: Answer(a, d) in r
  {
    var ids := set x | x in r :: x.assetId;
    assert forall a :: a in ids ==> exists x :: x in r && x == Answer(a, x.depth);
    ids
  }

  ghost predicate IsGreatestDepth(r: seq<Answer>, d: nat) {
    if r == [] then d == 0
    else (exists a :: Answer(a, d) in r) && forall x :: x in r ==> x.depth <= d
  }

  function GreatestDepth(r: seq<Answer>): (d: nat)
    ensures IsGreatestDepth(r, d)
  {
    if r == [] then 0
    else
      var rest := GreatestDepth(r[1..]);
      assert r == [r[0]] + r[1..];
      assert r[0] == Answer(r[0].assetId, r[0].depth);
      if rest <= r[0].depth then r[0].depth else rest
  }

  function Indices(n: nat): (r: set<Node>)
    ensures forall i :: i in r <==> 0 <= i < n
  {
    if n == 0 then {} else Indices(n - 1) + {n - 1}
  }

  lemma PrependStep(edges: seq<(Node, Node)>, u: Node, s: Node, t: Node, n: nat, walk: seq<Node>)
    requires WalkOf(edges, s, t, n, walk) && (u, s) in edges
    ensures WalkOf(edges, u, t, n + 1, [u] + walk)
  {
    var longer := [u] + walk;
    forall i | 0 <= i < |longer| - 1 ensures (longer[i], longer[i + 1]) in edges {
      if i > 0 { assert (walk[i - 1], walk[i]) in edges; }
    }
  }
}
