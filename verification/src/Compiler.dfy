/** The workflow compiler: existence check, then Kahn's algorithm
    (servo-core/src/compiler.rs). */
module Compiler {
  import opened Wrappers
  import opened Assets
  import opened Digraphs

  datatype WorkflowId = WorkflowId(uuid: nat)

  datatype Workflow = Workflow(id: WorkflowId, assets: seq<AssetId>)

  datatype ExecutionPlan = ExecutionPlan(workflowId: WorkflowId, executionOrder: seq<AssetId>)

  datatype CompileError =
    | CircularDependency
    | MissingAsset(missingAsset: AssetId)
    | MissingDependency(asset: string, missing: AssetId)
    | DuplicateAsset(name: string)

  type AssetTable = map<AssetId, Asset>
  type Edge = (AssetId, AssetId)

  // ----- What a workflow must satisfy -----

  ghost predicate AllRegistered(assets: AssetTable, ids: seq<AssetId>) {
    forall i :: 0 <= i < |ids| ==> ids[i] in assets
  }

  /** The dependency is registered and listed in the workflow. */
  predicate Resolved(assets: AssetTable, ids: set<AssetId>, dependency: AssetDependency) {
    dependency.upstreamAssetId in assets && dependency.upstreamAssetId in ids
  }

  ghost predicate DependenciesResolved(assets: AssetTable, ids: set<AssetId>, id: AssetId)
    requires id in assets
  {
    forall d :: d in assets[id].dependencies ==> Resolved(assets, ids, d)
  }

  /** Every dependency of a listed asset is registered and listed. */
  ghost predicate Closed(assets: AssetTable, ids: seq<AssetId>)
    requires AllRegistered(assets, ids)
  {
    AllResolved(assets, Elems(ids), ids)
  }

  ghost predicate AllResolved(assets: AssetTable, nodes: set<AssetId>, ids: seq<AssetId>)
    requires AllRegistered(assets, ids)
  {
    forall i :: 0 <= i < |ids| ==> DependenciesResolved(assets, nodes, ids[i])
  }

  /** The dependency edges (upstream, asset), in the order the compiler meets them:
      one for each dependency of each occurrence of an asset in the list. */
  ghost function DependencyEdges(assets: AssetTable, ids: seq<AssetId>): seq<Edge>
    requires AllRegistered(assets, ids)
  {
    if ids == [] then []
    else
      var last := ids[|ids| - 1];
      DependencyEdges(assets, ids[..|ids| - 1]) + EdgesInto(last, assets[last].dependencies)
  }

  ghost function EdgesInto(id: AssetId, dependencies: seq<AssetDependency>): seq<Edge> {
    if dependencies == [] then []
    else
      var n := |dependencies| - 1;
      EdgesInto(id, dependencies[..n]) + [(dependencies[n].upstreamAssetId, id)]
  }

  /** The list can be compiled: registered, closed, repeat-free and acyclic. */
  ghost predicate Compilable(assets: AssetTable, ids: seq<AssetId>) {
    && AllRegistered(assets, ids)
    && Closed(assets, ids)
    && NoRepeats(ids)
    && Acyclic(DependencyEdges(assets, ids))
  }

  /** A permutation of the list in which every asset follows all its upstream assets. */
  ghost predicate IsExecutionOrder(assets: AssetTable, ids: seq<AssetId>, order: seq<AssetId>) {
    && multiset(order) == multiset(ids)
    && forall j, d :: 0 <= j < |order| && order[j] in assets && d in assets[order[j]].dependencies
                      ==> d.upstreamAssetId in order[..j]
  }

  /** `error` names the first listed asset that is not registered. */
  ghost predicate ReportsFirstMissing(assets: AssetTable, ids: seq<AssetId>, error: CompileError) {
    exists i :: 0 <= i < |ids| && ids[i] !in assets && AllRegistered(assets, ids[..i])
                && error == MissingAsset(ids[i])
  }

  /** `error` names the first dependency, in list and dependency order, that is not resolved. */
  ghost predicate ReportsFirstDangling(assets: AssetTable, ids: seq<AssetId>, error: CompileError)
    requires AllRegistered(assets, ids)
  {
    exists i, j :: 0 <= i < |ids| && DanglingAt(assets, ids, i, j, error)
  }

  ghost predicate DanglingAt(assets: AssetTable, ids: seq<AssetId>, i: nat, j: nat, error: CompileError)
    requires AllRegistered(assets, ids) && i < |ids|
  {
    var asset := assets[ids[i]];
    && j < |asset.dependencies|
    && !Resolved(assets, Elems(ids), asset.dependencies[j])
    && AllResolved(assets, Elems(ids), ids[..i])
    && (forall k :: 0 <= k < j ==> Resolved(assets, Elems(ids), asset.dependencies[k]))
    && error == MissingDependency(asset.name, asset.dependencies[j].upstreamAssetId)
  }

  // ----- Edges against dependencies -----

  lemma {:induction false} EdgesIntoMembership(id: AssetId, dependencies: seq<AssetDependency>)
    ensures forall u, v :: (u, v) in EdgesInto(id, dependencies) <==>
              v == id && exists d :: d in dependencies && d.upstreamAssetId == u
  {
    if dependencies != [] {
      var n := |dependencies| - 1;
      EdgesIntoMembership(id, dependencies[..n]);
      assert dependencies == dependencies[..n] + [dependencies[n]];
    }
  }

  lemma {:induction false} EdgeMembership(assets: AssetTable, ids: seq<AssetId>)
    requires AllRegistered(assets, ids)
    ensures forall u, v :: (u, v) in DependencyEdges(assets, ids) <==>
              v in ids && exists d :: d in assets[v].dependencies && d.upstreamAssetId == u
  {
    if ids != [] {
      var n := |ids| - 1;
      var last := ids[n];
      EdgeMembership(assets, ids[..n]);
      EdgesIntoMembership(last, assets[last].dependencies);
      assert ids == ids[..n] + [last];
    }
  }

  /** In a closed workflow every edge joins two listed assets. */
  lemma ClosedEdges(assets: AssetTable, ids: seq<AssetId>)
    requires AllRegistered(assets, ids) && Closed(assets, ids)
    ensures forall e :: e in DependencyEdges(assets, ids) ==> e.0 in Elems(ids) && e.1 in Elems(ids)
  {
    EdgeMembership(assets, ids);
    forall e | e in DependencyEdges(assets, ids) ensures e.0 in Elems(ids) && e.1 in Elems(ids) {
      assert (e.0, e.1) in DependencyEdges(assets, ids);
      var d :| d in assets[e.1].dependencies && d.upstreamAssetId == e.0;
      var i :| 0 <= i < |ids| && ids[i] == e.1;
      assert DependenciesResolved(assets, Elems(ids), ids[i]);
    }
  }

  // ----- In-degrees -----

  /** The children of `u`, one entry per edge. */
  function Children(edges: seq<Edge>, u: AssetId): seq<AssetId> {
    if edges == [] then []
    else
      var last := edges[|edges| - 1];
      Children(edges[..|edges| - 1], u) + if last.0 == u then [last.1] else []
  }

  /** The number of edges into `v` from nodes not yet done. */
  function Pending(edges: seq<Edge>, done: set<AssetId>, v: AssetId): nat {
    if edges == [] then 0
    else
      var last := edges[|edges| - 1];
      Pending(edges[..|edges| - 1], done, v) + if last.1 == v && last.0 !in done then 1 else 0
  }

  lemma {:induction false} PendingZero(edges: seq<Edge>, done: set<AssetId>, v: AssetId)
    ensures Pending(edges, done, v) == 0 <==> forall e :: e in edges && e.1 == v ==> e.0 in done
  {
    if edges != [] {
      var n := |edges| - 1;
      PendingZero(edges[..n], done, v);
      assert edges == edges[..n] + [edges[n]];
      assert edges[n] in edges;
    }
  }

  /** Finishing `u` releases exactly the edges counted by its child list. */
  lemma {:induction false} PendingDone(edges: seq<Edge>, done: set<AssetId>, u: AssetId, v: AssetId)
    requires u !in done
    ensures Pending(edges, done, v) == Pending(edges, done + {u}, v) + multiset(Children(edges, u))[v]
  {
    if edges != [] {
      PendingDone(edges[..|edges| - 1], done, u, v);
    }
  }

  lemma {:induction false} ChildrenAreEdges(edges: seq<Edge>, u: AssetId)
    ensures forall v :: v in Children(edges, u) ==> (u, v) in edges
  {
    if edges != [] {
      var n := |edges| - 1;
      ChildrenAreEdges(edges[..n], u);
      assert edges == edges[..n] + [edges[n]];
    }
  }

  // ----- The tables of the algorithm -----

  function ChildrenOf(graph: map<AssetId, seq<AssetId>>, u: AssetId): seq<AssetId> {
    if u in graph then graph[u] else []
  }

  ghost predicate TablesFor(nodes: set<AssetId>, edges: seq<Edge>,
                            graph: map<AssetId, seq<AssetId>>, indegree: map<AssetId, nat>)
  {
    && (forall u :: ChildrenOf(graph, u) == Children(edges, u))
    && indegree.Keys == nodes
    && (forall v :: v in nodes ==> indegree[v] == Pending(edges, {}, v))
  }

  /** The state of Kahn's loop while the edges into `rest` are still to be released
      (`rest` is empty between two pops): each node's in-degree counts its edges from
      nodes not yet processed, the nodes already queued or ordered are exactly those
      with none left, each of them once, and upstream comes first. */
  ghost predicate KahnInvariant(nodes: set<AssetId>, edges: seq<Edge>, indegree: map<AssetId, nat>,
                                ready: seq<AssetId>, ordered: seq<AssetId>, rest: seq<AssetId>)
  {
    && indegree.Keys == nodes
    && Elems(rest) <= nodes
    && NoRepeats(ordered + ready)
    && Elems(ordered + ready) <= nodes
    && (forall v :: v in nodes ==> indegree[v] == Pending(edges, Elems(ordered), v) + multiset(rest)[v])
    && (forall v :: v in nodes ==> (indegree[v] == 0 <==> v in ordered + ready))
    && UpstreamFirst(edges, ordered)
  }

  /** Taking the queue's front keeps the invariant, with its child list to release. */
  lemma PopKeepsInvariant(nodes: set<AssetId>, edges: seq<Edge>, indegree: map<AssetId, nat>,
                          ready: seq<AssetId>, ordered: seq<AssetId>)
    requires forall e :: e in edges ==> e.1 in nodes
    requires KahnInvariant(nodes, edges, indegree, ready, ordered, []) && ready != []
    ensures ready[0] in nodes && ready[0] !in Elems(ordered)
    ensures Elems(ordered + [ready[0]]) == Elems(ordered) + {ready[0]}
    ensures KahnInvariant(nodes, edges, indegree, ready[1..], ordered + [ready[0]], Children(edges, ready[0]))
  {
    var u := ready[0];
    var ordered' := ordered + [u];
    assert ordered' + ready[1..] == ordered + ready;
    assert (ordered + ready)[|ordered|] == u;
    assert forall i :: 0 <= i < |ordered| ==> (ordered + ready)[i] == ordered[i];
    assert u in ordered + ready;
    assert Elems(ordered') == Elems(ordered) + {u};
    assert u in Elems(ordered + ready);
    assert indegree[u] == 0;
    PendingZero(edges, Elems(ordered), u);
    UpstreamFirstSnoc(edges, ordered, u);
    ChildrenAreEdges(edges, u);
    forall v | v in nodes
      ensures indegree[v] == Pending(edges, Elems(ordered'), v) + multiset(Children(edges, u))[v]
    {
      PendingDone(edges, Elems(ordered), u, v);
    }
  }

  /** Releasing one edge never underflows, and queues the child exactly when it was the last. */
  lemma ReleaseKeepsInvariant(nodes: set<AssetId>, edges: seq<Edge>, indegree: map<AssetId, nat>,
                              ready: seq<AssetId>, ordered: seq<AssetId>, rest: seq<AssetId>)
    requires KahnInvariant(nodes, edges, indegree, ready, ordered, rest) && rest != []
    ensures rest[0] in indegree && indegree[rest[0]] > 0
    ensures var entry := indegree[rest[0]] - 1;
            KahnInvariant(nodes, edges, indegree[rest[0] := entry],
                          if entry == 0 then ready + [rest[0]] else ready, ordered, rest[1..])
  {
    var c := rest[0];
    assert rest == [c] + rest[1..];
    assert c in Elems(rest);
    assert multiset(rest) == multiset{c} + multiset(rest[1..]);
    var entry := indegree[c] - 1;
    var ready' := if entry == 0 then ready + [c] else ready;
    assert c !in ordered + ready;
    if entry == 0 {
      assert ordered + ready' == (ordered + ready) + [c];
    }
  }

  /** With the queue empty, the nodes left out each wait for another one left out. */
  lemma LeftOverIsStuck(nodes: set<AssetId>, edges: seq<Edge>, indegree: map<AssetId, nat>, ordered: seq<AssetId>)
    requires forall e :: e in edges ==> e.0 in nodes
    requires KahnInvariant(nodes, edges, indegree, [], ordered, [])
    ensures forall v :: v in nodes - Elems(ordered) ==> HasPredecessorIn(edges, nodes - Elems(ordered), v)
  {
    assert ordered + [] == ordered;
    forall v | v in nodes - Elems(ordered) ensures HasPredecessorIn(edges, nodes - Elems(ordered), v) {
      PendingZero(edges, Elems(ordered), v);
      assert indegree[v] != 0;
      var e :| e in edges && e.1 == v && e.0 !in Elems(ordered);
      assert (e.0, v) in edges;
    }
  }

  /** An exhausted run has ordered every node exactly when the graph is acyclic;
      otherwise the unordered nodes contain a cycle. */
  lemma ExhaustedRun(nodes: set<AssetId>, edges: seq<Edge>, indegree: map<AssetId, nat>, ordered: seq<AssetId>)
    requires forall e :: e in edges ==> e.0 in nodes && e.1 in nodes
    requires KahnInvariant(nodes, edges, indegree, [], ordered, [])
    ensures NoRepeats(ordered) && Elems(ordered) <= nodes && UpstreamFirst(edges, ordered)
    ensures |ordered| == |nodes| <==> Elems(ordered) == nodes
    ensures Elems(ordered) == nodes <==> Acyclic(edges)
    ensures Elems(ordered) != nodes ==> exists cycle :: IsCycle(edges, cycle) && Elems(cycle) !! Elems(ordered)
  {
    assert ordered + [] == ordered;
    NoRepeatsSize(ordered);
    SubsetSize(Elems(ordered), nodes);
    if Elems(ordered) == nodes {
      OrderedIsAcyclic(edges, ordered);
    } else {
      LeftOverIsStuck(nodes, edges, indegree, ordered);
      var left :| left in nodes && left !in Elems(ordered);
      assert left in nodes - Elems(ordered);
      var cycle := PredecessorsMakeCycle(edges, nodes - Elems(ordered));
      assert IsCycle(edges, cycle) && Elems(cycle) !! Elems(ordered);
    }
  }

  /** A full, upstream-first order of a repeat-free list is an execution order. */
  lemma FullOrderIsExecutionOrder(assets: AssetTable, ids: seq<AssetId>, ordered: seq<AssetId>)
    requires AllRegistered(assets, ids) && NoRepeats(ids)
    requires NoRepeats(ordered) && Elems(ordered) == Elems(ids)
    requires UpstreamFirst(DependencyEdges(assets, ids), ordered)
    ensures IsExecutionOrder(assets, ids, ordered)
  {
    SameElemsPermutation(ordered, ids);
    EdgeMembership(assets, ids);
    forall j, d | 0 <= j < |ordered| && ordered[j] in assets && d in assets[ordered[j]].dependencies
      ensures d.upstreamAssetId in ordered[..j]
    {
      assert ordered[j] in Elems(ordered);
      assert (d.upstreamAssetId, ordered[j]) in DependencyEdges(assets, ids);
    }
  }

  // ----- The compiler -----

  class WorkflowCompiler {
    var assetsById: AssetTable
    var assetsByName: map<string, AssetId>

    /** Each table entry is filed under its own id, and every known name leads to an asset. */
    ghost predicate Valid()
      reads this
    {
      && (forall id :: id in assetsById ==> assetsById[id].id == id)
      && (forall name :: name in assetsByName ==> assetsByName[name] in assetsById)
    }

    constructor ()
      ensures Valid() && assetsById == map[] && assetsByName == map[]
    {
      assetsById := map[];
      assetsByName := map[];
    }

    /** Only the name is checked: an asset registered again under a new name replaces
        the entry of its id, and the old name then leads to the renamed asset. */
    method RegisterAsset(asset: Asset) returns (r: Result<(), CompileError>)
      requires Valid()
      modifies this
      ensures Valid()
      ensures r == if asset.name in old(assetsByName) then Err(DuplicateAsset(asset.name)) else Ok(())
      ensures r.Err? ==> assetsById == old(assetsById) && assetsByName == old(assetsByName)
      ensures r.Ok? ==> assetsById == old(assetsById)[asset.id := asset]
                        && assetsByName == old(assetsByName)[asset.name := asset.id]
    {
      if asset.name in assetsByName {
        return Err(DuplicateAsset(asset.name));
      }
      assetsByName := assetsByName[asset.name := asset.id];
      assetsById := assetsById[asset.id := asset];
      return Ok(());
    }

    method ValidateAssetsExist(workflow: Workflow) returns (r: Result<(), CompileError>)
      ensures r.Ok? <==> AllRegistered(assetsById, workflow.assets)
      ensures r.Err? ==> ReportsFirstMissing(assetsById, workflow.assets, r.error)
    {
      for i := 0 to |workflow.assets|
        invariant AllRegistered(assetsById, workflow.assets[..i])
      {
        if workflow.assets[i] !in assetsById {
          return Err(MissingAsset(workflow.assets[i]));
        }
      }
      return Ok(());
    }

    /** The adjacency and in-degree tables, or the first dependency that is not resolved. */
    method BuildTables(workflow: Workflow)
      returns (r: Result<(), CompileError>, graph: map<AssetId, seq<AssetId>>, indegree: map<AssetId, nat>)
      requires AllRegistered(assetsById, workflow.assets)
      ensures r.Ok? <==> Closed(assetsById, workflow.assets)
      ensures r.Err? ==> ReportsFirstDangling(assetsById, workflow.assets, r.error)
      ensures r.Ok? ==> TablesFor(Elems(workflow.assets), DependencyEdges(assetsById, workflow.assets), graph, indegree)
    {
      var workflowAssets := Elems(workflow.assets);
      indegree := map id | id in workflowAssets :: 0;
      graph := map[];
      for i := 0 to |workflow.assets|
        invariant TablesFor(workflowAssets, DependencyEdges(assetsById, workflow.assets[..i]), graph, indegree)
        invariant AllResolved(assetsById, workflowAssets, workflow.assets[..i])
      {
        ghost var edges := DependencyEdges(assetsById, workflow.assets[..i]);
        var asset := workflow.assets[i];
        var dangling;
        dangling, graph, indegree :=
          AddDependencies(assetsById, workflowAssets, asset, graph, indegree, edges);
        if dangling.Some? {
          var upstream := assetsById[asset].dependencies[dangling.value].upstreamAssetId;
          var error := MissingDependency(assetsById[asset].name, upstream);
          FoundDangling(assetsById, workflow.assets, i, dangling.value, error);
          return Err(error), graph, indegree;
        }
        PrefixSnoc(assetsById, workflowAssets, workflow.assets, i);
      }
      assert workflow.assets[..|workflow.assets|] == workflow.assets;
      return Ok(()), graph, indegree;
    }

    /** The inner loop of `BuildTables`: adds the edges of one listed asset, up to the first
        dependency that is not resolved, whose index it then returns. */
    static method AddDependencies(assets: AssetTable, ids: set<AssetId>, assetId: AssetId,
                                  graph0: map<AssetId, seq<AssetId>>, indegree0: map<AssetId, nat>,
                                  ghost edges0: seq<Edge>)
      returns (dangling: Option<nat>, graph: map<AssetId, seq<AssetId>>, indegree: map<AssetId, nat>)
      requires assetId in assets && assetId in ids
      requires TablesFor(ids, edges0, graph0, indegree0)
      ensures dangling.None? ==> DependenciesResolved(assets, ids, assetId)
      ensures dangling.None? ==>
                TablesFor(ids, edges0 + EdgesInto(assetId, assets[assetId].dependencies), graph, indegree)
      ensures dangling.Some? ==> var dependencies := assets[assetId].dependencies;
                && dangling.value < |dependencies|
                && !Resolved(assets, ids, dependencies[dangling.value])
                && forall k :: 0 <= k < dangling.value ==> Resolved(assets, ids, dependencies[k])
    {
      var dependencies := assets[assetId].dependencies;
      hide TablesFor, EdgesInto, Resolved;
      graph, indegree := graph0, indegree0;
      NoEdgesYet(edges0, assetId, dependencies);
      for j := 0 to |dependencies|
        invariant TablesFor(ids, edges0 + EdgesInto(assetId, dependencies[..j]), graph, indegree)
        invariant forall k :: 0 <= k < j ==> Resolved(assets, ids, dependencies[k])
      {
        var upstream := dependencies[j].upstreamAssetId;
        ResolvedIff(assets, ids, dependencies[j]);
        if upstream !in assets {
          return Some(j), graph, indegree;
        }
        if upstream !in ids {
          return Some(j), graph, indegree;
        }
        TablesAfterDependency(ids, edges0, graph, indegree, assetId, dependencies, j);
        graph := graph[upstream := ChildrenOf(graph, upstream) + [assetId]];
        indegree := indegree[assetId := indegree[assetId] + 1];
      }
      assert dependencies[..|dependencies|] == dependencies;
      return None, graph, indegree;
    }

    /** The nodes with no incoming edge, each once, in the arbitrary order in which
        a hash map is iterated. */
    static method InitialReady(indegree: map<AssetId, nat>) returns (ready: seq<AssetId>)
      ensures NoRepeats(ready)
      ensures forall v :: v in ready <==> v in indegree && indegree[v] == 0
    {
      ready := [];
      var unseen := indegree.Keys;
      while unseen != {}
        invariant unseen <= indegree.Keys
        invariant NoRepeats(ready)
        invariant forall v :: v in ready <==> v in indegree.Keys - unseen && indegree[v] == 0
        decreases unseen
      {
        var v :| v in unseen;
        if indegree[v] == 0 {
          ready := ready + [v];
        }
        unseen := unseen - {v};
      }
    }

    /** Kahn's loop. `usize` in-degrees are naturals, so each decrement is proved not to underflow. */
    static method OrderByInDegree(graph: map<AssetId, seq<AssetId>>, indegree0: map<AssetId, nat>,
                                  ghost edges: seq<Edge>)
      returns (ordered: seq<AssetId>)
      requires TablesFor(indegree0.Keys, edges, graph, indegree0)
      requires forall e :: e in edges ==> e.0 in indegree0 && e.1 in indegree0
      ensures exists indegree :: KahnInvariant(indegree0.Keys, edges, indegree, [], ordered, [])
    {
      var indegree := indegree0;
      var ready := InitialReady(indegree);
      ordered := [];
      assert ordered + ready == ready;
      assert Elems(ordered) == {};
      while ready != []
        invariant KahnInvariant(indegree0.Keys, edges, indegree, ready, ordered, [])
        decreases indegree0.Keys - Elems(ordered)
      {
        PopKeepsInvariant(indegree0.Keys, edges, indegree, ready, ordered);
        var assetId := ready[0];
        ready := ready[1..];
        ordered := ordered + [assetId];
        indegree, ready := ReleaseChildren(ChildrenOf(graph, assetId), indegree, ready, indegree0.Keys, edges, ordered);
      }
    }

    /** The inner loop of `OrderByInDegree`: releases the edges of the node just popped. */
    static method ReleaseChildren(children: seq<AssetId>, indegree0: map<AssetId, nat>, ready0: seq<AssetId>,
                                  ghost nodes: set<AssetId>, ghost edges: seq<Edge>, ghost ordered: seq<AssetId>)
      returns (indegree: map<AssetId, nat>, ready: seq<AssetId>)
      requires KahnInvariant(nodes, edges, indegree0, ready0, ordered, children)
      ensures KahnInvariant(nodes, edges, indegree, ready, ordered, [])
    {
      hide KahnInvariant;
      indegree, ready := indegree0, ready0;
      for k := 0 to |children|
        invariant KahnInvariant(nodes, edges, indegree, ready, ordered, children[k..])
      {
        ReleaseKeepsInvariant(nodes, edges, indegree, ready, ordered, children[k..]);
        assert children[k..][1..] == children[k + 1..];
        var child := children[k];
        indegree := indegree[child := indegree[child] - 1];
        if indegree[child] == 0 {
          ready := ready + [child];
        }
      }
      assert children[|children|..] == [];
    }

    /** Derives the execution order of a workflow whose assets are all registered. */
    method TopologicalSort(workflow: Workflow) returns (r: Result<seq<AssetId>, CompileError>)
      requires AllRegistered(assetsById, workflow.assets)
      ensures r.Ok? <==> Compilable(assetsById, workflow.assets)
      ensures r.Ok? ==> IsExecutionOrder(assetsById, workflow.assets, r.value)
      ensures r.Err? ==> if Closed(assetsById, workflow.assets) then r.error == CircularDependency
                         else ReportsFirstDangling(assetsById, workflow.assets, r.error)
    {
      var built, graph, indegree := BuildTables(workflow);
      if built.Err? {
        return Err(built.error);
      }
      ghost var edges := DependencyEdges(assetsById, workflow.assets);
      ClosedEdges(assetsById, workflow.assets);
      var ordered := OrderByInDegree(graph, indegree, edges);
      ghost var final :| KahnInvariant(indegree.Keys, edges, final, [], ordered, []);
      ExhaustedRun(indegree.Keys, edges, final, ordered);
      NoRepeatsIffSize(workflow.assets);
      ElemsBound(workflow.assets);
      SubsetSize(Elems(ordered), indegree.Keys);
      NoRepeatsSize(ordered);
      if |ordered| != |workflow.assets| {
        return Err(CircularDependency);
      }
      FullOrderIsExecutionOrder(assetsById, workflow.assets, ordered);
      return Ok(ordered);
    }

    /** Compiles exactly the compilable workflows; of the errors, a missing asset is
        reported first, then a dangling dependency, then a circular dependency. The last
        is also what a list that names an asset twice gets. */
    method Compile(workflow: Workflow) returns (r: Result<ExecutionPlan, CompileError>)
      ensures r.Ok? <==> Compilable(assetsById, workflow.assets)
      ensures r.Ok? ==> r.value.workflowId == workflow.id
                        && IsExecutionOrder(assetsById, workflow.assets, r.value.executionOrder)
      ensures r.Err? && !AllRegistered(assetsById, workflow.assets)
              ==> ReportsFirstMissing(assetsById, workflow.assets, r.error)
      ensures r.Err? && AllRegistered(assetsById, workflow.assets) && !Closed(assetsById, workflow.assets)
              ==> ReportsFirstDangling(assetsById, workflow.assets, r.error)
      ensures r.Err? && AllRegistered(assetsById, workflow.assets) && Closed(assetsById, workflow.assets)
              ==> r.error == CircularDependency
    {
      var exist := ValidateAssetsExist(workflow);
      if exist.Err? {
        return Err(exist.error);
      }
      var order := TopologicalSort(workflow);
      if order.Err? {
        return Err(order.error);
      }
      return Ok(ExecutionPlan(workflow.id, order.value));
    }
  }

  /** Appending one edge to both tables describes the longer edge list. */
  lemma TablesAfterEdge(nodes: set<AssetId>, edges: seq<Edge>, graph: map<AssetId, seq<AssetId>>,
                        indegree: map<AssetId, nat>, upstream: AssetId, assetId: AssetId)
    requires TablesFor(nodes, edges, graph, indegree) && assetId in nodes
    ensures TablesFor(nodes, edges + [(upstream, assetId)],
                      graph[upstream := ChildrenOf(graph, upstream) + [assetId]],
                      indegree[assetId := indegree[assetId] + 1])
  {
    var longer := edges + [(upstream, assetId)];
    var graph' := graph[upstream := ChildrenOf(graph, upstream) + [assetId]];
    assert longer[..|longer| - 1] == edges;
    forall u ensures ChildrenOf(graph', u) == Children(longer, u) {
      assert Children(longer, u) == Children(edges, u) + if upstream == u then [assetId] else [];
      assert ChildrenOf(graph, u) == Children(edges, u);
    }
  }

  lemma NoEdgesYet(edges: seq<Edge>, assetId: AssetId, dependencies: seq<AssetDependency>)
    ensures edges + EdgesInto(assetId, dependencies[..0]) == edges
  {
  }

  lemma ResolvedIff(assets: AssetTable, ids: set<AssetId>, d: AssetDependency)
    ensures Resolved(assets, ids, d) <==> d.upstreamAssetId in assets && d.upstreamAssetId in ids
  {
  }

  lemma TablesAfterDependency(ids: set<AssetId>, edges: seq<Edge>, graph: map<AssetId, seq<AssetId>>,
                              indegree: map<AssetId, nat>, assetId: AssetId,
                              dependencies: seq<AssetDependency>, j: nat)
    requires j < |dependencies| && assetId in ids
    requires TablesFor(ids, edges + EdgesInto(assetId, dependencies[..j]), graph, indegree)
    ensures assetId in indegree
    ensures var upstream := dependencies[j].upstreamAssetId;
            TablesFor(ids, edges + EdgesInto(assetId, dependencies[..j + 1]),
                      graph[upstream := ChildrenOf(graph, upstream) + [assetId]],
                      indegree[assetId := indegree[assetId] + 1])
  {
    var upstream := dependencies[j].upstreamAssetId;
    TablesAfterEdge(ids, edges + EdgesInto(assetId, dependencies[..j]), graph, indegree, upstream, assetId);
    assert dependencies[..j + 1][..j] == dependencies[..j];
    assert edges + EdgesInto(assetId, dependencies[..j + 1])
        == edges + EdgesInto(assetId, dependencies[..j]) + [(upstream, assetId)];
  }

  lemma FoundDangling(assets: AssetTable, ids: seq<AssetId>, i: nat, j: nat, error: CompileError)
    requires AllRegistered(assets, ids) && i < |ids|
    requires DanglingAt(assets, ids, i, j, error)
    ensures ReportsFirstDangling(assets, ids, error)
    ensures !Closed(assets, ids)
  {
    assert assets[ids[i]].dependencies[j] in assets[ids[i]].dependencies;
    assert !DependenciesResolved(assets, Elems(ids), ids[i]);
  }

  /** One more listed asset appends the edges of its dependencies. */
  lemma PrefixSnoc(assets: AssetTable, nodes: set<AssetId>, ids: seq<AssetId>, i: nat)
    requires AllRegistered(assets, ids) && i < |ids|
    ensures AllResolved(assets, nodes, ids[..i + 1])
       <==> AllResolved(assets, nodes, ids[..i]) && DependenciesResolved(assets, nodes, ids[i])
    ensures DependencyEdges(assets, ids[..i + 1])
         == DependencyEdges(assets, ids[..i]) + EdgesInto(ids[i], assets[ids[i]].dependencies)
  {
    assert ids[..i + 1][..i] == ids[..i];
    assert forall k :: 0 <= k < i ==> ids[..i + 1][k] == ids[..i][k];
    assert ids[..i + 1][i] == ids[i];
  }
}
