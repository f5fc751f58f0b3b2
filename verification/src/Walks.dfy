/** Walk lengths and distances, and the two things a breadth-first search needs
    to know about them. */
module Walks {
  import opened Digraphs

  ghost predicate WalkOf<T>(edges: seq<(T, T)>, s: T, t: T, n: nat, p: seq<T>) {
    && |p| == n + 1
    && p[0] == s
    && p[n] == t
    && IsWalk(edges, p)
  }

  ghost predicate HasWalk<T(!new)>(edges: seq<(T, T)>, s: T, t: T, n: nat) {
    exists p :: WalkOf(edges, s, t, n, p)
  }

  /** `n` is the least length, among those of at least `least` edges, of a walk from `s` to `t`. */
  ghost predicate IsDistance<T(!new)>(edges: seq<(T, T)>, s: T, t: T, least: nat, n: nat) {
    && least <= n
    && HasWalk(edges, s, t, n)
    && forall m :: least <= m < n ==> !HasWalk(edges, s, t, m)
  }

  lemma ExtendWalk<T(!new)>(edges: seq<(T, T)>, s: T, u: T, v: T, n: nat)
    requires HasWalk(edges, s, u, n) && (u, v) in edges
    ensures HasWalk(edges, s, v, n + 1)
  {
    var p :| WalkOf(edges, s, u, n, p);
    var q := p + [v];
    assert forall i :: 0 <= i < |p| - 1 ==> (q[i], q[i + 1]) == (p[i], p[i + 1]);
    assert WalkOf(edges, s, v, n + 1, q);
  }

  lemma LastEdge<T(!new)>(edges: seq<(T, T)>, s: T, v: T, n: nat) returns (u: T)
    requires n > 0 && HasWalk(edges, s, v, n)
    ensures HasWalk(edges, s, u, n - 1) && (u, v) in edges
  {
    var p :| WalkOf(edges, s, v, n, p);
    u := p[n - 1];
    assert WalkOf(edges, s, u, n - 1, p[..n]);
  }

  function Flip<T>(edges: seq<(T, T)>): (r: seq<(T, T)>)
    ensures |r| == |edges|
    ensures forall i :: 0 <= i < |edges| ==> r[i] == (edges[i].1, edges[i].0)
  {
    if edges == [] then [] else [(edges[0].1, edges[0].0)] + Flip(edges[1..])
  }

  lemma FlipTwice<T>(edges: seq<(T, T)>)
    ensures Flip(Flip(edges)) == edges
  {
  }

  function Reverse<T>(s: seq<T>): (r: seq<T>)
    ensures |r| == |s|
    ensures forall i :: 0 <= i < |s| ==> r[i] == s[|s| - 1 - i]
  {
    if s == [] then [] else [s[|s| - 1]] + Reverse(s[..|s| - 1])
  }

  /** Following the edges backwards turns every walk around. */
  lemma FlipWalk<T(!new)>(edges: seq<(T, T)>, s: T, t: T, n: nat)
    requires HasWalk(edges, s, t, n)
    ensures HasWalk(Flip(edges), t, s, n)
  {
    var p :| WalkOf(edges, s, t, n, p);
    var q := Reverse(p);
    forall i | 0 <= i < |q| - 1 ensures (q[i], q[i + 1]) in Flip(edges) {
      var j := |p| - 2 - i;
      assert (p[j], p[j + 1]) in edges;
      var k :| 0 <= k < |edges| && edges[k] == (p[j], p[j + 1]);
      assert Flip(edges)[k] == (q[i], q[i + 1]);
    }
    assert WalkOf(Flip(edges), t, s, n, q);
  }

  /** Distances are the same read backwards. */
  lemma FlipDistance<T(!new)>(edges: seq<(T, T)>, s: T, t: T, least: nat, n: nat)
    ensures IsDistance(edges, s, t, least, n) <==> IsDistance(Flip(edges), t, s, least, n)
  {
    FlipTwice(edges);
    forall m: nat ensures HasWalk(edges, s, t, m) <==> HasWalk(Flip(edges), t, s, m) {
      if HasWalk(edges, s, t, m) { FlipWalk(edges, s, t, m); }
      if HasWalk(Flip(edges), t, s, m) { FlipWalk(Flip(edges), t, s, m); }
    }
  }

  /** The same by the last edge: a node `n` edges away from `s`. */
  ghost predicate Reaches<T(!new)>(edges: seq<(T, T)>, s: T, t: T, n: nat) {
    if n == 0 then s == t else exists u :: Reaches(edges, s, u, n - 1) && (u, t) in edges
  }

  lemma {:induction false} ReachesIffWalk<T(!new)>(edges: seq<(T, T)>, s: T, t: T, n: nat)
    ensures Reaches(edges, s, t, n) <==> HasWalk(edges, s, t, n)
  {
    if n == 0 {
      if s == t {
        assert WalkOf(edges, s, t, 0, [s]);
      }
    } else {
      if Reaches(edges, s, t, n) {
        var u :| Reaches(edges, s, u, n - 1) && (u, t) in edges;
        ReachesIffWalk(edges, s, u, n - 1);
        ExtendWalk(edges, s, u, t, n - 1);
      }
      if HasWalk(edges, s, t, n) {
        var u := LastEdge(edges, s, t, n);
        ReachesIffWalk(edges, s, u, n - 1);
      }
    }
  }
}

/** The state of a breadth-first search from `s` over walks of at least `least` edges,
    with nodes at distance `maxDepth` or more left unexpanded. */
module BreadthFirst {
  import opened Digraphs
  import opened Walks

  type Node = nat

  /** The optional maximum depth of a traversal. */
  datatype MaxDepth = Unlimited | AtMost(limit: nat)

  predicate Below(maxDepth: MaxDepth, n: nat) {
    maxDepth.Unlimited? || n < maxDepth.limit
  }

  /** The node's successors are all discovered, at most one further away than itself,
      except that those in `rest` may still be missing if the node is `current`. */
  ghost predicate Expanded(edges: seq<(Node, Node)>, dist: map<Node, nat>, u: Node, current: Node, rest: seq<Node>)
    requires u in dist
  {
    forall v :: (u, v) in edges ==> (u == current && v in rest) || (v in dist && dist[v] <= dist[u] + 1)
  }

  /** The queue holds discovered nodes in order of distance, within one of `level`. */
  ghost predicate Layered(dist: map<Node, nat>, queue: seq<Node>, level: nat) {
    && (forall i :: 0 <= i < |queue| ==> queue[i] in dist && level <= dist[queue[i]] <= level + 1)
    && (forall i, j :: 0 <= i < j < |queue| ==> dist[queue[i]] <= dist[queue[j]])
  }

  ghost predicate Search(edges: seq<(Node, Node)>, s: Node, least: nat, maxDepth: MaxDepth,
                         dist: map<Node, nat>, queue: seq<Node>, level: nat, current: Node, rest: seq<Node>)
  {
    && (forall v :: v in dist ==> Reaches(edges, s, v, dist[v]) && least <= dist[v])
    && (forall v :: Reaches(edges, s, v, least) ==> v in dist && dist[v] == least)
    && Layered(dist, queue, level)
    && (forall u :: u in dist && u !in queue ==>
          dist[u] <= level && (Below(maxDepth, dist[u]) ==> Expanded(edges, dist, u, current, rest)))
  }

  lemma PopKeepsSearch(edges: seq<(Node, Node)>, s: Node, least: nat, maxDepth: MaxDepth,
                       dist: map<Node, nat>, queue: seq<Node>, level: nat, current: Node, rest: seq<Node>)
    requires Search(edges, s, least, maxDepth, dist, queue, level, current, []) && queue != []
    requires Below(maxDepth, dist[queue[0]]) ==> forall v :: (queue[0], v) in edges ==> v in rest
    ensures Search(edges, s, least, maxDepth, dist, queue[1..], dist[queue[0]], queue[0], rest)
  {
    var c := queue[0];
    assert queue == [c] + queue[1..];
    forall u | u in dist && u !in queue[1..]
      ensures dist[u] <= dist[c] && (Below(maxDepth, dist[u]) ==> Expanded(edges, dist, u, c, rest))
    {
      if u != c {
        assert u !in queue;
        assert Below(maxDepth, dist[u]) ==> Expanded(edges, dist, u, current, []);
      }
    }
  }

  lemma SeenKeepsSearch(edges: seq<(Node, Node)>, s: Node, least: nat, maxDepth: MaxDepth,
                        dist: map<Node, nat>, queue: seq<Node>, level: nat, current: Node, rest: seq<Node>)
    requires Search(edges, s, least, maxDepth, dist, queue, level, current, rest)
    requires current in dist && dist[current] == level
    requires rest != [] && rest[0] in dist
    ensures Search(edges, s, least, maxDepth, dist, queue, level, current, rest[1..])
  {
    assert rest == [rest[0]] + rest[1..];
    assert dist[rest[0]] <= level + 1;
    forall u | u in dist && u !in queue && Below(maxDepth, dist[u])
      ensures Expanded(edges, dist, u, current, rest[1..])
    {
      assert Expanded(edges, dist, u, current, rest);
    }
  }

  lemma DiscoverKeepsSearch(edges: seq<(Node, Node)>, s: Node, least: nat, maxDepth: MaxDepth,
                            dist: map<Node, nat>, queue: seq<Node>, level: nat, current: Node, rest: seq<Node>)
    requires Search(edges, s, least, maxDepth, dist, queue, level, current, rest)
    requires current in dist && dist[current] == level
    requires rest != [] && rest[0] !in dist && (current, rest[0]) in edges
    ensures Search(edges, s, least, maxDepth, dist[rest[0] := level + 1], queue + [rest[0]], level, current, rest[1..])
  {
    var v := rest[0];
    var dist' := dist[v := level + 1];
    assert rest == [v] + rest[1..];
    assert Reaches(edges, s, v, level + 1);
    forall u | u in dist' && u !in queue + [v] && Below(maxDepth, dist'[u])
      ensures Expanded(edges, dist', u, current, rest[1..])
    {
      assert u in dist && u !in queue;
      assert Expanded(edges, dist, u, current, rest);
    }
  }

  /** Everything within reach of the part already expanded has been found, no later
      than its shortest walk. */
  lemma {:induction false} ShortWalksAreFound(edges: seq<(Node, Node)>, s: Node, least: nat, maxDepth: MaxDepth,
                                              dist: map<Node, nat>, queue: seq<Node>, level: nat, current: Node,
                                              n: nat, v: Node)
    requires Search(edges, s, least, maxDepth, dist, queue, level, current, [])
    requires forall q :: q in queue ==> n <= dist[q]
    requires maxDepth.AtMost? ==> n <= maxDepth.limit
    requires least <= n && Reaches(edges, s, v, n)
    ensures v in dist && dist[v] <= n
    decreases n
  {
    if n > least {
      var u: Node :| Reaches(edges, s, u, n - 1) && (u, v) in edges;
      ShortWalksAreFound(edges, s, least, maxDepth, dist, queue, level, current, n - 1, u);
      assert Expanded(edges, dist, u, current, []);
    }
  }

  /** A node no further than the whole queue has been found at its distance. */
  lemma FoundAtDistance(edges: seq<(Node, Node)>, s: Node, least: nat, maxDepth: MaxDepth,
                        dist: map<Node, nat>, queue: seq<Node>, level: nat, current: Node, v: Node)
    requires Search(edges, s, least, maxDepth, dist, queue, level, current, [])
    requires v in dist && forall q :: q in queue ==> dist[v] <= dist[q]
    requires maxDepth.AtMost? ==> dist[v] <= maxDepth.limit
    ensures IsDistance(edges, s, v, least, dist[v])
  {
    ReachesIffWalk(edges, s, v, dist[v]);
    forall m | least <= m < dist[v] ensures !HasWalk(edges, s, v, m) {
      ReachesIffWalk(edges, s, v, m);
      if HasWalk(edges, s, v, m) {
        ShortWalksAreFound(edges, s, least, maxDepth, dist, queue, level, current, m, v);
      }
    }
  }
}
