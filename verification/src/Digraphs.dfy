/** Walks and cycles in a directed multigraph given as a list of edges.
    Parallel edges are repeated list elements. */
module Digraphs {

  ghost predicate IsWalk<T>(edges: seq<(T, T)>, p: seq<T>) {
    && |p| > 0
    && forall i :: 0 <= i < |p| - 1 ==> (p[i], p[i + 1]) in edges
  }

  /** A cycle is a walk of at least one edge that ends where it began. */
  ghost predicate IsCycle<T>(edges: seq<(T, T)>, p: seq<T>) {
    && |p| > 1
    && p[0] == p[|p| - 1]
    && IsWalk(edges, p)
  }

  ghost predicate Acyclic<T(!new)>(edges: seq<(T, T)>) {
    forall p :: !IsCycle(edges, p)
  }

  ghost predicate NoRepeats<T>(s: seq<T>) {
    forall i, j :: 0 <= i < j < |s| ==> s[i] != s[j]
  }

  function Elems<T>(s: seq<T>): set<T> {
    set x | x in s
  }

  /** A repeat-free list has as many elements as its set of elements. */
  lemma {:induction false} NoRepeatsSize<T>(s: seq<T>)
    requires NoRepeats(s)
    ensures |Elems(s)| == |s|
  {
    if s != [] {
      var init := s[..|s| - 1];
      NoRepeatsSize(init);
      assert s == init + [s[|s| - 1]];
      assert Elems(s) == Elems(init) + {s[|s| - 1]};
    }
  }

  lemma ElemsBound<T>(s: seq<T>)
    ensures |Elems(s)| <= |s|
  {
    if s != [] {
      var init := s[..|s| - 1];
      ElemsBound(init);
      assert s == init + [s[|s| - 1]];
      assert Elems(s) == Elems(init) + {s[|s| - 1]};
    }
  }

  /** A list has no repeats exactly when it has as many distinct elements as entries. */
  lemma {:induction false} NoRepeatsIffSize<T>(s: seq<T>)
    ensures NoRepeats(s) <==> |Elems(s)| == |s|
  {
    if NoRepeats(s) {
      NoRepeatsSize(s);
    } else {
      var i, j :| 0 <= i < j < |s| && s[i] == s[j];
      var rest := s[..j] + s[j + 1..];
      assert rest[i] == s[j];
      assert Elems(s) == Elems(rest) by {
        forall x | x in s ensures x in rest {
          var k :| 0 <= k < |s| && s[k] == x;
          if k < j { assert rest[k] == x; } else if k > j { assert rest[k - 1] == x; }
        }
      }
      ElemsBound(rest);
    }
  }

  lemma SubsetSize<T>(a: set<T>, b: set<T>)
    requires a <= b
    ensures |a| <= |b|
    ensures |a| == |b| ==> a == b
  {
    assert b == a + (b - a);
    assert |b| == |a| + |b - a|;
  }

  /** Two lists over the same set, both without repeats, are permutations. */
  lemma {:induction false} SameElemsPermutation<T>(a: seq<T>, b: seq<T>)
    requires NoRepeats(a) && NoRepeats(b) && Elems(a) == Elems(b)
    ensures multiset(a) == multiset(b)
  {
    NoRepeatsMultiplicity(a);
    NoRepeatsMultiplicity(b);
    forall x ensures multiset(a)[x] == multiset(b)[x] {
      assert x in a <==> x in Elems(a);
      assert x in b <==> x in Elems(b);
    }
  }

  lemma {:induction false} NoRepeatsMultiplicity<T>(s: seq<T>)
    requires NoRepeats(s)
    ensures forall x :: multiset(s)[x] == if x in s then 1 else 0
  {
    if s != [] {
      var init := s[..|s| - 1];
      NoRepeatsMultiplicity(init);
      assert s == init + [s[|s| - 1]];
    }
  }

  ghost predicate HasPredecessorIn<T>(edges: seq<(T, T)>, nodes: set<T>, v: T) {
    exists u :: u in nodes && (u, v) in edges
  }

  /** If every member of a nonempty finite set has a predecessor in the set,
      the set contains a cycle. */
  lemma {:induction false} PredecessorsMakeCycle<T>(edges: seq<(T, T)>, stuck: set<T>) returns (cycle: seq<T>)
    requires stuck != {}
    requires forall v :: v in stuck ==> HasPredecessorIn(edges, stuck, v)
    ensures IsCycle(edges, cycle)
    ensures forall v :: v in cycle ==> v in stuck
  {
    var p := BackwardWalk(edges, stuck, |stuck|);
    NoRepeatsIffSize(p);
    SubsetSize(Elems(p), stuck);
    var i, j :| 0 <= i < j < |p| && p[i] == p[j];
    cycle := p[i..j + 1];
    forall k | 0 <= k < |cycle| - 1 ensures (cycle[k], cycle[k + 1]) in edges {
      assert (p[i + k], p[i + k + 1]) in edges;
    }
  }

  lemma {:induction false} BackwardWalk<T>(edges: seq<(T, T)>, stuck: set<T>, n: nat) returns (p: seq<T>)
    requires stuck != {}
    requires forall v :: v in stuck ==> HasPredecessorIn(edges, stuck, v)
    ensures |p| == n + 1 && IsWalk(edges, p)
    ensures forall v :: v in p ==> v in stuck
  {
    if n == 0 {
      var v :| v in stuck;
      p := [v];
    } else {
      var q := BackwardWalk(edges, stuck, n - 1);
      assert HasPredecessorIn(edges, stuck, q[0]);
      var u :| u in stuck && (u, q[0]) in edges;
      p := [u] + q;
      forall i | 0 <= i < |p| - 1 ensures (p[i], p[i + 1]) in edges {
        if i > 0 { assert p[i] == q[i - 1] && p[i + 1] == q[i]; }
      }
    }
  }

  /** Every edge into a listed node comes from a node listed earlier. */
  ghost predicate UpstreamFirst<T>(edges: seq<(T, T)>, order: seq<T>) {
    forall j, e :: 0 <= j < |order| && e in edges && e.1 == order[j] ==> e.0 in order[..j]
  }

  /** Listing one more node keeps the order if all its predecessors are listed. */
  lemma UpstreamFirstSnoc<T>(edges: seq<(T, T)>, order: seq<T>, v: T)
    requires UpstreamFirst(edges, order)
    requires forall e :: e in edges && e.1 == v ==> e.0 in order
    ensures UpstreamFirst(edges, order + [v])
  {
    var longer := order + [v];
    forall j, e | 0 <= j < |longer| && e in edges && e.1 == longer[j] ensures e.0 in longer[..j] {
      if j < |order| {
        assert longer[..j] == order[..j];
      } else {
        assert longer[..j] == order;
      }
    }
  }

  ghost function Position<T>(order: seq<T>, v: T): (k: nat)
    requires v in order
    ensures k < |order| && order[k] == v
  {
    var k :| 0 <= k < |order| && order[k] == v;
    k
  }

  lemma {:induction false} WalkMovesForward<T>(edges: seq<(T, T)>, order: seq<T>, p: seq<T>, k: nat)
    requires NoRepeats(order) && UpstreamFirst(edges, order)
    requires IsWalk(edges, p) && forall v :: v in p ==> v in order
    requires 0 < k < |p|
    ensures Position(order, p[0]) < Position(order, p[k])
  {
    var j := Position(order, p[k]);
    var e := (p[k - 1], p[k]);
    assert e in edges && e.1 == order[j];
    var i :| 0 <= i < j && order[i] == p[k - 1];
    assert Position(order, p[k - 1]) == i;
    if k > 1 {
      WalkMovesForward(edges, order, p, k - 1);
    }
  }

  /** A graph whose edges all point forward in some repeat-free order has no cycle. */
  lemma {:induction false} OrderedIsAcyclic<T(!new)>(edges: seq<(T, T)>, order: seq<T>)
    requires NoRepeats(order) && UpstreamFirst(edges, order)
    requires forall e :: e in edges ==> e.1 in order
    ensures Acyclic(edges)
  {
    forall p | IsCycle(edges, p) ensures false {
      forall v | v in p ensures v in order {
        var k :| 0 <= k < |p| && p[k] == v;
        var k' := if k == 0 then |p| - 1 else k;
        assert (p[k' - 1], p[k']) in edges;
      }
      WalkMovesForward(edges, order, p, |p| - 1);
    }
  }
}
