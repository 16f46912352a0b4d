/**
 * The adjacency list of a graph as a value: vertex id to its list of
 * neighbours, where a vertex without an entry has no neighbours (the
 * behaviour of a `defaultdict(list)` that has not been written at that key).
 */
module Adjacency {

  type AdjList = map<int, seq<int>>

  /**
   * The neighbour list of `u`, in the order the edges were added: the list
   * recorded for `u`, or the empty list that a `defaultdict(list)` yields for
   * a key never written.
   */
  function Nbrs(adj: AdjList, u: int): (r: seq<int>)
  {
    if u in adj then adj[u] else []
  }

  /**
   * `Nbrs` reads like a `defaultdict(list)`: an empty one yields `[]`
   * everywhere, and writing the list of `u` changes what `u` reads and
   * nothing else.
   */
  lemma NbrsDefault(adj: AdjList, u: int, w: int, s: seq<int>)
    ensures Nbrs(map[], u) == []
    ensures Nbrs(adj[u := s], u) == s
    ensures w != u ==> Nbrs(adj[u := s], w) == Nbrs(adj, w)
  {
  }

  /** Every neighbour recorded anywhere is a vertex id in `0..n-1`. */
  ghost predicate EntriesBelow(adj: AdjList, n: int) {
    forall u, w :: w in Nbrs(adj, u) ==> 0 <= w < n
  }

  /** Every edge is recorded in both directions. */
  ghost predicate Symmetric(adj: AdjList) {
    forall u, w :: w in Nbrs(adj, u) ==> u in Nbrs(adj, w)
  }

  /**
   * The adjacency list after adding the edge from `u` to `v`: `v` is appended
   * to the list of `u` and then, for an undirected edge, `u` to the list of `v`
   * (so a bidirectional self-loop appends `u` twice).
   */
  function WithEdge(adj: AdjList, u: int, v: int, bidirectional: bool): (r: AdjList)
    ensures Nbrs(r, u) == Nbrs(adj, u) + (if bidirectional && u == v then [v, u] else [v])
    ensures u != v ==> Nbrs(r, v) == Nbrs(adj, v) + (if bidirectional then [u] else [])
    ensures forall w :: w != u && w != v ==> Nbrs(r, w) == Nbrs(adj, w)
  {
    var a := adj[u := Nbrs(adj, u) + [v]];
    if bidirectional then a[v := Nbrs(a, v) + [u]] else a
  }

  /** Adding an edge between two vertices in range keeps every entry in range. */
  lemma WithEdgeBelow(adj: AdjList, n: int, u: int, v: int, bidirectional: bool)
    requires EntriesBelow(adj, n)
    requires 0 <= u < n && 0 <= v < n
    ensures EntriesBelow(WithEdge(adj, u, v, bidirectional), n)
  {
  }

  /** An undirected graph stays undirected when an undirected edge is added. */
  lemma WithEdgeSymmetric(adj: AdjList, u: int, v: int)
    requires Symmetric(adj)
    ensures Symmetric(WithEdge(adj, u, v, true))
  {
  }

  /** `p` is a non-empty walk along recorded edges. */
  ghost predicate IsPath(adj: AdjList, p: seq<int>) {
    |p| > 0 && forall i :: 0 <= i < |p| - 1 ==> p[i + 1] in Nbrs(adj, p[i])
  }

  /** `p` is a walk from `a` to `b`; it has `|p| - 1` edges. */
  ghost predicate PathFromTo(adj: AdjList, p: seq<int>, a: int, b: int) {
    IsPath(adj, p) && p[0] == a && p[|p| - 1] == b
  }

  ghost predicate Reachable(adj: AdjList, a: int, b: int) {
    exists p :: PathFromTo(adj, p, a, b)
  }

  lemma PathSnoc(adj: AdjList, p: seq<int>, x: int)
    requires IsPath(adj, p) && x in Nbrs(adj, p[|p| - 1])
    ensures IsPath(adj, p + [x])
  {
  }

  lemma ReachableSelf(adj: AdjList, a: int)
    ensures Reachable(adj, a, a)
  {
    assert PathFromTo(adj, [a], a, a);
  }

  /** One more edge from the end of a walk keeps the target reachable. */
  lemma ReachableStep(adj: AdjList, a: int, b: int, c: int)
    requires Reachable(adj, a, b) && c in Nbrs(adj, b)
    ensures Reachable(adj, a, c)
  {
    var p :| PathFromTo(adj, p, a, b);
    PathSnoc(adj, p, c);
    assert PathFromTo(adj, p + [c], a, c);
  }

  /** A walk that starts inside a set closed under edges stays inside it. */
  lemma {:induction false} ClosedSetHoldsPaths(adj: AdjList, s: set<int>, p: seq<int>)
    requires forall u, w :: u in s && w in Nbrs(adj, u) ==> w in s
    requires IsPath(adj, p) && p[0] in s
    ensures p[|p| - 1] in s
  {
    if |p| > 1 {
      var q := p[..|p| - 1];
      assert IsPath(adj, q) by {
        forall i | 0 <= i < |q| - 1 ensures q[i + 1] in Nbrs(adj, q[i]) {
          assert q[i] == p[i] && q[i + 1] == p[i + 1];
        }
      }
      ClosedSetHoldsPaths(adj, s, q);
      assert p[|p| - 1] in Nbrs(adj, q[|q| - 1]);
    }
  }

  /** Reachability is transitive: a walk to `b` followed by a walk from `b`. */
  lemma ReachableTrans(adj: AdjList, a: int, b: int, c: int)
    requires Reachable(adj, a, b) && Reachable(adj, b, c)
    ensures Reachable(adj, a, c)
  {
    var p :| PathFromTo(adj, p, a, b);
    var q :| PathFromTo(adj, q, b, c);
    var r := p + q[1..];
    forall i | 0 <= i < |r| - 1 ensures r[i + 1] in Nbrs(adj, r[i]) {
      if i < |p| - 1 {
        assert r[i] == p[i] && r[i + 1] == p[i + 1];
      } else {
        assert r[i] == q[i - |p| + 1] && r[i + 1] == q[i - |p| + 2];
      }
    }
    assert PathFromTo(adj, r, a, c);
  }
}
