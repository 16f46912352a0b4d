/**
 * What the list of lists returned by `bfs_all_components` means: a split of
 * the vertices into non-empty groups, each opened at its smallest vertex and
 * grown along edges from there.
 */
module Components {
  import opened Sequences
  import opened Adjacency

  /** Every vertex `0..n-1` occurs exactly once across the non-empty lists `cs`. */
  ghost predicate Partition(cs: seq<seq<int>>, n: int) {
    && (forall k :: 0 <= k < |cs| ==> |cs[k]| > 0)
    && Distinct(Flatten(cs))
    && forall v :: v in Flatten(cs) <==> 0 <= v < n
  }

  /**
   * Each list begins with its smallest vertex (the one that opened it), and
   * these first vertices strictly increase from list to list.
   */
  ghost predicate HeadsOrdered(cs: seq<seq<int>>) {
    && (forall k, m :: 0 <= k < |cs| && 0 <= m < |cs[k]| ==> cs[k][0] <= cs[k][m])
    && forall k1, k2 :: 0 <= k1 < k2 < |cs| && |cs[k1]| > 0 && |cs[k2]| > 0 ==> cs[k1][0] < cs[k2][0]
  }

  /** A neighbour of a member of list `k` lies in list `k` or in an earlier one. */
  ghost predicate ClosedUpTo(adj: AdjList, cs: seq<seq<int>>) {
    forall k, m, y :: 0 <= k < |cs| && 0 <= m < |cs[k]| && y in Nbrs(adj, cs[k][m]) ==>
      y in Flatten(cs[..k + 1])
  }

  /** Every member of a list is reachable from that list's first vertex. */
  ghost predicate HeadsReach(adj: AdjList, cs: seq<seq<int>>) {
    forall k, m :: 0 <= k < |cs| && 0 <= m < |cs[k]| ==> Reachable(adj, cs[k][0], cs[k][m])
  }

  /** In a partition every vertex lies in exactly one list and occurs there once. */
  lemma ExactlyOneComponent(cs: seq<seq<int>>, n: int, v: int)
    requires Partition(cs, n)
    requires 0 <= v < n
    ensures exists k :: 0 <= k < |cs| && v in cs[k]
    ensures forall k1, k2 :: 0 <= k1 < |cs| && 0 <= k2 < |cs| && v in cs[k1] && v in cs[k2] ==> k1 == k2
    ensures forall k :: 0 <= k < |cs| ==> Distinct(cs[k])
  {
    FlattenMember(cs, v);
    forall k1, k2 | 0 <= k1 < |cs| && 0 <= k2 < |cs| && v in cs[k1] && v in cs[k2] ensures k1 == k2 {
      FlattenDistinctUnique(cs, k1, k2, v);
    }
    forall k | 0 <= k < |cs| ensures Distinct(cs[k]) {
      FlattenDistinctPart(cs, k);
    }
  }

  /** Membership in the first `k + 1` lists is membership in some list up to `k`. */
  lemma InPrefix(cs: seq<seq<int>>, k: int, y: int) returns (j: int)
    requires 0 <= k < |cs| && y in Flatten(cs[..k + 1])
    ensures 0 <= j <= k && y in cs[j]
  {
    FlattenMember(cs[..k + 1], y);
    j :| 0 <= j < k + 1 && y in cs[..k + 1][j];
  }

  /**
   * In an undirected graph the lists are closed under edges: every neighbour
   * of a member of list `k` is itself in list `k`.
   */
  lemma UndirectedClosed(adj: AdjList, cs: seq<seq<int>>, n: int, k: int, m: int, y: int)
    requires Symmetric(adj) && Partition(cs, n) && ClosedUpTo(adj, cs)
    requires 0 <= k < |cs| && 0 <= m < |cs[k]| && y in Nbrs(adj, cs[k][m])
    ensures y in cs[k]
  {
    var x := cs[k][m];
    var j := InPrefix(cs, k, y);
    if j < k {
      var m' :| 0 <= m' < |cs[j]| && cs[j][m'] == y;
      assert x in Nbrs(adj, cs[j][m']);
      var i := InPrefix(cs, j, x);
      FlattenDistinctUnique(cs, i, k, x);
    }
  }

  lemma {:induction false} PathStaysIn(adj: AdjList, cs: seq<seq<int>>, n: int, k: int, p: seq<int>)
    requires Symmetric(adj) && Partition(cs, n) && ClosedUpTo(adj, cs)
    requires 0 <= k < |cs|
    requires IsPath(adj, p) && p[0] in cs[k]
    ensures p[|p| - 1] in cs[k]
  {
    if |p| > 1 {
      var q := p[..|p| - 1];
      assert IsPath(adj, q) by {
        forall i | 0 <= i < |q| - 1 ensures q[i + 1] in Nbrs(adj, q[i]) {
          assert q[i] == p[i] && q[i + 1] == p[i + 1];
        }
      }
      PathStaysIn(adj, cs, n, k, q);
      var m :| 0 <= m < |cs[k]| && cs[k][m] == q[|q| - 1];
      assert p[|p| - 1] in Nbrs(adj, cs[k][m]);
      UndirectedClosed(adj, cs, n, k, m, p[|p| - 1]);
    }
  }

  /**
   * In an undirected graph each list is exactly the set of vertices reachable
   * from its first vertex: a connected component.
   */
  lemma ComponentIsReachableSet(adj: AdjList, cs: seq<seq<int>>, n: int, k: int, w: int)
    requires Symmetric(adj) && Partition(cs, n) && ClosedUpTo(adj, cs) && HeadsReach(adj, cs)
    requires 0 <= k < |cs|
    ensures w in cs[k] <==> Reachable(adj, cs[k][0], w)
  {
    if Reachable(adj, cs[k][0], w) {
      var p :| PathFromTo(adj, p, cs[k][0], w);
      PathStaysIn(adj, cs, n, k, p);
    }
  }
}
