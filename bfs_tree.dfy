/**
 * What the `level` and `parent` lists returned by a breadth-first search
 * mean, and what walking the parent list back from a vertex produces.
 */
module BfsTree {
  import opened Sequences
  import opened Adjacency

  /**
   * `level` and `parent` form a BFS tree rooted at `start` over vertices
   * `0..n-1`: the start has level 0 and no parent; every other vertex either
   * was never reached (level and parent both -1) or has a reached parent with
   * an edge to it, one level closer to the start.
   */
  ghost predicate ParentTree(adj: AdjList, n: int, start: int, level: seq<int>, parent: seq<int>) {
    && |level| == n && |parent| == n
    && 0 <= start < n
    && level[start] == 0 && parent[start] == -1
    && forall w {:trigger parent[w]} :: 0 <= w < n && w != start ==>
         if level[w] == -1 then parent[w] == -1
         else
           && 0 <= parent[w] < n
           && level[parent[w]] >= 0
           && w in Nbrs(adj, parent[w])
           && level[w] == level[parent[w]] + 1
  }

  /**
   * Every walk from `start` ends at a vertex whose level is set and is at
   * most the number of edges on the walk.
   */
  ghost predicate LevelsBoundPaths(adj: AdjList, n: int, start: int, level: seq<int>) {
    && |level| == n
    && forall p :: IsPath(adj, p) && p[0] == start ==>
         0 <= p[|p| - 1] < n && 0 <= level[p[|p| - 1]] <= |p| - 1
  }

  /**
   * `level` ranks the parent list: following a parent strictly lowers the
   * rank, so every chain of parents ends at -1. This is exactly what makes
   * the walk in `reconstruct_path` finish.
   */
  ghost predicate Ranked(parent: seq<int>, level: seq<int>) {
    && |parent| == |level|
    && (forall w :: 0 <= w < |level| ==> level[w] >= -1)
    && forall w {:trigger parent[w]} :: 0 <= w < |parent| && parent[w] != -1 ==>
         0 <= parent[w] < |parent| && 0 <= level[parent[w]] < level[w]
  }

  /** The topmost ancestor of `w`: the vertex reached when the parent walk stops. */
  function Root(parent: seq<int>, level: seq<int>, w: int): (r: int)
    requires Ranked(parent, level) && 0 <= w < |parent|
    ensures 0 <= r < |parent| && parent[r] == -1
    decreases level[w] + 1
  {
    if parent[w] == -1 then w else Root(parent, level, parent[w])
  }

  /** The chain of parents from the root down to `w`. */
  function Ancestry(parent: seq<int>, level: seq<int>, w: int): (a: seq<int>)
    requires Ranked(parent, level) && 0 <= w < |parent|
    ensures |a| > 0 && a[0] == Root(parent, level, w) && a[|a| - 1] == w
    ensures forall i :: 0 <= i < |a| ==> 0 <= a[i] < |parent|
    ensures forall i :: 0 < i < |a| ==> parent[a[i]] == a[i - 1]
    decreases level[w] + 1
  {
    if parent[w] == -1 then [w] else Ancestry(parent, level, parent[w]) + [w]
  }

  /** A BFS tree's parent list is acyclic, ranked by its levels. */
  lemma ParentTreeRanked(adj: AdjList, n: int, start: int, level: seq<int>, parent: seq<int>)
    requires ParentTree(adj, n, start, level, parent)
    ensures Ranked(parent, level)
  {
    forall w | 0 <= w < |parent|
      ensures level[w] >= -1
      ensures parent[w] != -1 ==> 0 <= parent[w] < |parent| && 0 <= level[parent[w]] < level[w]
    {
      if w != start {
        assert level[w] == -1 || level[w] == level[parent[w]] + 1;
      }
    }
  }

  /**
   * In a BFS tree the parent chain of a reached vertex `w` starts at `start`,
   * follows edges, and has exactly `level[w]` edges.
   */
  lemma {:induction false} AncestryInTree(adj: AdjList, n: int, start: int, level: seq<int>, parent: seq<int>, w: int)
    requires ParentTree(adj, n, start, level, parent)
    requires 0 <= w < n && level[w] != -1
    ensures Ranked(parent, level)
    ensures Root(parent, level, w) == start
    ensures PathFromTo(adj, Ancestry(parent, level, w), start, w)
    ensures |Ancestry(parent, level, w)| == level[w] + 1
    decreases level[w]
  {
    ParentTreeRanked(adj, n, start, level, parent);
    if w != start {
      var u := parent[w];
      AncestryInTree(adj, n, start, level, parent, u);
      PathSnoc(adj, Ancestry(parent, level, u), w);
    }
  }

  /**
   * In a BFS tree the parent walk from `w` ends at `start` exactly when `w`
   * was reached.
   */
  lemma RootIsStartIffReached(adj: AdjList, n: int, start: int, level: seq<int>, parent: seq<int>, w: int)
    requires ParentTree(adj, n, start, level, parent)
    requires 0 <= w < n
    ensures Ranked(parent, level)
    ensures Root(parent, level, w) == start <==> level[w] != -1
  {
    ParentTreeRanked(adj, n, start, level, parent);
    if level[w] != -1 {
      AncestryInTree(adj, n, start, level, parent, w);
    }
  }

  /**
   * When the levels also bound every walk from `start`, level -1 means
   * unreachable and any other level is the length of a shortest path, which
   * the parent chain realises.
   */
  lemma ShortestPathTree(adj: AdjList, n: int, start: int, level: seq<int>, parent: seq<int>, w: int)
    requires ParentTree(adj, n, start, level, parent)
    requires LevelsBoundPaths(adj, n, start, level)
    requires 0 <= w < n
    ensures Ranked(parent, level)
    ensures level[w] != -1 <==> Reachable(adj, start, w)
    ensures level[w] != -1 ==>
      && PathFromTo(adj, Ancestry(parent, level, w), start, w)
      && |Ancestry(parent, level, w)| == level[w] + 1
      && forall q :: PathFromTo(adj, q, start, w) ==> |Ancestry(parent, level, w)| <= |q|
  {
    ParentTreeRanked(adj, n, start, level, parent);
    if level[w] != -1 {
      AncestryInTree(adj, n, start, level, parent, w);
    }
    if Reachable(adj, start, w) {
      var q :| PathFromTo(adj, q, start, w);
      assert 0 <= level[q[|q| - 1]];
    }
  }

  /**
   * Any BFS run leaves levels bounding paths once every reached vertex has
   * had all its neighbours reached at most one level further.
   */
  lemma {:induction false} PathLevelBound(adj: AdjList, n: int, start: int, level: seq<int>, p: seq<int>)
    requires |level| == n && 0 <= start < n && level[start] == 0
    requires forall u :: 0 <= u < n && level[u] >= 0 ==>
               forall w :: w in Nbrs(adj, u) ==> 0 <= w < n && 0 <= level[w] <= level[u] + 1
    requires IsPath(adj, p) && p[0] == start
    ensures 0 <= p[|p| - 1] < n && 0 <= level[p[|p| - 1]] <= |p| - 1
  {
    if |p| > 1 {
      var q := p[..|p| - 1];
      assert IsPath(adj, q) by {
        forall i | 0 <= i < |q| - 1 ensures q[i + 1] in Nbrs(adj, q[i]) {
          assert q[i] == p[i] && q[i + 1] == p[i + 1];
        }
      }
      PathLevelBound(adj, n, start, level, q);
      assert p[|p| - 1] in Nbrs(adj, q[|q| - 1]);
    }
  }
}
