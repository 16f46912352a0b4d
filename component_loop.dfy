/**
 * The state kept by `bfs_all_components`, as values: the `visited` list and
 * the components found so far, and, while a component is grown from its
 * first vertex `head`, the expanded vertices `done` and `seen`, the
 * component so far followed by the queue. The predicates are the loops'
 * invariants; the lemmas are the steps that preserve them.
 */
module ComponentLoop {
  import opened Sequences
  import opened Adjacency
  import opened Components

  /**
   * The components found while scanning vertices below `bound`: non-empty,
   * disjoint, in range, opened at their least vertex in increasing order,
   * closed under edges into earlier components, and reachable from their
   * first vertex.
   */
  ghost predicate Formed(adj: AdjList, n: int, bound: int, cs: seq<seq<int>>) {
    && (forall k :: 0 <= k < |cs| ==> |cs[k]| > 0)
    && Distinct(Flatten(cs)) && AllBelow(Flatten(cs), n)
    && HeadsOrdered(cs)
    && (forall k :: 0 <= k < |cs| ==> cs[k][0] < bound)
    && ClosedUpTo(adj, cs)
    && HeadsReach(adj, cs)
  }

  /** The invariant of the `for i` loop: the visited vertices are those placed, and all below `i` are. */
  ghost predicate Placed(adj: AdjList, n: int, i: int, visited: seq<bool>, cs: seq<seq<int>>) {
    && Formed(adj, n, i, cs)
    && 0 <= i <= n && |visited| == n
    && (forall v :: 0 <= v < n ==> (visited[v] <==> v in Flatten(cs)))
    && (forall v :: 0 <= v < i ==> visited[v])
  }

  /**
   * The invariant of the `while queue` loop for the component opened at
   * `head`, with `prior` the vertices of earlier components: the visited
   * vertices are those of `prior` and `seen`, nothing repeats, everything
   * seen is at least `head` and reachable from it, and every expanded vertex
   * has all its neighbours visited.
   */
  ghost predicate Growing(adj: AdjList, n: int, head: int, visited: seq<bool>, prior: seq<int>,
                          done: seq<int>, seen: seq<int>) {
    && |visited| == n && 0 <= head < n
    && |seen| > 0 && seen[0] == head
    && Distinct(prior + seen) && AllBelow(prior + seen, n)
    && |prior + seen| <= n
    && (forall v :: 0 <= v < n ==> (visited[v] <==> v in prior + seen))
    && (forall v :: 0 <= v < head ==> visited[v])
    && (forall j :: 0 <= j < |seen| ==> head <= seen[j] && Reachable(adj, head, seen[j]))
    && (forall x :: x in done ==> 0 <= x < n && visited[x] && forall y :: y in Nbrs(adj, x) ==> 0 <= y < n && visited[y])
  }

  /** Every vertex of `ws` is visited. */
  ghost predicate AllVisited(visited: seq<bool>, ws: seq<int>) {
    forall w :: w in ws ==> 0 <= w < |visited| && visited[w]
  }

  /**
   * What scanning the neighbours `ws` has done, with `visited0` the list
   * before the scan: `added` is the unvisited vertices of `ws` in the order
   * met, and exactly those have been marked besides the ones marked before.
   */
  ghost predicate Marking(visited0: seq<bool>, visited: seq<bool>, ws: seq<int>, added: seq<int>) {
    && |visited| == |visited0|
    && added == NewlyFound(visited0, ws)
    && forall w :: 0 <= w < |visited0| ==> (visited[w] <==> visited0[w] || w in added)
  }

  /** Marking the unvisited `x` makes it the next vertex the scan has found. */
  lemma MarkingNew(visited0: seq<bool>, visited: seq<bool>, ws: seq<int>, added: seq<int>, x: int, ws': seq<int>)
    requires Marking(visited0, visited, ws, added)
    requires 0 <= x < |visited| && !visited[x] && ws' == ws + [x]
    ensures Marking(visited0, visited[x := true], ws', added + [x])
  {
    NewlyFoundSnoc(visited0, ws, x, ws');
    var visited' := visited[x := true];
    forall w | 0 <= w < |visited0| ensures visited'[w] <==> visited0[w] || w in added + [x] {
      if w != x {
        assert visited'[w] == visited[w];
      }
    }
  }

  /** Passing over the visited `x` finds nothing new. */
  lemma MarkingOld(visited0: seq<bool>, visited: seq<bool>, ws: seq<int>, added: seq<int>, x: int, ws': seq<int>)
    requires Marking(visited0, visited, ws, added)
    requires 0 <= x < |visited| && visited[x] && ws' == ws + [x]
    ensures Marking(visited0, visited, ws', added)
  {
    NewlyFoundSnoc(visited0, ws, x, ws');
  }

  lemma PlacedStart(adj: AdjList, n: nat)
    ensures Placed(adj, n, 0, seq(n, _ => false), [])
  {
  }

  /** Opening a component at the unvisited vertex `i`. */
  lemma OpenComponent(adj: AdjList, n: int, i: int, visited: seq<bool>, cs: seq<seq<int>>)
    requires Placed(adj, n, i, visited, cs)
    requires 0 <= i < n && !visited[i]
    ensures Growing(adj, n, i, visited[i := true], Flatten(cs), [], [i])
  {
    var prior := Flatten(cs);
    assert i !in prior;
    assert Distinct(prior + [i]) by {
      forall a, b | 0 <= a < b < |prior + [i]| ensures (prior + [i])[a] != (prior + [i])[b] {
        if b == |prior| {
          assert (prior + [i])[a] == prior[a];
        }
      }
    }
    DistinctBound(prior + [i], n);
    ReachableSelf(adj, i);
  }

  /** Taking the front of the queue: it is visited, reachable from `head`, and the component grows by it. */
  lemma TakeFront(adj: AdjList, n: int, head: int, visited: seq<bool>, prior: seq<int>,
                  component: seq<int>, queue: seq<int>)
    requires Growing(adj, n, head, visited, prior, component, component + queue)
    requires queue != []
    ensures 0 <= queue[0] < n && visited[queue[0]] && Reachable(adj, head, queue[0])
    ensures |component| < n
  {
    var seen := component + queue;
    assert seen[|component|] == queue[0];
    assert (prior + seen)[|prior| + |component|] == queue[0];
  }

  /** Discovering an unvisited neighbour `x` keeps the invariant. */
  lemma Mark(adj: AdjList, n: int, head: int, visited: seq<bool>, prior: seq<int>,
             done: seq<int>, seen: seq<int>, current: int, ws: seq<int>, x: int)
    requires Growing(adj, n, head, visited, prior, done, seen)
    requires AllVisited(visited, ws)
    requires Reachable(adj, head, current) && x in Nbrs(adj, current)
    requires 0 <= x < n && !visited[x]
    ensures Growing(adj, n, head, visited[x := true], prior, done, seen + [x])
    ensures AllVisited(visited[x := true], ws + [x])
  {
    var all, all' := prior + seen, prior + seen + [x];
    assert x !in all;
    assert Distinct(all') by {
      forall a, b | 0 <= a < b < |all'| ensures all'[a] != all'[b] {
        if b == |all| {
          assert all'[a] == all[a];
        }
      }
    }
    DistinctBound(all', n);
    ReachableStep(adj, head, current, x);
    var seen' := seen + [x];
    forall j | 0 <= j < |seen'| ensures head <= seen'[j] && Reachable(adj, head, seen'[j]) {
      if j < |seen| {
        assert seen'[j] == seen[j];
      } else {
        assert !(x < head);
      }
    }
    assert prior + seen' == all';
  }

  /** Once all neighbours of `current` are visited, `current` counts as expanded. */
  lemma Expand(adj: AdjList, n: int, head: int, visited: seq<bool>, prior: seq<int>,
               done: seq<int>, seen: seq<int>, current: int)
    requires Growing(adj, n, head, visited, prior, done, seen)
    requires 0 <= current < n && visited[current]
    requires AllVisited(visited, Nbrs(adj, current))
    ensures Growing(adj, n, head, visited, prior, done + [current], seen)
  {
  }

  /** Appending the finished component to the list keeps the `for i` invariant at `i + 1`. */
  lemma CloseComponent(adj: AdjList, n: int, i: int, visited: seq<bool>, cs: seq<seq<int>>, c: seq<int>)
    requires Formed(adj, n, i, cs) && 0 <= i < n
    requires Growing(adj, n, i, visited, Flatten(cs), c, c)
    ensures Placed(adj, n, i + 1, visited, cs + [c])
  {
    var cs' := cs + [c];
    FlattenSnoc(cs, c);
    assert Flatten(cs') == Flatten(cs) + c;
    forall k | 0 <= k < |cs'| ensures cs'[k][0] < i + 1 && |cs'[k]| > 0 {
      if k < |cs| {
        assert cs'[k] == cs[k];
      }
    }
    CloseHeads(adj, n, i, visited, cs, c);
    CloseClosed(adj, n, i, visited, cs, c);
    CloseReach(adj, n, i, visited, cs, c);
  }

  lemma CloseHeads(adj: AdjList, n: int, i: int, visited: seq<bool>, cs: seq<seq<int>>, c: seq<int>)
    requires Formed(adj, n, i, cs)
    requires Growing(adj, n, i, visited, Flatten(cs), c, c)
    ensures HeadsOrdered(cs + [c])
  {
  }

  lemma CloseClosed(adj: AdjList, n: int, i: int, visited: seq<bool>, cs: seq<seq<int>>, c: seq<int>)
    requires Formed(adj, n, i, cs)
    requires Growing(adj, n, i, visited, Flatten(cs), c, c)
    ensures ClosedUpTo(adj, cs + [c])
  {
    var cs' := cs + [c];
    FlattenSnoc(cs, c);
    forall k, m, y | 0 <= k < |cs'| && 0 <= m < |cs'[k]| && y in Nbrs(adj, cs'[k][m])
      ensures y in Flatten(cs'[..k + 1])
    {
      if k < |cs| {
        assert cs'[k] == cs[k] && cs'[..k + 1] == cs[..k + 1];
      } else {
        assert cs'[..k + 1] == cs';
        assert c[m] in c;
      }
    }
  }

  lemma CloseReach(adj: AdjList, n: int, i: int, visited: seq<bool>, cs: seq<seq<int>>, c: seq<int>)
    requires Formed(adj, n, i, cs)
    requires Growing(adj, n, i, visited, Flatten(cs), c, c)
    ensures HeadsReach(adj, cs + [c])
  {
  }

  /** A vertex already placed is skipped. */
  lemma SkipPlaced(adj: AdjList, n: int, i: int, visited: seq<bool>, cs: seq<seq<int>>)
    requires Placed(adj, n, i, visited, cs)
    requires 0 <= i < n && visited[i]
    ensures Placed(adj, n, i + 1, visited, cs)
  {
  }

  /** After every vertex has been scanned the components partition the vertices. */
  lemma AllPlaced(adj: AdjList, n: int, visited: seq<bool>, cs: seq<seq<int>>)
    requires Placed(adj, n, n, visited, cs)
    ensures Partition(cs, n)
    ensures HeadsOrdered(cs) && ClosedUpTo(adj, cs) && HeadsReach(adj, cs)
  {
  }
}
