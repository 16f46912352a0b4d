/**
 * The state kept by the `while queue` loop of `bfs`, as values: the
 * `visited`, `level` and `parent` lists, and `seen`, the vertices dequeued so
 * far followed by those still queued. The predicates are the loop's
 * invariants; the lemmas are the steps that preserve them.
 */
module BfsLoop {
  import opened Sequences
  import opened Adjacency
  import opened BfsTree

  /**
   * `seen` starts at `start`, holds each vertex at most once, and is exactly
   * the set of visited vertices; visited vertices have a level, the others
   * have level and parent -1.
   */
  ghost predicate Marked(n: int, start: int, visited: seq<bool>, level: seq<int>, parent: seq<int>, seen: seq<int>) {
    && |visited| == n && |level| == n && |parent| == n
    && 0 <= start < n
    && |seen| > 0 && seen[0] == start
    && Distinct(seen) && AllBelow(seen, n)
    && (forall v :: 0 <= v < n ==> (visited[v] <==> v in seen))
    && (forall v :: 0 <= v < n ==> if visited[v] then level[v] >= 0 else level[v] == -1 && parent[v] == -1)
    && level[start] == 0 && parent[start] == -1
  }

  /** Every visited vertex but the start was discovered from a visited parent along an edge. */
  ghost predicate Discovered(adj: AdjList, n: int, start: int, visited: seq<bool>, level: seq<int>, parent: seq<int>) {
    && |visited| == n && |level| == n && |parent| == n
    && forall v {:trigger parent[v]} :: 0 <= v < n && v != start && visited[v] ==>
         && 0 <= parent[v] < n && visited[parent[v]]
         && v in Nbrs(adj, parent[v]) && level[v] == level[parent[v]] + 1
  }

  /** Levels never decrease along `seen`. */
  ghost predicate LevelsSorted(level: seq<int>, seen: seq<int>) {
    && AllBelow(seen, |level|)
    && forall i, j :: 0 <= i < j < |seen| ==> level[seen[i]] <= level[seen[j]]
  }

  /** No level along `seen` exceeds `top`. */
  ghost predicate LevelsAtMost(level: seq<int>, seen: seq<int>, top: int) {
    && AllBelow(seen, |level|)
    && forall i :: 0 <= i < |seen| ==> level[seen[i]] <= top
  }

  /** Every vertex of `done` is visited, and so is each of its neighbours, at most one level further. */
  ghost predicate Expanded(adj: AdjList, n: int, visited: seq<bool>, level: seq<int>, done: seq<int>) {
    && |visited| == n && |level| == n
    && forall u :: 0 <= u < n && u in done ==>
         && visited[u]
         && forall w :: w in Nbrs(adj, u) ==> 0 <= w < n && visited[w] && level[w] <= level[u] + 1
  }

  /**
   * Discovering an unvisited neighbour `x` of the vertex `current` being
   * expanded marks `x`, gives it the next level and `current` as parent, and
   * queues it. The four lemmas below show that each invariant survives this
   * step, which changes nothing already visited.
   */
  lemma DiscoverMarked(n: int, start: int, visited: seq<bool>, level: seq<int>, parent: seq<int>,
                       seen: seq<int>, current: int, x: int)
    requires Marked(n, start, visited, level, parent, seen)
    requires 0 <= current < n && visited[current]
    requires 0 <= x < n && !visited[x]
    ensures Marked(n, start, visited[x := true], level[x := level[current] + 1], parent[x := current], seen + [x])
  {
  }

  lemma DiscoverDiscovered(adj: AdjList, n: int, start: int, visited: seq<bool>, level: seq<int>, parent: seq<int>,
                           current: int, x: int)
    requires Discovered(adj, n, start, visited, level, parent)
    requires 0 <= current < n && visited[current]
    requires 0 <= x < n && !visited[x] && x in Nbrs(adj, current)
    requires x != start
    ensures Discovered(adj, n, start, visited[x := true], level[x := level[current] + 1], parent[x := current])
  {
  }

  lemma DiscoverExpanded(adj: AdjList, n: int, visited: seq<bool>, level: seq<int>, done: seq<int>,
                         current: int, x: int)
    requires Expanded(adj, n, visited, level, done)
    requires 0 <= current < n
    requires 0 <= x < n && !visited[x]
    ensures Expanded(adj, n, visited[x := true], level[x := level[current] + 1], done)
  {
  }

  lemma DiscoverLayered(level: seq<int>, seen: seq<int>, current: int, x: int)
    requires 0 <= current < |level|
    requires LevelsSorted(level, seen) && LevelsAtMost(level, seen, level[current] + 1)
    requires 0 <= x < |level| && x !in seen
    ensures LevelsSorted(level[x := level[current] + 1], seen + [x])
    ensures LevelsAtMost(level[x := level[current] + 1], seen + [x], level[current] + 1)
  {
  }

  /**
   * The invariant of the `while queue` loop: `seen` is `order` (dequeued and
   * expanded) followed by `queue`, and the front of the queue bounds the
   * levels of everything seen to one more than its own.
   */
  ghost predicate Searching(adj: AdjList, n: int, start: int, visited: seq<bool>, level: seq<int>, parent: seq<int>,
                            order: seq<int>, queue: seq<int>, seen: seq<int>) {
    && seen == order + queue
    && Marked(n, start, visited, level, parent, seen)
    && Discovered(adj, n, start, visited, level, parent)
    && Expanded(adj, n, visited, level, order)
    && LevelsSorted(level, seen)
    && (queue != [] ==> 0 <= queue[0] < |level| && LevelsAtMost(level, seen, level[queue[0]] + 1))
  }

  /**
   * The invariant of the `for neighbor` loop while `current` is expanded:
   * everything seen has level at most one more than `current`'s.
   */
  ghost predicate Visiting(adj: AdjList, n: int, start: int, visited: seq<bool>, level: seq<int>, parent: seq<int>,
                           done: seq<int>, seen: seq<int>, current: int) {
    && Marked(n, start, visited, level, parent, seen)
    && Discovered(adj, n, start, visited, level, parent)
    && Expanded(adj, n, visited, level, done)
    && 0 <= current < n && visited[current]
    && LevelsSorted(level, seen) && LevelsAtMost(level, seen, level[current] + 1)
  }

  /** Every vertex of `ws` is visited, with level at most `top`. */
  ghost predicate Covered(visited: seq<bool>, level: seq<int>, ws: seq<int>, top: int) {
    forall w :: w in ws ==> 0 <= w < |visited| && w < |level| && visited[w] && level[w] <= top
  }

  /** Every vertex visited in the first state keeps its mark, level and parent in the second. */
  ghost predicate Keeps(visited: seq<bool>, level: seq<int>, parent: seq<int>,
                        visited': seq<bool>, level': seq<int>, parent': seq<int>) {
    && |visited| == |level| == |parent| == |visited'| == |level'| == |parent'|
    && forall v :: 0 <= v < |visited| && visited[v] ==> visited'[v] && level'[v] == level[v] && parent'[v] == parent[v]
  }

  /** Discovering an unvisited vertex changes nothing already visited. */
  lemma KeepsStep(visited: seq<bool>, level: seq<int>, parent: seq<int>,
                  visited': seq<bool>, level': seq<int>, parent': seq<int>, x: int, l: int, p: int)
    requires Keeps(visited, level, parent, visited', level', parent')
    requires 0 <= x < |visited'| && !visited'[x]
    ensures Keeps(visited, level, parent, visited'[x := true], level'[x := l], parent'[x := p])
  {
  }

  /**
   * What scanning the neighbours `ws` of `current` has done, with `visited0`,
   * `level0`, `parent0` the lists before the scan: `added` is the unvisited
   * vertices of `ws` in the order met; each is now visited one level below
   * `current` with parent `current`; every other vertex unvisited before is
   * unchanged, and every vertex visited before keeps its mark, level and parent.
   */
  ghost predicate Found(visited0: seq<bool>, level0: seq<int>, parent0: seq<int>,
                        visited: seq<bool>, level: seq<int>, parent: seq<int>,
                        current: int, ws: seq<int>, added: seq<int>) {
    && Keeps(visited0, level0, parent0, visited, level, parent)
    && 0 <= current < |level0|
    && added == NewlyFound(visited0, ws)
    && (forall x :: x in added ==>
          0 <= x < |visited| && visited[x] && level[x] == level0[current] + 1 && parent[x] == current)
    && forall w :: 0 <= w < |visited0| && !visited0[w] && w !in added ==>
         !visited[w] && level[w] == level0[w] && parent[w] == parent0[w]
  }

  /** Discovering an unvisited `x` from `current` makes it the next vertex the scan has found. */
  lemma FoundStep(visited0: seq<bool>, level0: seq<int>, parent0: seq<int>,
                  visited: seq<bool>, level: seq<int>, parent: seq<int>,
                  current: int, ws: seq<int>, added: seq<int>, x: int, ws': seq<int>)
    requires Found(visited0, level0, parent0, visited, level, parent, current, ws, added)
    requires 0 <= current < |visited0| && visited0[current]
    requires 0 <= x < |visited| && !visited[x] && ws' == ws + [x]
    ensures Found(visited0, level0, parent0, visited[x := true], level[x := level[current] + 1], parent[x := current],
                  current, ws', added + [x])
  {
    KeepsStep(visited0, level0, parent0, visited, level, parent, x, level[current] + 1, current);
    assert !visited0[x] && x !in added;
    NewlyFoundSnoc(visited0, ws, x, ws');
    var visited', level', parent' := visited[x := true], level[x := level[current] + 1], parent[x := current];
    forall y | y in added + [x]
      ensures 0 <= y < |visited'| && visited'[y] && level'[y] == level0[current] + 1 && parent'[y] == current
    {
      if y != x {
        assert y in added;
        assert visited[y] && level[y] == level0[current] + 1 && parent[y] == current;
      }
    }
    forall w | 0 <= w < |visited0| && !visited0[w] && w !in added + [x]
      ensures !visited'[w] && level'[w] == level0[w] && parent'[w] == parent0[w]
    {
      assert w != x && w !in added;
      assert !visited[w] && level[w] == level0[w] && parent[w] == parent0[w];
    }
  }

  /**
   * The invariant of the `for neighbor` loop over the neighbours `ws` scanned
   * so far, with `visited0`, `level0`, `parent0` the lists when the loop
   * began: the invariant of `Visiting`, what the scan has found so far, and
   * every scanned neighbour is visited at most one level below `current`.
   */
  ghost predicate Scanning(adj: AdjList, n: int, start: int,
                           visited0: seq<bool>, level0: seq<int>, parent0: seq<int>,
                           visited: seq<bool>, level: seq<int>, parent: seq<int>,
                           done: seq<int>, seen: seq<int>, current: int, ws: seq<int>, added: seq<int>) {
    && Visiting(adj, n, start, visited, level, parent, done, seen, current)
    && Found(visited0, level0, parent0, visited, level, parent, current, ws, added)
    && visited0[current]
    && Covered(visited, level, ws, level0[current] + 1)
  }

  lemma ScanStart(adj: AdjList, n: int, start: int, visited: seq<bool>, level: seq<int>, parent: seq<int>,
                  done: seq<int>, seen: seq<int>, current: int)
    requires Visiting(adj, n, start, visited, level, parent, done, seen, current)
    ensures Scanning(adj, n, start, visited, level, parent, visited, level, parent, done, seen, current, [], [])
  {
  }

  /** Discovering the unvisited neighbour `x`. */
  lemma ScanDiscover(adj: AdjList, n: int, start: int,
                     visited0: seq<bool>, level0: seq<int>, parent0: seq<int>,
                     visited: seq<bool>, level: seq<int>, parent: seq<int>,
                     done: seq<int>, seen: seq<int>, current: int, ws: seq<int>, added: seq<int>,
                     x: int, ws': seq<int>)
    requires Scanning(adj, n, start, visited0, level0, parent0, visited, level, parent, done, seen, current, ws, added)
    requires 0 <= x < n && x in Nbrs(adj, current) && !visited[x]
    requires ws' == ws + [x]
    ensures Scanning(adj, n, start, visited0, level0, parent0,
                     visited[x := true], level[x := level[current] + 1], parent[x := current],
                     done, seen + [x], current, ws', added + [x])
  {
    Discover(adj, n, start, visited, level, parent, done, seen, current, ws, x);
    FoundStep(visited0, level0, parent0, visited, level, parent, current, ws, added, x, ws');
  }

  /** Passing over the visited neighbour `x`. */
  lemma ScanSkip(adj: AdjList, n: int, start: int,
                 visited0: seq<bool>, level0: seq<int>, parent0: seq<int>,
                 visited: seq<bool>, level: seq<int>, parent: seq<int>,
                 done: seq<int>, seen: seq<int>, current: int, ws: seq<int>, added: seq<int>,
                 x: int, ws': seq<int>)
    requires Scanning(adj, n, start, visited0, level0, parent0, visited, level, parent, done, seen, current, ws, added)
    requires 0 <= x < n && visited[x]
    requires ws' == ws + [x]
    ensures Scanning(adj, n, start, visited0, level0, parent0, visited, level, parent, done, seen, current, ws', added)
  {
    Skip(adj, n, start, visited, level, parent, done, seen, current, ws, x);
    NewlyFoundSnoc(visited0, ws, x, ws');
  }

  /** With every neighbour scanned, `current` is expanded. */
  lemma ScanEnd(adj: AdjList, n: int, start: int,
                visited0: seq<bool>, level0: seq<int>, parent0: seq<int>,
                visited: seq<bool>, level: seq<int>, parent: seq<int>,
                done: seq<int>, seen: seq<int>, current: int, added: seq<int>)
    requires Scanning(adj, n, start, visited0, level0, parent0, visited, level, parent, done, seen, current,
                      Nbrs(adj, current), added)
    ensures Visiting(adj, n, start, visited, level, parent, done + [current], seen, current)
    ensures Covered(visited, level, Nbrs(adj, current), level0[current] + 1)
    ensures Found(visited0, level0, parent0, visited, level, parent, current, Nbrs(adj, current), added)
  {
    ExpandOne(adj, n, start, visited, level, parent, done, seen, current);
  }

  lemma SearchingStart(adj: AdjList, n: int, start: int)
    requires 0 <= start < n
    ensures Searching(adj, n, start, seq(n, _ => false)[start := true], seq(n, _ => -1)[start := 0],
                      seq(n, _ => -1), [], [start], [start])
  {
  }

  /** Taking the front of the queue starts the expansion of that vertex. */
  lemma Dequeue(adj: AdjList, n: int, start: int, visited: seq<bool>, level: seq<int>, parent: seq<int>,
                order: seq<int>, queue: seq<int>, seen: seq<int>)
    requires Searching(adj, n, start, visited, level, parent, order, queue, seen)
    requires queue != []
    ensures Visiting(adj, n, start, visited, level, parent, order, seen, queue[0])
  {
  }

  /** Discovering an unvisited neighbour `x` of `current` keeps the invariant and covers `x`. */
  lemma Discover(adj: AdjList, n: int, start: int, visited: seq<bool>, level: seq<int>, parent: seq<int>,
                 done: seq<int>, seen: seq<int>, current: int, ws: seq<int>, x: int)
    requires Visiting(adj, n, start, visited, level, parent, done, seen, current)
    requires Covered(visited, level, ws, level[current] + 1)
    requires 0 <= x < n && x in Nbrs(adj, current) && !visited[x]
    ensures Visiting(adj, n, start, visited[x := true], level[x := level[current] + 1], parent[x := current],
                     done, seen + [x], current)
    ensures Covered(visited[x := true], level[x := level[current] + 1], ws + [x], level[current] + 1)
  {
    DiscoverMarked(n, start, visited, level, parent, seen, current, x);
    DiscoverDiscovered(adj, n, start, visited, level, parent, current, x);
    DiscoverExpanded(adj, n, visited, level, done, current, x);
    DiscoverLayered(level, seen, current, x);
  }

  /** An already visited neighbour `x` of `current` is covered as it stands. */
  lemma Skip(adj: AdjList, n: int, start: int, visited: seq<bool>, level: seq<int>, parent: seq<int>,
             done: seq<int>, seen: seq<int>, current: int, ws: seq<int>, x: int)
    requires Visiting(adj, n, start, visited, level, parent, done, seen, current)
    requires Covered(visited, level, ws, level[current] + 1)
    requires 0 <= x < n && visited[x]
    ensures Covered(visited, level, ws + [x], level[current] + 1)
  {
  }

  /** Once all neighbours of `current` are covered, `current` counts as expanded. */
  lemma ExpandOne(adj: AdjList, n: int, start: int, visited: seq<bool>, level: seq<int>, parent: seq<int>,
                  done: seq<int>, seen: seq<int>, current: int)
    requires Visiting(adj, n, start, visited, level, parent, done, seen, current)
    requires Covered(visited, level, Nbrs(adj, current), level[current] + 1)
    ensures Visiting(adj, n, start, visited, level, parent, done + [current], seen, current)
  {
  }

  /**
   * After `current`, the old front, is expanded and its new neighbours are
   * queued, the loop invariant holds again with `current` appended to `order`.
   */
  lemma Requeue(adj: AdjList, n: int, start: int, visited: seq<bool>, level: seq<int>, parent: seq<int>,
                order: seq<int>, queue: seq<int>, seen: seq<int>, current: int)
    requires Visiting(adj, n, start, visited, level, parent, order, seen, current)
    requires seen == order + queue && |order| > 0 && order[|order| - 1] == current
    ensures Searching(adj, n, start, visited, level, parent, order, queue, seen)
    ensures |order| <= n
  {
    if queue != [] {
      assert seen[|order| - 1] == current && seen[|order|] == queue[0];
    }
    DistinctBound(seen, n);
  }

  /**
   * When the queue is empty, every seen vertex has been expanded: the levels
   * and parents then form a BFS tree whose levels bound every walk from the
   * start, and the vertices with a level are exactly those dequeued.
   */
  lemma Finished(adj: AdjList, n: int, start: int, visited: seq<bool>, level: seq<int>, parent: seq<int>,
                 order: seq<int>, seen: seq<int>)
    requires Searching(adj, n, start, visited, level, parent, order, [], seen)
    ensures |order| > 0 && order[0] == start
    ensures Distinct(order) && AllBelow(order, n) && |order| <= n
    ensures forall i, j :: 0 <= i < j < |order| ==> level[order[i]] <= level[order[j]]
    ensures ParentTree(adj, n, start, level, parent)
    ensures LevelsBoundPaths(adj, n, start, level)
    ensures forall w :: 0 <= w < n ==> (w in order <==> level[w] != -1)
  {
    assert order == seen;
    FinishedTree(adj, n, start, visited, level, parent, order);
    FinishedPaths(adj, n, start, visited, level, parent, order);
    DistinctBound(order, n);
  }

  /** The visited vertices with their levels and parents form a BFS tree. */
  lemma FinishedTree(adj: AdjList, n: int, start: int, visited: seq<bool>, level: seq<int>, parent: seq<int>,
                     order: seq<int>)
    requires Marked(n, start, visited, level, parent, order)
    requires Discovered(adj, n, start, visited, level, parent)
    ensures ParentTree(adj, n, start, level, parent)
  {
  }

  /** With every visited vertex expanded, the levels bound every walk from the start. */
  lemma FinishedPaths(adj: AdjList, n: int, start: int, visited: seq<bool>, level: seq<int>, parent: seq<int>,
                      order: seq<int>)
    requires Marked(n, start, visited, level, parent, order)
    requires Expanded(adj, n, visited, level, order)
    ensures LevelsBoundPaths(adj, n, start, level)
    ensures forall w :: 0 <= w < n ==> (w in order <==> level[w] != -1)
  {
    forall u | 0 <= u < n && level[u] >= 0
      ensures forall w :: w in Nbrs(adj, u) ==> 0 <= w < n && 0 <= level[w] <= level[u] + 1
    {
      assert visited[u] && u in order;
    }
    forall p | IsPath(adj, p) && p[0] == start
      ensures 0 <= p[|p| - 1] < n && 0 <= level[p[|p| - 1]] <= |p| - 1
    {
      PathLevelBound(adj, n, start, level, p);
    }
  }
}
