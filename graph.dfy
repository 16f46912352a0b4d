/**
 * The `Graph` class of code4.py: a vertex count and an adjacency list that
 * `add_edge` appends to, with breadth-first search, search over every
 * component, and path reconstruction from a parent list.
 */
module Graphs {
  import opened Sequences
  import opened Adjacency
  import opened BfsTree
  import opened Components
  import opened BfsLoop
  import opened ComponentLoop

  class Graph {
    /** Number of vertices; they are numbered `0..V-1`. */
    const V: nat
    /** Adjacency list; a vertex without an entry has no neighbours. */
    var adj: AdjList

    /**
     * Every recorded neighbour is a vertex of the graph: `bfs` and
     * `bfs_all_components` index their lists by neighbours.
     */
    ghost predicate Valid()
      reads this
    {
      EntriesBelow(adj, V)
    }

    constructor (vertices: nat)
      ensures Valid()
      ensures V == vertices && adj == map[]
    {
      V := vertices;
      adj := map[];
    }

    /**
     * Adds the edge from `u` to `v`, and from `v` to `u` unless directed (by
     * default it is not). Any ids are accepted; the graph stays valid when
     * both ends are vertices.
     */
    method AddEdge(u: int, v: int, bidirectional: bool := true)
      modifies this
      ensures adj == WithEdge(old(adj), u, v, bidirectional)
      ensures old(Valid()) && 0 <= u < V && 0 <= v < V ==> Valid()
    {
      if Valid() && 0 <= u < V && 0 <= v < V {
        WithEdgeBelow(adj, V, u, v, bidirectional);
      }
      var a := adj[u := Nbrs(adj, u) + [v]];
      if bidirectional {
        a := a[v := Nbrs(a, v) + [u]];
      }
      adj := a;
    }

    /**
     * Breadth-first search from `start`. Returns the order in which vertices
     * were dequeued, each vertex's level (-1 if unreached) and each vertex's
     * BFS parent (-1 for the start and for unreached vertices).
     */
    method Bfs(start: int) returns (order: seq<int>, level: seq<int>, parent: seq<int>)
      requires Valid()
      requires 0 <= start < V
      ensures |level| == V && |parent| == V
      ensures |order| > 0 && order[0] == start
      ensures Distinct(order) && AllBelow(order, V) && |order| <= V
      ensures forall w :: 0 <= w < V ==> (w in order <==> level[w] != -1)
      ensures forall i, j :: 0 <= i < j < |order| ==> level[order[i]] <= level[order[j]]
      ensures ParentTree(adj, V, start, level, parent)
      ensures LevelsBoundPaths(adj, V, start, level)
    {
      var visited := seq(V, _ => false);
      var par := seq(V, _ => -1);
      var lev := seq(V, _ => -1);
      order := [];
      var queue := [start];
      visited := visited[start := true];
      lev := lev[start := 0];
      ghost var seen := [start];
      SearchingStart(adj, V, start);

      while queue != []
        invariant Searching(adj, V, start, visited, lev, par, order, queue, seen)
        invariant |order| <= V
        decreases V - |order|
      {
        var current := queue[0];
        Dequeue(adj, V, start, visited, lev, par, order, queue, seen);
        ghost var added;
        ghost var queue0 := queue;
        visited, lev, par, queue, seen, added := VisitNeighbours(start, current, visited, lev, par, queue[1..], order, seen);
        ShiftFront(order, queue0, added);
        order := order + [current];
        Requeue(adj, V, start, visited, lev, par, order, queue, seen, current);
      }
      level := lev;
      parent := par;
      Finished(adj, V, start, visited, level, parent, order, seen);
    }

    /**
     * The `for neighbor in self.adj_list[current]` loop of `bfs`: every
     * neighbour of `current` not yet visited is marked, given level
     * `level[current] + 1` and parent `current`, and appended to the queue.
     * `seen` is the ghost record of everything queued so far; `added` is what
     * this call queues.
     */
    method VisitNeighbours(start: int, current: int, visited: seq<bool>, level: seq<int>, parent: seq<int>,
                           queue: seq<int>, ghost done: seq<int>, ghost seen: seq<int>)
      returns (visited': seq<bool>, level': seq<int>, parent': seq<int>, queue': seq<int>,
               ghost seen': seq<int>, ghost added: seq<int>)
      requires Valid()
      requires Visiting(adj, V, start, visited, level, parent, done, seen, current)
      ensures Visiting(adj, V, start, visited', level', parent', done + [current], seen', current)
      ensures seen' == seen + added && queue' == queue + added
      ensures Covered(visited', level', Nbrs(adj, current), level[current] + 1)
      ensures Keeps(visited, level, parent, visited', level', parent')
      ensures added == NewlyFound(visited, Nbrs(adj, current))
      ensures forall x :: x in added ==>
                0 <= x < V && visited'[x] && level'[x] == level[current] + 1 && parent'[x] == current
      ensures forall w :: 0 <= w < V && !visited[w] && w !in added ==>
                !visited'[w] && level'[w] == level[w] && parent'[w] == parent[w]
    {
      visited', level', parent', queue', seen', added := visited, level, parent, queue, seen, [];
      var ns := Nbrs(adj, current);
      ScanStart(adj, V, start, visited, level, parent, done, seen, current);
      for k := 0 to |ns|
        invariant Scanning(adj, V, start, visited, level, parent, visited', level', parent', done, seen', current, ns[..k], added)
        invariant seen' == seen + added && queue' == queue + added
      {
        var neighbor := ns[k];
        assert neighbor in Nbrs(adj, current);
        TakeSnoc(ns, k);
        if !visited'[neighbor] {
          ScanDiscover(adj, V, start, visited, level, parent, visited', level', parent', done, seen', current,
                       ns[..k], added, neighbor, ns[..k + 1]);
          SnocBoth(seen, queue, added, neighbor);
          visited' := visited'[neighbor := true];
          parent' := parent'[neighbor := current];
          level' := level'[neighbor := level'[current] + 1];
          queue' := queue' + [neighbor];
          seen' := seen' + [neighbor];
          added := added + [neighbor];
        } else {
          ScanSkip(adj, V, start, visited, level, parent, visited', level', parent', done, seen', current,
                   ns[..k], added, neighbor, ns[..k + 1]);
        }
      }
      assert ns[..|ns|] == ns;
      ScanEnd(adj, V, start, visited, level, parent, visited', level', parent', done, seen', current, added);
    }

    /**
     * Breadth-first search from every vertex not yet visited, in increasing
     * order. Returns the groups of vertices found, each in the order it was
     * dequeued. They partition the vertices, each is opened at its least
     * vertex, every member is reachable from that vertex, and an edge from a
     * group leads into it or an earlier group.
     */
    method BfsAllComponents() returns (components: seq<seq<int>>)
      requires Valid()
      ensures Partition(components, V)
      ensures HeadsOrdered(components)
      ensures ClosedUpTo(adj, components)
      ensures HeadsReach(adj, components)
    {
      var visited := seq(V, _ => false);
      components := [];
      PlacedStart(adj, V);
      for i := 0 to V
        invariant Placed(adj, V, i, visited, components)
      {
        if !visited[i] {
          var queue := [i];
          var component := [];
          OpenComponent(adj, V, i, visited, components);
          visited := visited[i := true];
          ghost var prior := Flatten(components);
          while queue != []
            invariant Growing(adj, V, i, visited, prior, component, component + queue)
            decreases V - |component|
          {
            var current := queue[0];
            TakeFront(adj, V, i, visited, prior, component, queue);
            ghost var queue0 := queue;
            ghost var added;
            visited, queue, added := MarkNeighbours(current, visited, queue[1..], i, prior, component, component + queue);
            ShiftFront(component, queue0, added);
            component := component + [current];
          }
          assert component + queue == component;
          CloseComponent(adj, V, i, visited, components, component);
          components := components + [component];
        } else {
          SkipPlaced(adj, V, i, visited, components);
        }
      }
      AllPlaced(adj, V, visited, components);
    }

    /**
     * The `for neighbor in self.adj_list[current]` loop of
     * `bfs_all_components`: every neighbour of `current` not yet visited is
     * marked and appended to the queue; `added` is what this call queues.
     */
    method MarkNeighbours(current: int, visited: seq<bool>, queue: seq<int>, ghost head: int, ghost prior: seq<int>,
                          ghost done: seq<int>, ghost seen: seq<int>)
      returns (visited': seq<bool>, queue': seq<int>, ghost added: seq<int>)
      requires Valid()
      requires Growing(adj, V, head, visited, prior, done, seen)
      requires 0 <= current < V && visited[current] && Reachable(adj, head, current)
      ensures Growing(adj, V, head, visited', prior, done + [current], seen + added)
      ensures queue' == queue + added
      ensures AllVisited(visited', Nbrs(adj, current))
      ensures forall v :: 0 <= v < V && visited[v] ==> visited'[v]
      ensures added == NewlyFound(visited, Nbrs(adj, current))
      ensures forall w :: 0 <= w < V ==> (visited'[w] <==> visited[w] || w in added)
    {
      visited', queue', added := visited, queue, [];
      ghost var seen' := seen;
      var ns := Nbrs(adj, current);
      for k := 0 to |ns|
        invariant Growing(adj, V, head, visited', prior, done, seen')
        invariant seen' == seen + added
        invariant visited'[current]
        invariant AllVisited(visited', ns[..k])
        invariant queue' == queue + added
        invariant Marking(visited, visited', ns[..k], added)
      {
        var neighbor := ns[k];
        assert neighbor in Nbrs(adj, current);
        TakeSnoc(ns, k);
        if !visited'[neighbor] {
          Mark(adj, V, head, visited', prior, done, seen', current, ns[..k], neighbor);
          MarkingNew(visited, visited', ns[..k], added, neighbor, ns[..k + 1]);
          visited' := visited'[neighbor := true];
          queue' := queue' + [neighbor];
          seen' := seen' + [neighbor];
          added := added + [neighbor];
        } else {
          MarkingOld(visited, visited', ns[..k], added, neighbor, ns[..k + 1]);
        }
      }
      assert ns[..|ns|] == ns;
      Expand(adj, V, head, visited', prior, done, seen', current);
    }

    /**
     * Walks `parent` back from `end` and returns the walk from its root down
     * to `end` when that root is `start`, else the empty list. `level` is any
     * ranking of `parent` (the levels of the same BFS serve); it is what rules
     * out the cyclic parent lists on which the walk would not stop.
     */
    method ReconstructPath(start: int, end: int, parent: seq<int>, ghost level: seq<int>) returns (path: seq<int>)
      requires Ranked(parent, level)
      requires 0 <= end < |parent|
      ensures path == (if Root(parent, level, end) == start then Ancestry(parent, level, end) else [])
      ensures path != [] <==> Root(parent, level, end) == start
      ensures path != [] ==>
        && path[0] == start && parent[start] == -1 && path[|path| - 1] == end
        && forall i :: 0 < i < |path| ==> parent[path[i]] == path[i - 1]
    {
      path := [];
      var e := end;
      while e != -1
        invariant e == -1 || 0 <= e < |parent|
        invariant e == -1 ==> Reversed(path) == Ancestry(parent, level, end)
        invariant e != -1 ==> Ancestry(parent, level, e) + Reversed(path) == Ancestry(parent, level, end)
        decreases if e == -1 then 0 else level[e] + 2
      {
        ReversedSnoc(path, e);
        path := path + [e];
        e := parent[e];
      }
      path := Reversed(path);
      if path[0] == start {
        return path;
      } else {
        return [];
      }
    }
  }
}
