/**
 * The demonstration at the end of code4.py: eight vertices, the undirected
 * edges 0-1, 0-2, 1-3, 2-4, 5-6 and 6-7, a search from 0, the components,
 * and the paths from 0 to 4 and from 0 to 7. The contracts of the model fix
 * the levels, parents, component members and paths the demonstration
 * reports; they leave open the traversal order inside a level and the order
 * of the members inside a component.
 */
module Example {
  import opened Sequences
  import opened Adjacency
  import opened BfsTree
  import opened Components
  import opened Graphs

  /** The adjacency list the demonstration builds. */
  ghost predicate DemoShape(adj: AdjList) {
    && Nbrs(adj, 0) == [1, 2] && Nbrs(adj, 1) == [0, 3] && Nbrs(adj, 2) == [0, 4] && Nbrs(adj, 3) == [1]
    && Nbrs(adj, 4) == [2] && Nbrs(adj, 5) == [6] && Nbrs(adj, 6) == [5, 7] && Nbrs(adj, 7) == [6]
    && forall u :: (u < 0 || 7 < u) ==> Nbrs(adj, u) == []
  }

  /** The graph the six `add_edge` calls of the demonstration produce from an empty list. */
  lemma DemoBuilt()
    ensures DemoShape(WithEdge(WithEdge(WithEdge(WithEdge(WithEdge(WithEdge(map[],
              0, 1, true), 0, 2, true), 1, 3, true), 2, 4, true), 5, 6, true), 6, 7, true))
  {
  }

  /** The edges of the demonstration graph, one disjunct per recorded neighbour. */
  lemma DemoEdge(adj: AdjList, u: int, w: int)
    requires DemoShape(adj) && w in Nbrs(adj, u)
    ensures || (u == 0 && (w == 1 || w == 2)) || (u == 1 && (w == 0 || w == 3)) || (u == 2 && (w == 0 || w == 4))
            || (u == 3 && w == 1) || (u == 4 && w == 2) || (u == 5 && w == 6) || (u == 6 && (w == 5 || w == 7))
            || (u == 7 && w == 6)
  {
  }

  lemma DemoSymmetric(adj: AdjList)
    requires DemoShape(adj)
    ensures Symmetric(adj)
  {
  }

  /** Nothing in 5..7 is reachable from 0, and nothing in 0..4 from 5. */
  lemma DemoSeparate(adj: AdjList, a: int, b: int)
    requires DemoShape(adj)
    requires (0 <= a <= 4 && 5 <= b <= 7) || (5 <= a <= 7 && 0 <= b <= 4)
    ensures !Reachable(adj, a, b)
  {
    var s: set<int> := if a <= 4 then {0, 1, 2, 3, 4} else {5, 6, 7};
    forall u, w | u in s && w in Nbrs(adj, u) ensures w in s {
    }
    if Reachable(adj, a, b) {
      var p :| PathFromTo(adj, p, a, b);
      ClosedSetHoldsPaths(adj, s, p);
    }
  }

  /** Vertices of one side reach each other, through 0 or through 6. */
  lemma DemoConnected(adj: AdjList, a: int, b: int)
    requires DemoShape(adj)
    requires (0 <= a <= 4 && 0 <= b <= 4) || (5 <= a <= 7 && 5 <= b <= 7)
    ensures Reachable(adj, a, b)
  {
    var hub := if a <= 4 then 0 else 6;
    DemoHub(adj, a);
    DemoHub(adj, b);
    ReachableTrans(adj, a, hub, b);
  }

  /** Every vertex reaches the hub of its side (0 or 6) and is reached from it. */
  lemma DemoHub(adj: AdjList, v: int)
    requires DemoShape(adj) && 0 <= v <= 7
    ensures Reachable(adj, v, if v <= 4 then 0 else 6) && Reachable(adj, if v <= 4 then 0 else 6, v)
  {
    var there: seq<int>, back: seq<int>;
    if v == 0 {
      there, back := [0], [0];
    } else if v == 1 {
      there, back := [1, 0], [0, 1];
    } else if v == 2 {
      there, back := [2, 0], [0, 2];
    } else if v == 3 {
      there, back := [3, 1, 0], [0, 1, 3];
    } else if v == 4 {
      there, back := [4, 2, 0], [0, 2, 4];
    } else if v == 5 {
      there, back := [5, 6], [6, 5];
    } else if v == 6 {
      there, back := [6], [6];
    } else {
      there, back := [7, 6], [6, 7];
    }
    assert PathFromTo(adj, there, v, if v <= 4 then 0 else 6);
    assert PathFromTo(adj, back, if v <= 4 then 0 else 6, v);
  }

  /**
   * The search from 0 on the demonstration graph reports exactly the levels
   * `[0, 1, 1, 2, 2, -1, -1, -1]` and parents `[-1, 0, 0, 1, 2, -1, -1, -1]`.
   */
  lemma DemoTree(adj: AdjList, level: seq<int>, parent: seq<int>)
    requires DemoShape(adj)
    requires ParentTree(adj, 8, 0, level, parent) && LevelsBoundPaths(adj, 8, 0, level)
    ensures level == [0, 1, 1, 2, 2, -1, -1, -1]
    ensures parent == [-1, 0, 0, 1, 2, -1, -1, -1]
  {
    DemoFar(adj, level, parent);
    DemoNear(adj, level, parent);
    DemoTreeValues(level, parent);
  }

  lemma DemoTreeValues(level: seq<int>, parent: seq<int>)
    requires |level| == 8 && |parent| == 8
    requires level[0] == 0 && level[1] == 1 && level[2] == 1 && level[3] == 2 && level[4] == 2
    requires level[5] == -1 && level[6] == -1 && level[7] == -1
    requires parent[0] == -1 && parent[1] == 0 && parent[2] == 0 && parent[3] == 1 && parent[4] == 2
    requires parent[5] == -1 && parent[6] == -1 && parent[7] == -1
    ensures level == [0, 1, 1, 2, 2, -1, -1, -1]
    ensures parent == [-1, 0, 0, 1, 2, -1, -1, -1]
  {
  }

  /** Vertices 5, 6 and 7 are not reached. */
  lemma DemoFar(adj: AdjList, level: seq<int>, parent: seq<int>)
    requires DemoShape(adj)
    requires ParentTree(adj, 8, 0, level, parent) && LevelsBoundPaths(adj, 8, 0, level)
    ensures forall w :: 5 <= w <= 7 ==> level[w] == -1 && parent[w] == -1
  {
    forall w | 5 <= w <= 7 ensures level[w] == -1 && parent[w] == -1 {
      DemoSeparate(adj, 0, w);
      ShortestPathTree(adj, 8, 0, level, parent, w);
    }
  }

  /** The walks 0-1-3 and 0-2-4 bound the levels of 1 to 4. */
  lemma DemoNearBounds(adj: AdjList, level: seq<int>)
    requires DemoShape(adj) && LevelsBoundPaths(adj, 8, 0, level)
    ensures 0 <= level[1] <= 1 && 0 <= level[2] <= 1 && 0 <= level[3] <= 2 && 0 <= level[4] <= 2
  {
    assert IsPath(adj, [0, 1]) && IsPath(adj, [0, 2]);
    assert IsPath(adj, [0, 1, 3]) && IsPath(adj, [0, 2, 4]);
  }

  /** Vertices 1 and 2 hang off 0, vertex 3 off 1 and vertex 4 off 2. */
  lemma DemoNear(adj: AdjList, level: seq<int>, parent: seq<int>)
    requires DemoShape(adj)
    requires ParentTree(adj, 8, 0, level, parent) && LevelsBoundPaths(adj, 8, 0, level)
    ensures level[1] == 1 && level[2] == 1 && level[3] == 2 && level[4] == 2
    ensures parent[1] == 0 && parent[2] == 0 && parent[3] == 1 && parent[4] == 2
  {
    DemoNearBounds(adj, level);
    DemoEdge(adj, parent[3], 3);
    DemoEdge(adj, parent[4], 4);
    DemoEdge(adj, parent[1], 1);
    DemoEdge(adj, parent[2], 2);
  }

  /** The first component holds vertex 0, the least vertex. */
  lemma FirstHeadIsZero(cs: seq<seq<int>>)
    requires Partition(cs, 8) && HeadsOrdered(cs)
    ensures |cs| > 0 && cs[0][0] == 0
  {
    ExactlyOneComponent(cs, 8, 0);
    var k :| 0 <= k < |cs| && 0 in cs[k];
    var m :| 0 <= m < |cs[k]| && cs[k][m] == 0;
    assert cs[0][0] in Flatten(cs) by {
      FlattenMember(cs, cs[0][0]);
    }
  }

  /** The demonstration graph has the two components `{0, ..., 4}` and `{5, 6, 7}`, in that order. */
  lemma DemoComponents(adj: AdjList, cs: seq<seq<int>>)
    requires DemoShape(adj)
    requires Partition(cs, 8) && HeadsOrdered(cs) && ClosedUpTo(adj, cs) && HeadsReach(adj, cs)
    ensures |cs| == 2
    ensures forall v :: v in cs[0] <==> 0 <= v <= 4
    ensures forall v :: v in cs[1] <==> 5 <= v <= 7
  {
    DemoFirst(adj, cs);
    var k := DemoSecond(adj, cs);
    if |cs| != 2 || k != 1 {
      var j := if k == 1 then 2 else 1;
      var x := cs[j][0];
      assert x in cs[j];
      FlattenMember(cs, x);
      assert 0 <= x < 8;
      if x <= 4 {
        assert x in cs[0];
      } else {
        assert x in cs[k];
      }
      ExactlyOneComponent(cs, 8, x);
      assert false;
    }
  }

  /** The first component is the side of 0. */
  lemma DemoFirst(adj: AdjList, cs: seq<seq<int>>)
    requires DemoShape(adj)
    requires Partition(cs, 8) && HeadsOrdered(cs) && ClosedUpTo(adj, cs) && HeadsReach(adj, cs)
    ensures |cs| > 0 && forall v :: v in cs[0] <==> 0 <= v <= 4
  {
    DemoSymmetric(adj);
    FirstHeadIsZero(cs);
    forall v ensures v in cs[0] <==> 0 <= v <= 4 {
      ComponentIsReachableSet(adj, cs, 8, 0, v);
      if 0 <= v <= 4 {
        DemoConnected(adj, 0, v);
      } else if 5 <= v <= 7 {
        DemoSeparate(adj, 0, v);
      } else if v in cs[0] {
        FlattenMember(cs, v);
      }
    }
  }

  /** Some later component is the side of 5. */
  lemma DemoSecond(adj: AdjList, cs: seq<seq<int>>) returns (k: int)
    requires DemoShape(adj)
    requires Partition(cs, 8) && HeadsOrdered(cs) && ClosedUpTo(adj, cs) && HeadsReach(adj, cs)
    requires |cs| > 0 && forall v :: v in cs[0] <==> 0 <= v <= 4
    ensures 0 < k < |cs| && forall v :: v in cs[k] <==> 5 <= v <= 7
  {
    DemoSymmetric(adj);
    ExactlyOneComponent(cs, 8, 5);
    k :| 0 <= k < |cs| && 5 in cs[k];
    var m :| 0 <= m < |cs[k]| && cs[k][m] == 5;
    var h := cs[k][0];
    assert 0 <= h <= 5 by {
      FlattenMember(cs, h);
    }
    ExactlyOneComponent(cs, 8, h);
    assert h in cs[k] && 5 !in cs[0];
    assert h !in cs[0];
    assert h == 5;
    forall v ensures v in cs[k] <==> 5 <= v <= 7 {
      ComponentIsReachableSet(adj, cs, 8, k, v);
      if 5 <= v <= 7 {
        DemoConnected(adj, 5, v);
      } else if 0 <= v <= 4 {
        DemoSeparate(adj, 5, v);
      } else if v in cs[k] {
        FlattenMember(cs, v);
      }
    }
  }

  /** The parent walks from 4 and from 7 in the demonstration's search. */
  lemma DemoPaths(level: seq<int>, parent: seq<int>)
    requires level == [0, 1, 1, 2, 2, -1, -1, -1]
    requires parent == [-1, 0, 0, 1, 2, -1, -1, -1]
    ensures Ranked(parent, level)
    ensures Root(parent, level, 4) == 0 && Ancestry(parent, level, 4) == [0, 2, 4]
    ensures Root(parent, level, 7) == 7
  {
    assert Ranked(parent, level);
    assert Ancestry(parent, level, 2) == [0, 2];
  }

  /** The search from 0 at code4.py:98 on the demonstration graph. */
  method DemoSearch(g: Graph) returns (levels: seq<int>, parents: seq<int>)
    requires g.Valid() && g.V == 8 && DemoShape(g.adj)
    ensures levels == [0, 1, 1, 2, 2, -1, -1, -1]
    ensures parents == [-1, 0, 0, 1, 2, -1, -1, -1]
  {
    var traversal;
    traversal, levels, parents := g.Bfs(0);
    DemoTree(g.adj, levels, parents);
  }

  /** The search over every component at code4.py:104 on the demonstration graph. */
  method DemoSplit(g: Graph) returns (components: seq<seq<int>>)
    requires g.Valid() && g.V == 8 && DemoShape(g.adj)
    ensures |components| == 2
    ensures forall v :: v in components[0] <==> 0 <= v <= 4
    ensures forall v :: v in components[1] <==> 5 <= v <= 7
  {
    components := g.BfsAllComponents();
    DemoComponents(g.adj, components);
  }

  /**
   * Runs the demonstration: builds the graph, searches from 0, finds the
   * components and reconstructs the paths from 0 to 4 and from 0 to 7.
   */
  method Demo() returns (levels: seq<int>, parents: seq<int>, components: seq<seq<int>>,
                         path04: seq<int>, path07: seq<int>)
    ensures levels == [0, 1, 1, 2, 2, -1, -1, -1]
    ensures parents == [-1, 0, 0, 1, 2, -1, -1, -1]
    ensures |components| == 2
    ensures forall v :: v in components[0] <==> 0 <= v <= 4
    ensures forall v :: v in components[1] <==> 5 <= v <= 7
    ensures path04 == [0, 2, 4]
    ensures path07 == []
  {
    var g := new Graph(8);
    g.AddEdge(0, 1);
    g.AddEdge(0, 2);
    g.AddEdge(1, 3);
    g.AddEdge(2, 4);
    g.AddEdge(5, 6);
    g.AddEdge(6, 7);
    DemoBuilt();
    levels, parents := DemoSearch(g);
    components := DemoSplit(g);
    DemoPaths(levels, parents);
    path04 := g.ReconstructPath(0, 4, parents, levels);
    path07 := g.ReconstructPath(0, 7, parents, levels);
  }
}
