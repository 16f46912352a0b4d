# Breadth-first search over an adjacency list (code4.py)

This project models the `Graph` class of `code4.py`: a vertex count `V`, an
adjacency list that `add_edge` appends to, a breadth-first search from one
vertex that returns the traversal order, the level of every vertex and its
BFS parent, a search over every component, and the reconstruction of a path
from a parent list.

The model keeps the source's form. `Graph` is a class with the fields `V` and
`adj`. `AddEdge` updates `adj` in place. `Bfs`, `BfsAllComponents` and
`ReconstructPath` are methods with the same loops as the source, each proved
against a specification:

- `Adjacency`: the adjacency list as a value (`map<int, seq<int>>`, where a
  missing key means no neighbours, as with a `defaultdict(list)`), the edge
  update `WithEdge`, walks and reachability.
- `BfsTree`: what a BFS result means. `ParentTree` says the levels and parents
  form a BFS tree, and `LevelsBoundPaths` says no walk from the start is
  shorter than a level. From these two, level -1 means unreachable, and any
  other level is the length of a shortest path. `Root` and `Ancestry` specify
  the parent walk of `reconstruct_path`.
- `Components`: what the list returned by `bfs_all_components` means. It is a
  partition of the vertices into non-empty groups, each opened at its least
  vertex, with heads increasing, closed under edges into the same or an
  earlier group, and reachable from the head. For an undirected graph each
  group is exactly a connected component.
- `BfsLoop` and `ComponentLoop`: the loop invariants of the two searches, one
  predicate per loop, and a lemma for each step that preserves them.
- `Graphs`: the class.
- `Example`: the demonstration at the end of `code4.py`. It shows that the
  contracts fix the levels `[0, 1, 1, 2, 2, -1, -1, -1]` and the parents
  `[-1, 0, 0, 1, 2, -1, -1, -1]`, the two components `{0..4}` and `{5, 6, 7}`,
  the path `[0, 2, 4]` and the empty path from 0 to 7.

## Model

| member | source | states |
|---|---|---|
| Adjacency.WithEdge | code4.py:8-12 | `v` is appended to the list of `u`; for an undirected edge `u` is then appended to the list of `v` (twice to `u`'s own list for a self-loop); every other list is unchanged |
| Adjacency.WithEdgeBelow | code4.py:8-12 | adding an edge between two vertices keeps every recorded neighbour a vertex id |
| Adjacency.WithEdgeSymmetric | code4.py:8-12 | adding undirected edges keeps the graph undirected (every edge recorded both ways) |
| Graphs.Graph.constructor | code4.py:4-6 | a graph of `vertices` vertices with no edges |
| Adjacency.NbrsDefault | code4.py:6-12 | the neighbour lists read like a `defaultdict(list)`: the empty one gives `[]` for every vertex, and writing the list of `u` changes what `u` reads to that list and leaves every other vertex's list as it was |
| Graphs.Graph.AddEdge | code4.py:8-12 | the new adjacency list is `WithEdge` of the old one (undirected unless stated); it stays valid when both ends are vertices |
| Graphs.Graph.Bfs | code4.py:14-36 | the order starts at `start`, has no repeats and is level-sorted; exactly the vertices with a level appear in it; levels and parents form a BFS tree whose levels bound every walk from `start` |
| Graphs.Graph.VisitNeighbours | code4.py:29-34 | the vertices queued are exactly `NewlyFound(visited, Nbrs(adj, current))`, the unvisited neighbours of `current` in list order without repeats; each is now visited with level `level[current] + 1` and parent `current`; every other vertex keeps its mark, level and parent; all neighbours end visited at most one level deeper, and `current` counts as expanded |
| BfsLoop.FoundStep | code4.py:30-34 | marking an unvisited neighbour with the next level and parent `current` appends it to what the scan has found and changes no other vertex |
| BfsLoop.ScanStart | code4.py:29 | before the `for neighbor` loop its invariant holds with nothing scanned and nothing found |
| BfsLoop.ScanDiscover | code4.py:30-34 | inside the neighbour loop, marking an unvisited neighbour keeps the loop invariant, leaves earlier vertices untouched and covers the neighbour |
| BfsLoop.ScanSkip | code4.py:30 | inside the neighbour loop, a visited neighbour is already covered at most one level deeper |
| BfsLoop.ScanEnd | code4.py:29-34 | when the neighbour loop ends, `current` is expanded and joins the dequeued vertices |
| BfsLoop.SearchingStart | code4.py:16-24 | the initial lists and queue `[start]` satisfy the loop invariant |
| BfsLoop.Dequeue | code4.py:26-28 | the vertex taken from the front of the queue is visited and bounds every seen level by one more than its own |
| BfsLoop.Discover | code4.py:30-34 | marking an unvisited neighbour with level `level[current] + 1` and parent `current` and queueing it keeps the invariant |
| BfsLoop.DiscoverMarked | code4.py:30-34 | the newly marked vertex is queued once and takes a level; unvisited vertices stay at -1 |
| BfsLoop.DiscoverDiscovered | code4.py:30-33 | the new parent link follows an edge from a visited vertex one level up |
| BfsLoop.DiscoverExpanded | code4.py:30-33 | marking a new vertex keeps already expanded vertices expanded |
| BfsLoop.DiscoverLayered | code4.py:33-34 | queueing the neighbour keeps levels non-decreasing along the queue |
| BfsLoop.Skip | code4.py:30 | an already visited neighbour is left alone and already has level at most `level[current] + 1` |
| BfsLoop.ExpandOne | code4.py:29-34 | once every neighbour is visited within one level, `current` counts as expanded |
| BfsLoop.Requeue | code4.py:26-34 | after an iteration the invariant holds again, with `current` appended to the order |
| BfsLoop.Finished | code4.py:26-36 | with an empty queue the order, levels and parents satisfy all of `bfs`'s guarantees |
| BfsLoop.FinishedTree | code4.py:31-33 | the recorded parents and levels form a BFS tree |
| BfsLoop.FinishedPaths | code4.py:26-34 | the levels bound every walk from the start, and a vertex has a level exactly when it was dequeued |
| BfsTree.PathLevelBound | code4.py:29-34 | if every reached vertex has its neighbours reached at most one level deeper, each walk from the start ends at a vertex whose level is at most the walk's length |
| BfsTree.ParentTreeRanked | code4.py:31-33 | a BFS tree's parent list is acyclic: following a parent lowers the level |
| BfsTree.Root | code4.py:67-69 | the parent walk from `w` stops at a vertex whose parent is -1 |
| BfsTree.Ancestry | code4.py:66-70 | the parent walk read from the top down to `w`: it starts at the root, ends at `w`, and each element is the parent of the next |
| BfsTree.AncestryInTree | code4.py:66-70 | in a BFS tree the ancestry of a reached vertex starts at `start`, follows edges and has `level[w] + 1` vertices |
| BfsTree.RootIsStartIffReached | code4.py:72-75 | in a BFS tree the walk from `w` ends at `start` if and only if `w` was reached |
| BfsTree.ShortestPathTree | code4.py:18 | level -1 if and only if unreachable; otherwise the ancestry is a walk from `start` of length `level[w]`, no longer than any other |
| Graphs.Graph.BfsAllComponents | code4.py:38-62 | the components partition `0..V-1`, each starts at its least vertex, heads strictly increase, every neighbour of a member lies in the same or an earlier component, every member is reachable from its head |
| Graphs.Graph.MarkNeighbours | code4.py:55-58 | the vertices queued are exactly `NewlyFound(visited, Nbrs(adj, current))`, the unvisited neighbours of `current` in list order without repeats; a vertex ends visited exactly when it was visited before or was queued; every neighbour of `current` ends visited |
| ComponentLoop.MarkingNew | code4.py:56-58 | marking an unvisited neighbour appends it to what the scan has found, and only it becomes visited |
| ComponentLoop.MarkingOld | code4.py:56 | a visited neighbour is passed over and the scan finds nothing new |
| ComponentLoop.PlacedStart | code4.py:40-41 | no vertex visited and no component satisfies the `for i` invariant at 0 |
| ComponentLoop.OpenComponent | code4.py:44-49 | opening a component at an unvisited `i` starts the queue invariant |
| ComponentLoop.TakeFront | code4.py:51-53 | the dequeued vertex is visited, reachable from the head, and the component stays within the vertex count |
| ComponentLoop.Mark | code4.py:56-58 | marking and queueing an unvisited neighbour keeps the queue invariant |
| ComponentLoop.Expand | code4.py:55-58 | once all its neighbours are visited `current` counts as expanded |
| ComponentLoop.CloseComponent | code4.py:60 | appending the finished component keeps the `for i` invariant at `i + 1` |
| ComponentLoop.CloseHeads | code4.py:43-49 | the new component's head is its least member and exceeds all earlier heads |
| ComponentLoop.CloseClosed | code4.py:51-58 | neighbours of the new component's members lie in it or in earlier components |
| ComponentLoop.CloseReach | code4.py:51-58 | every member of the new component is reachable from its head |
| ComponentLoop.SkipPlaced | code4.py:43-44 | a visited `i` is skipped and the invariant moves to `i + 1` |
| ComponentLoop.AllPlaced | code4.py:43-62 | after all vertices are scanned, the components satisfy all of `bfs_all_components`'s guarantees |
| Components.ExactlyOneComponent | code4.py:40-60 | in a partition each vertex lies in exactly one component and no component repeats a vertex |
| Components.UndirectedClosed | code4.py:55-58 | in an undirected graph a neighbour of a member of a component is in that same component |
| Components.PathStaysIn | code4.py:55-58 | in an undirected graph a walk starting in a component stays in it |
| Components.ComponentIsReachableSet | code4.py:38-62 | in an undirected graph each component is exactly the set of vertices reachable from its head |
| Graphs.Graph.ReconstructPath | code4.py:64-75 | the result is the ancestry of `end` if that walk ends at `start`, else `[]`; non-empty exactly when it ends at `start`, then running from `start` to `end` along parent links |
| Sequences.Reversed | code4.py:70 | the reversal: same length, element `i` is element `|s| - 1 - i` of the input |
| Sequences.NewlyFound | code4.py:29-34 | what a scan of a list that marks and queues each unmarked vertex queues: exactly the unmarked vertices of the list, each once |
| Sequences.NewlyFoundPrefix | code4.py:29-34 | the scan queues in list order: what it finds in a prefix of the list is a prefix of what it finds in the whole list |
| Sequences.DistinctBound | code4.py:16 | a repeat-free list of vertices below `n` has at most `n` elements, which bounds both searches |
| Example.DemoBuilt | code4.py:86-93 | the six `add_edge` calls build the lists 0: [1, 2], 1: [0, 3], 2: [0, 4], 3: [1], 4: [2], 5: [6], 6: [5, 7], 7: [6] |
| Example.DemoTree | code4.py:98 | any BFS tree from 0 on that graph whose levels bound all walks has levels `[0, 1, 1, 2, 2, -1, -1, -1]` and parents `[-1, 0, 0, 1, 2, -1, -1, -1]` |
| Example.DemoComponents | code4.py:104 | any result meeting `bfs_all_components`'s guarantees on that graph has two components, `{0..4}` then `{5, 6, 7}` |
| Example.DemoPaths | code4.py:109-113 | with those parents the walk from 4 is `[0, 2, 4]` and the walk from 7 stops at 7 |
| Example.DemoSearch | code4.py:98 | `bfs(0)` on the demonstration graph returns the levels `[0, 1, 1, 2, 2, -1, -1, -1]` and the parents `[-1, 0, 0, 1, 2, -1, -1, -1]` |
| Example.DemoSplit | code4.py:104 | `bfs_all_components()` on the demonstration graph returns two components, `{0..4}` then `{5, 6, 7}` |
| Example.Demo | code4.py:85-114 | the demonstration yields those levels, parents and components, the path `[0, 2, 4]` from 0 to 4 and `[]` from 0 to 7 |

## Left out

- `print_graph` and the printing in the demonstration: output only.
- Graphs.Graph.Bfs: requires `0 <= start < V` and every recorded neighbour to be a vertex id (`Valid`). On other graphs the source may raise an `IndexError` when the search reaches an out-of-range neighbour, or for a negative id silently index from the end of the list; neither behaviour is modelled. `Valid` also excludes graphs whose out-of-range ids the search never reaches, on which the source runs normally.
- Graphs.Graph.BfsAllComponents: requires `Valid` for the same reason.
- Graphs.Graph.Bfs: the contract fixes the levels. It fixes a vertex's parent only up to the choice among its neighbours one level closer to the start; the source picks the first of them to be dequeued, and the contract does not say so. It fixes the order only up to vertices of equal level, and does not state that vertices of one level appear in the order their parents were dequeued and their edges were added. Each single neighbour loop is specified exactly (`VisitNeighbours`); only the whole-run consequence is left unstated.
- Graphs.Graph.BfsAllComponents: the contract fixes each component's members and first vertex, not the BFS order of the rest of its members.
- Graphs.Graph.ReconstructPath: requires `0 <= end < |parent|` and a ranking `level` (a ghost argument) under which each parent is strictly lower. The source loops forever on a cyclic parent list, fails with an `IndexError` when `end` is -1 (the path is empty), and wraps around for other negative ids. The levels returned by the same `Bfs` are such a ranking (`BfsTree.ParentTreeRanked`).
- Reading `self.adj_list[current]` on a `defaultdict` inserts an empty list for a vertex without edges. Nothing observes that entry, so the model reads through `Nbrs` without changing `adj`.
- The `visited`, `parent`, `level` and `traversal_order` lists, the queue, and the `path` list of `reconstruct_path` are local to each call. They are modelled as sequence values updated by index, not as arrays. The in-place `path.reverse()` becomes the value `Reversed(path)`. No aliasing is lost, since nothing outside the call can see these lists.
- `V` is a natural number; a negative `V` (an empty list in the source) is not modelled.
