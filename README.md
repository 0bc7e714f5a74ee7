# Community homology engine — a Dafny model

The community homology engine treats a residence-hall floor as a graph.
Residents are the vertices. An edge joins two residents when their shared
classes, overlapping free time, shared interests, shared room, nearby room
and shared subcommunities add up to enough strength. From that graph the
engine computes:

- Betti numbers: beta_0 is the number of connected components; beta_1 is the
  number of independent cycles, called "structural holes".
- Each resident's boundary score. A high score means the resident is at risk
  of isolation.
- Bridge residents, who link several subcommunities.
- Cycles found by a depth-first search.
- A Mayer–Vietoris style comparison of two subcommunities and their
  intersection.
- A health score from 0 to 100.
- Suggested introductions.
- A persistence filtration over connection strength, which yields stable and
  fragile groups.
- The best weekly hours for an event.
- A priority order for check-ins.

The model follows the one source file `community_homology_engine.hpp`. Each
piece of the source takes the matching form in Dafny:

- `CommunityGraph` is a class. Its fields are reassigned by `AddResident`,
  `ComputeConnections`, `ComputeBoundaryScores` and `ComputeBridges`, and its
  invariant `Valid()` ties them together.
- The depth-first search of `find_cycles` is a class whose fields are the
  search state. It is a recursive method.
- The union-find of `h0` and of the persistence filtration is a parent
  `array`. It comes with a ghost rank that proves termination.
- Every counting or filtering loop is a method proved against a specification
  function. Each property the source promises is proved about that function.
- The three `std::sort` calls are one in-place insertion sort over an array.
  It is specified by "descending by key" and "a permutation of the input".
- Values built once and never changed are datatypes: a time block, a resident,
  a connection, the intersection graph, an extracted subcommunity, a barcode,
  a slot score and the analysis results.

Modules: `Wrappers`, `Time`, `Rooms`, `Entities`, `Signals`, `Adjacency`,
`Connectivity`, `UnionFind`, `Membership`, `Boundary`, `Bridges`, `Sorting`,
`Graph`, `Cycles`, `Subgraphs`, `Introductions`, `MayerVietoris`,
`Persistence`, `Scheduling` and `Analyzer`.

Strengths, scores, coverage and priorities are exact `real` numbers. The
source uses `float`. The 16-bit wrap-around of `overlap_minutes` is modelled
explicitly. A resident's id is its position in the resident list
(`IdsArePositions`), because the source indexes `residents` by id throughout.

In four places the code does something a reader might not expect; the model
follows the code:

- `compute_connections` clears `connections` and `adj` but never
  `adj_weighted` (community_homology_engine.hpp:253-255). Each call appends the
  strong edges to whatever the map already held.
- All three sorts use `std::sort`, which is not stable: the persistence
  filtration's sort of the connections (community_homology_engine.hpp:1005),
  the event-slot ranking (community_homology_engine.hpp:1126), whose ties
  decide which slots survive the cut to the top five, and the check-in
  priority sort (community_homology_engine.hpp:1253). Only the order of the
  keys is promised, not the order among equal keys.
- The persistence filtration fills `birth_time` with 0 and never writes it
  again, so every barcode is born at 0 (community_homology_engine.hpp:1013,
  1032).
- `compute_full` on a graph with no residents scores 66, not 0 or 100
  (community_homology_engine.hpp:746-756). The connectivity term is 120,
  because 0 components gives -1 times -20. The isolation term is
  `std::max(0.0f, NaN)`, which is 0.

## Model

| member | source | states |
|---|---|---|
| Time.OverlapMinutes | community_homology_engine.hpp:86-91 | blocks on different days share 0 minutes; for forward-running blocks the overlap is no longer than either block |
| Time.TouchingBlocksShareNothing | community_homology_engine.hpp:81-84 | ranges are half-open: a block ending where another starts neither overlaps it nor shares a minute |
| Time.OverlapSymmetric | community_homology_engine.hpp:81-91 | overlaps and overlap_minutes do not depend on argument order |
| Time.OverlapIsSharedMinutes | community_homology_engine.hpp:86-91 | for forward-running blocks, overlap_minutes is the number of minutes both blocks cover on the same day |
| Time.BackwardsBlockWraps | community_homology_engine.hpp:86-91 | a backwards block makes the 16-bit subtraction wrap: (50,30) against (10,100) yields 65516 |
| Rooms.LeadingDigits | community_homology_engine.hpp:539-540 | the longest all-digit prefix, which is what std::stoi reads |
| Rooms.ParseRoomNumber | community_homology_engine.hpp:539-540 | parsing the first three characters succeeds exactly when the room starts with a digit, and the number is below 1000 |
| Rooms.ThreeDigitRoom | community_homology_engine.hpp:539-540 | a room with three leading digits parses to their decimal value |
| Rooms.AreNeighborsSymmetric | community_homology_engine.hpp:536-545 | proximity does not depend on argument order |
| Rooms.NumericRoomIsOwnNeighbor | community_homology_engine.hpp:536-545 | a room that parses is within 5 of itself |
| Rooms.NonNumericRoomHasNoNeighbors | community_homology_engine.hpp:538-544 | a room that does not parse takes the catch branch: never a neighbour, in either argument |
| Rooms.OnlyPrefixMatters | community_homology_engine.hpp:539-541 | rooms with equal three-character prefixes have the same neighbours |
| Signals.CountSharedClasses | community_homology_engine.hpp:508-516 | the nested loop counts equal (class of r1, class of r2) pairs |
| Signals.SharedClassPairsPositive | community_homology_engine.hpp:508-516 | the count is positive exactly when some course appears in both lists |
| Signals.DuplicateClassesCountTwice | community_homology_engine.hpp:508-516 | a course listed twice is counted once per occurrence: ["MATH101","MATH101"] against ["MATH101"] gives 2 |
| Signals.ScheduleOverlapHours | community_homology_engine.hpp:518-526 | the loop sums overlap_minutes over all pairs of free blocks, then truncates the sum to hours |
| Signals.NoCommonDayNoOverlap | community_homology_engine.hpp:518-526 | free blocks on disjoint days overlap by 0 |
| Signals.CountSharedInterests | community_homology_engine.hpp:528-534 | the count is the size of the intersection of the two interest sets |
| Signals.WeighSignals | community_homology_engine.hpp:264-309 | the total strength adds every contribution; the fired types are listed in evaluation order |
| Signals.EvaluatePair | community_homology_engine.hpp:260-331 | one pair yields at most one connection, the one its signals determine |
| Signals.BridgeEdgeIffStrictSubset | community_homology_engine.hpp:319-321 | an edge touches the shared subcommunities, and it is a bridge edge exactly when those are a strict subset of one endpoint's |
| Signals.SubcommunitiesAloneNeverLink | community_homology_engine.hpp:300-312 | with no typed signal, shared subcommunities only add 0.5 each and never create an edge |
| Signals.PrimaryTypeIsFirstFired | community_homology_engine.hpp:317 | the primary type is the first signal to fire in the order classes, schedule, interests, room, proximity |
| Signals.SameNumericRoomEarnsBothBonuses | community_homology_engine.hpp:289-298 | roommates in a numeric room get both the roommate and the proximity bonus, at least 6.0 |
| Signals.StrengthNonNegative | community_homology_engine.hpp:264-309 | strength is never negative |
| Signals.SynthesizeShape | community_homology_engine.hpp:253-334 | edge ids run 0,1,2,...; the pairs (source,target) strictly increase, so each pair has at most one edge; endpoints are residents |
| Signals.SynthesizeGenuine | community_homology_engine.hpp:311-323 | every edge joins a qualifying pair i < j and carries that pair's strength, primary type and subcommunity fields |
| Signals.PairHasEdgeIffQualifies | community_homology_engine.hpp:311-323 | a pair a < b has an edge exactly when its strength reaches the minimum and some typed signal fired |
| Signals.SynthesizeComplete | community_homology_engine.hpp:258-333 | the same if-and-only-if, for every pair of positions |
| Adjacency.Strong | community_homology_engine.hpp:327-330 | the weighted index holds exactly the connections of strength at least 2.0 |
| Adjacency.AdjacencyMembership | community_homology_engine.hpp:324-330 | v is listed under u exactly when it was in the starting map or some connection joins u and v, in either direction |
| Adjacency.IndicesAppend | community_homology_engine.hpp:323-330 | appending one emitted edge adds both directions to adj, and to adj_weighted only when strong |
| Adjacency.AdjacencySymmetric | community_homology_engine.hpp:324-325 | adj is symmetric |
| Adjacency.AdjacencyBelow | community_homology_engine.hpp:324-325 | when every endpoint is a resident, every neighbour is a resident |
| Connectivity.ReachSym | community_homology_engine.hpp:352-354 | connectivity over the undirected edges is symmetric |
| Connectivity.ReachTrans | community_homology_engine.hpp:352-354 | connectivity is transitive |
| Connectivity.ClassIffReach | community_homology_engine.hpp:356-361 | two residents share a component exactly when they are connected |
| Connectivity.ReachAppend | community_homology_engine.hpp:352-354 | after one more edge, u reaches v exactly when it did before or the path passes through the new edge |
| Connectivity.ComponentsBounds | community_homology_engine.hpp:341-362 | no residents gives 0 components; otherwise between 1 and the number of residents |
| Connectivity.ComponentsWithoutEdges | community_homology_engine.hpp:356-361 | with no usable edge every resident is its own component |
| Connectivity.ComponentsOrderFree | community_homology_engine.hpp:352-354 | the component count depends only on which edges exist, not their order |
| UnionFind.Find | community_homology_engine.hpp:347-350 | find returns the root of x |
| UnionFind.LinkRoots | community_homology_engine.hpp:353 | hanging one root under another keeps a forest, re-roots exactly that tree and removes one root |
| UnionFind.RepresentsStart | community_homology_engine.hpp:344-345 | the iota start represents the graph with no edges, with one root per resident |
| UnionFind.UniteStep | community_homology_engine.hpp:352-354 | after one edge the forest represents connectivity over the longer list, and loses one root exactly when two trees joined |
| UnionFind.Unite | community_homology_engine.hpp:352-354 | the in-place union of one edge keeps "same root iff connected" |
| UnionFind.RootsCountComponents | community_homology_engine.hpp:356-361 | the number of distinct roots is the number of components |
| UnionFind.CountRoots | community_homology_engine.hpp:356-361 | the loop that collects find(i) counts the distinct roots |
| UnionFind.NewForest | community_homology_engine.hpp:344-345 | a fresh forest of n singletons that represents the edgeless graph |
| UnionFind.CountComponents | community_homology_engine.hpp:341-362 | h0's union-find counts exactly the components, and never fewer than residents minus edges |
| Membership.EnterStep | community_homology_engine.hpp:247-250 | filing an id under one more label appends it there and leaves other labels alone |
| Membership.AllLabelsMembership | community_homology_engine.hpp:247-248 | the label set is the union of every resident's subcommunities |
| Membership.IdsWhereMembership | community_homology_engine.hpp:450-458 | an id is listed exactly when some resident with that id passes the filter |
| Membership.IdsWhereIncreasing | community_homology_engine.hpp:450-458 | the filtered ids come in strictly increasing resident order |
| Membership.MembersOfIsFilter | community_homology_engine.hpp:249 | a label's member list is the residents carrying that label, in insertion order |
| Membership.UnusedLabelHasNoMembers | community_homology_engine.hpp:796 | a label nobody carries has no members |
| Membership.SameMembership | community_homology_engine.hpp:442-446 | rewriting scores leaves labels and member lists unchanged |
| Boundary.CountDegrees | community_homology_engine.hpp:428-432 | the degree map holds each endpoint's number of edge ends, and only endpoints |
| Boundary.MaxDegree | community_homology_engine.hpp:435-438 | the loop finds the largest degree, or 0 for an empty map |
| Boundary.MaxDegreeBelowIsMax | community_homology_engine.hpp:435-438 | `MaxDegreeBelow` bounds every resident's degree and, when positive, is the degree of some resident |
| Boundary.MaxOfMapIsMaxBelow | community_homology_engine.hpp:428-438 | the maximum over the map equals the maximum over the residents |
| Boundary.CentralityInUnitInterval | community_homology_engine.hpp:444 | centrality lies in [0, 1] |
| Boundary.BoundaryScoreInUnitInterval | community_homology_engine.hpp:442-446 | every boundary score lies in [0, 1] |
| Boundary.BoundaryScoreAntitone | community_homology_engine.hpp:440-446 | more connections never raise the boundary score |
| Boundary.NoConnectionsFullBoundary | community_homology_engine.hpp:444-445 | with no connections every resident scores 1.0 |
| Boundary.MostConnectedScoresZero | community_homology_engine.hpp:444-445 | a resident of maximum positive degree scores 0 |
| Boundary.TopDegreeScoresZero | community_homology_engine.hpp:444-445 | degree equal to a positive maximum gives score 0 |
| Bridges.NeighborLabelsMembership | community_homology_engine.hpp:478-486 | a label is collected exactly when some neighbour carries it |
| Bridges.BridgeIffTwoNeighborLabels | community_homology_engine.hpp:471-489 | a resident is a bridge exactly when it has 2+ subcommunities and two different labels are each carried by a neighbour |
| Graph.CommunityGraph.constructor | community_homology_engine.hpp:220-235 | an empty graph, satisfying the invariant |
| Graph.CommunityGraph.AddResident | community_homology_engine.hpp:245-251 | appends the resident, adds its labels, files its id under each label, and keeps the invariant |
| Graph.AddResidentKeepsValid | community_homology_engine.hpp:245-251 | after filing, each label's list is again exactly its carriers in order |
| Graph.IndexUnder | community_homology_engine.hpp:247-250 | the label loop adds every label and files the id under each |
| Graph.CommunityGraph.ComputeConnections | community_homology_engine.hpp:253-334 | connections are the synthesized edge list; adj is rebuilt from it; adj_weighted gains its strong edges; nothing else changes |
| Graph.ScoreAllPairs | community_homology_engine.hpp:258-333 | the double loop produces the row-major edge list and both indexes |
| Graph.ScoreRow | community_homology_engine.hpp:259-332 | one row of the inner loop appends that row's edges and keeps both indexes in step |
| Graph.CommunityGraph.H0 | community_homology_engine.hpp:341-362 | h0 is the number of connected components |
| Graph.CommunityGraph.H1 | community_homology_engine.hpp:366-371 | h1 is \|E\| - \|V\| + beta_0, never negative |
| Graph.CommunityGraph.FindCycles | community_homology_engine.hpp:374-418 | every reported cycle is a simple cycle of length 3 or more in adj, over residents; every connection is an edge of the DFS forest or the back edge of a reported cycle |
| Graph.CommunityGraph.ComputeBoundaryScores | community_homology_engine.hpp:424-447 | every resident gets centrality = degree/max degree and boundary = 1 - centrality, other fields unchanged |
| Graph.ScoreResidents | community_homology_engine.hpp:442-446 | the per-resident loop writes both scores from the degree map |
| Graph.CommunityGraph.GetBoundaryResidents | community_homology_engine.hpp:450-458 | the ids scoring at least the threshold, in resident order |
| Graph.CommunityGraph.ComputeBridges | community_homology_engine.hpp:464-491 | every resident's bridge flag is set by the bridge rule, other fields unchanged |
| Graph.MarkBridges | community_homology_engine.hpp:471-490 | the loop sets the flag from the subcommunity count and the neighbours' labels |
| Graph.CollectNeighborLabels | community_homology_engine.hpp:478-486 | collects the labels of all neighbours |
| Graph.CommunityGraph.GetBridgeResidents | community_homology_engine.hpp:493-501 | the ids of flagged bridges, in resident order |
| Cycles.CycleSearch.constructor | community_homology_engine.hpp:375-380 | an empty search state over a symmetric adjacency |
| Cycles.CycleSearch.Dfs | community_homology_engine.hpp:382-409 | visiting v marks it with parent p, keeps the parent and depth of earlier vertices, only appends genuine cycles, and returns with every edge at v accounted for |
| Cycles.CycleSearch.Push | community_homology_engine.hpp:383-386 | entering v records its parent and depth and keeps the search invariant |
| Cycles.CycleSearch.Pop | community_homology_engine.hpp:382-409 | once every edge at v is accounted for, v leaves the path and the invariant still holds |
| Cycles.CycleSearch.ExploreAll | community_homology_engine.hpp:390-408 | after the neighbour loop every neighbour of v is visited and every edge at v is a forest edge or closes a reported cycle |
| Cycles.CycleSearch.ExploreNext | community_homology_engine.hpp:390-408 | one round of the loop accounts for one more neighbour and keeps the earlier ones accounted for |
| Cycles.CycleSearch.Explore | community_homology_engine.hpp:391-407 | one neighbour is skipped as the parent, recorded as a back edge, or descended into; either way its edge to v ends up accounted for |
| Cycles.CycleSearch.FinishedNeighbor | community_homology_engine.hpp:393-394 | a visited neighbour no shallower than v, other than v, is finished, so its edge is already accounted for although no cycle is recorded |
| Cycles.CycleSearch.RecordBackEdge | community_homology_engine.hpp:393-404 | a back edge to a shallower vertex appends a cycle that runs from v to u, and changes no other search state |
| Cycles.EnterInvariant | community_homology_engine.hpp:383-385 | marking an unvisited v with the path's top as parent keeps the search invariant |
| Cycles.LeaveInvariant | community_homology_engine.hpp:382-409 | leaving the path's top with every edge at it accounted for keeps the invariant |
| Cycles.BackEdgeInvariant | community_homology_engine.hpp:393-404 | the cycle a back edge closes is a simple cycle, and reporting it keeps the invariant |
| Cycles.NoTreeTriangle | community_homology_engine.hpp:384-385 | three distinct residents are never pairwise joined by tree edges of the DFS forest |
| Cycles.TriangleReported | community_homology_engine.hpp:374-418 | when every edge is accounted for, a triangle in the graph forces at least one reported cycle |
| Cycles.CycleSearch.WalkBack | community_homology_engine.hpp:396-402 | climbing parent pointers from v to u yields the stack segment from v back to u |
| Cycles.BackEdgeOnPath | community_homology_engine.hpp:393-395 | with a symmetric adj, a visited shallower neighbour lies on the current DFS path |
| Cycles.ClimbIsCycle | community_homology_engine.hpp:396-403 | the climbed segment is a simple cycle of length 3 or more |
| Cycles.CycleVerticesBelow | community_homology_engine.hpp:396-403 | cycle vertices are residents |
| Cycles.FindCycles | community_homology_engine.hpp:410-417 | the DFS from every unvisited resident reports only simple cycles of adj, and every edge at a resident is an edge of the DFS forest or the back edge of a reported cycle |
| Subgraphs.Renumbering | community_homology_engine.hpp:596-603 | the id map sends the k-th kept id to k and has no other keys |
| Subgraphs.InducedEdgesNumbered | community_homology_engine.hpp:606-615 | copied edges are renumbered 0,1,2,... with renumbered endpoints |
| Subgraphs.InducedEdgesSound | community_homology_engine.hpp:607-614 | every copied edge comes from an original edge with both ends kept |
| Subgraphs.InducedEdgesComplete | community_homology_engine.hpp:607-614 | every original edge with both ends kept is copied |
| Subgraphs.NothingKept | community_homology_engine.hpp:607-614 | keeping nobody copies no edge |
| Subgraphs.InducedShape | community_homology_engine.hpp:569-618 | the induced graph's residents are the kept ones renumbered in order, and its edges are exactly the kept edges renumbered |
| Subgraphs.RenumberingUnique | community_homology_engine.hpp:596-603 | any map with those properties is the id map |
| Subgraphs.Induce | community_homology_engine.hpp:595-615 | the copy loops build the induced graph |
| Subgraphs.CopyKeptEdges | community_homology_engine.hpp:810-819 | the edge loop copies exactly the induced edges |
| Subgraphs.Ascending | community_homology_engine.hpp:589-598 | iterating a std::set visits its elements once each in increasing order |
| Subgraphs.IncreasingUnique | community_homology_engine.hpp:589-598 | two increasing lists with the same elements are equal |
| Subgraphs.MemberSet | community_homology_engine.hpp:577-587 | a missing label gives the empty set; otherwise the set of its members |
| Subgraphs.MemberIds | community_homology_engine.hpp:245-251 | under the invariant, an id is filed under a label exactly when that resident carries it |
| Subgraphs.InBothFacts | community_homology_engine.hpp:589-593 | the intersection lists exactly the residents in both subcommunities, increasing |
| Subgraphs.Intersection | community_homology_engine.hpp:569-618 | IntersectionGraph::compute is the subgraph induced by the residents in both subcommunities |
| Subgraphs.MissingLabelEmpty | community_homology_engine.hpp:578-587 | if either label is unknown, the intersection is empty and has 0 components |
| Subgraphs.NoneKept | community_homology_engine.hpp:450-458 | a filter nobody passes yields no ids |
| Subgraphs.Extract | community_homology_engine.hpp:792-822 | extract_subcommunity is the subgraph induced by the label's members |
| Subgraphs.MembersFacts | community_homology_engine.hpp:802-808 | the member list is increasing, duplicate-free and names residents |
| Subgraphs.H0 | community_homology_engine.hpp:620-643 | the intersection's h0 counts its components: 0 when empty, else between 1 and its size |
| Subgraphs.H1 | community_homology_engine.hpp:645-650 | the intersection's h1 is \|E\| - \|V\| + beta_0, never negative |
| Introductions.FirstPartner | community_homology_engine.hpp:875-899 | the first resident from j on who is not the isolated one, has boundary at most 0.5 and shares a class or interest; nobody earlier qualifies |
| Introductions.FirstFiller | community_homology_engine.hpp:908-930 | the first resident from j on, outside the hole, sharing a class with 2+ hole members; nobody earlier qualifies |
| Introductions.LinksSound | community_homology_engine.hpp:914-925 | every counted link is a hole member sharing a class with the candidate |
| Introductions.IntroductionsBound | community_homology_engine.hpp:863-935 | at most one introduction per isolated resident plus one per hole |
| Introductions.IsolationIntrosBound | community_homology_engine.hpp:871-901 | at most one introduction per isolated resident |
| Introductions.HoleIntrosBound | community_homology_engine.hpp:904-932 | at most one introduction per hole |
| Introductions.IsolationIntrosSound | community_homology_engine.hpp:871-901 | each isolation introduction pairs an isolated resident with a distinct, better-connected resident sharing context |
| Introductions.HoleIntrosSound | community_homology_engine.hpp:904-932 | each hole introduction pairs an outsider with a member of a hole of 3+ with whom it shares a class |
| Introductions.ShareClass | community_homology_engine.hpp:880-886 | the search loop finds whether the class lists share a course |
| Introductions.FindPartner | community_homology_engine.hpp:871-900 | the inner search yields the first partner found, or nothing |
| Introductions.CountLinks | community_homology_engine.hpp:911-925 | counts the linked hole members and remembers the last, or the sentinel |
| Introductions.FindFiller | community_homology_engine.hpp:905-931 | the inner search yields the first filler found, or nothing |
| Introductions.ComputeIntroductions | community_homology_engine.hpp:863-935 | the isolation introductions first, then the hole introductions |
| MayerVietoris.KernelI0 | community_homology_engine.hpp:824-844 | never negative; positive exactly when the intersection has 2+ components and more than A and B; 0 when it has at most one |
| MayerVietoris.Cokernel | community_homology_engine.hpp:710 | never negative; h1_A + h1_B - h1_I when h1_I is smaller, else 0 |
| MayerVietoris.HealthScore | community_homology_engine.hpp:846-861 | the health score is clamped to [0, 100] |
| MayerVietoris.HealthAntitoneInIsolation | community_homology_engine.hpp:854 | more isolated residents never raise the score |
| MayerVietoris.HealthMonotoneInBridges | community_homology_engine.hpp:857 | more bridges never lower the score |
| MayerVietoris.HealthAntitoneInBetti | community_homology_engine.hpp:848-851 | more components or more holes never raise the score |
| MayerVietoris.HealthPerfect | community_homology_engine.hpp:846-861 | one component, at most two holes and no isolation scores 100 |
| MayerVietoris.FullHealth | community_homology_engine.hpp:746-756 | compute_full's weighted score is never negative, and at most 100 for a non-empty graph or the empty one |
| MayerVietoris.IsolationScore | community_homology_engine.hpp:750-752 | the isolation term lies in [0, 100]: 100 with nobody isolated, 0 with everybody isolated |
| MayerVietoris.EmptyCommunityHealth | community_homology_engine.hpp:746-756 | the empty community scores 66 |
| MayerVietoris.FullHealthPerfect | community_homology_engine.hpp:746-756 | a connected forest with nobody isolated scores 100 |
| MayerVietoris.HealthAsRecorded | community_homology_engine.hpp:718-719 | the health compute records, taken before the lists are filled, lies in [0, 100] |
| MayerVietoris.IsolationIgnoredByRecordedHealth | community_homology_engine.hpp:718-723 | one isolated resident: the recorded health is 100, the intended one 97 |
| MayerVietoris.RecordedHealthBlindToRisk | community_homology_engine.hpp:718-723 | whenever someone is at risk in a connected graph with at most two holes, the recorded health is 100 but the intended is below 100 |
| MayerVietoris.Betti | community_homology_engine.hpp:698-703 | a subgraph's h0 and h1 are its component count and cycle rank, both non-negative |
| MayerVietoris.Actionables | community_homology_engine.hpp:721-725 | the isolation list, bridge list, true cycles and the introductions derived from them |
| MayerVietoris.Compute | community_homology_engine.hpp:685-731 | Betti numbers of A, B and A∩B; kernel, cokernel, h1 of the union, cohesion iff h1 ≤ 1; health from the real list sizes; lists and introductions as specified |
| MayerVietoris.ComputeFull | community_homology_engine.hpp:734-774 | recomputes connections, scores and bridges; h0, h1 and cohesion iff h1 ≤ n/10; health is the weighted score in [0, 100]; lists and introductions as specified |
| Persistence.TreeMembers | community_homology_engine.hpp:1036-1040 | the collected residents are exactly those connected to the target |
| Persistence.BarcodesShape | community_homology_engine.hpp:1030-1044 | every barcode has dimension 0, birth 0 and more than one resident, all of them residents |
| Persistence.DeathsBounded | community_homology_engine.hpp:1020-1028 | deaths lie between 0 and top strength minus the current strength |
| Persistence.EmittedDeath | community_homology_engine.hpp:1028-1033 | one edge emits at most one barcode, dying at top minus its strength |
| Persistence.DeathsNonDecreasing | community_homology_engine.hpp:1022-1048 | with edges strongest first, barcode deaths never decrease |
| Persistence.GroupsDisjoint | community_homology_engine.hpp:1053-1059 | no barcode is both stable and fragile, and the two lists hold at most one group per barcode |
| Persistence.CollectTree | community_homology_engine.hpp:1036-1040 | the scan collects exactly the target's component, in increasing order |
| Persistence.EmittedApart | community_homology_engine.hpp:1026-1044 | joining two trees emits the target's tree when it has several residents |
| Persistence.LinkReversed | community_homology_engine.hpp:1046 | parent[root_t] = root_s represents the longer list and removes one root |
| Persistence.Absorb | community_homology_engine.hpp:1023-1047 | one filtration step keeps the forest faithful to the connections seen so far and emits exactly the barcode `Emitted` names, shrinking the root count by what it emits |
| Persistence.Merge | community_homology_engine.hpp:1026-1047 | joining two trees emits the target tree's barcode and links the roots |
| Persistence.TreeBarcode | community_homology_engine.hpp:1030-1044 | the barcode built for the dying tree |
| Persistence.Classify | community_homology_engine.hpp:1053-1059 | stable groups exceed twice the threshold; fragile groups are the rest below half of it |
| Persistence.Filter | community_homology_engine.hpp:1011-1048 | the union-find loop yields the filtration's barcodes, fewer than the residents |
| Persistence.FilterStep | community_homology_engine.hpp:1022-1047 | one edge of the loop extends the barcodes and keeps the forest faithful |
| Persistence.SortedInRange | community_homology_engine.hpp:1004-1008 | sorting keeps every endpoint a resident |
| Persistence.TopIsMaximum | community_homology_engine.hpp:1020 | after the descending sort the first strength is the maximum |
| Persistence.ComputeOver | community_homology_engine.hpp:995-1062 | the sorted copy is a descending permutation; barcodes, stable and fragile groups as specified; no emerging groups |
| Persistence.Compute | community_homology_engine.hpp:995-1062 | the barcodes are the filtration of the graph's connections in descending strength order, fewer than the residents; stable and fragile groups split at a share of the top strength; no emerging groups |
| Sorting.SortDescending | community_homology_engine.hpp:1005-1008 | the array ends up descending by key and is a permutation of its old contents |
| Sorting.Sink | community_homology_engine.hpp:1005-1008 | one insertion step extends the sorted prefix and permutes the array |
| Sorting.SortedCopy | community_homology_engine.hpp:1253-1254 | a descending permutation of the input |
| Scheduling.FreeIdsMembers | community_homology_engine.hpp:1098-1106 | the free list names exactly the free residents, in increasing order |
| Scheduling.TopologyScore | community_homology_engine.hpp:1113-1119 | the bonus is between 0 and 3.5 per free resident |
| Scheduling.Candidate | community_homology_engine.hpp:1088-1121 | a slot contributes at most one score |
| Scheduling.CandidateWellFormed | community_homology_engine.hpp:1088-1121 | a kept slot is an hour between 8:00 and 22:00 with 5+ free residents, exact coverage and a bounded bonus |
| Scheduling.DayCandidatesCount | community_homology_engine.hpp:1087-1122 | a day yields at most one score per hour |
| Scheduling.DayCandidatesWellFormed | community_homology_engine.hpp:1087-1122 | every score of a day is well formed |
| Scheduling.WeekCandidatesCount | community_homology_engine.hpp:1086-1123 | the week yields at most 14 scores per day |
| Scheduling.WeekCandidatesWellFormed | community_homology_engine.hpp:1086-1123 | every score of the week is well formed |
| Scheduling.IsFree | community_homology_engine.hpp:1099-1105 | the search over free blocks decides whether the resident is free in the slot |
| Scheduling.FreeResidents | community_homology_engine.hpp:1098-1106 | the loop lists the free residents' ids |
| Scheduling.Topology | community_homology_engine.hpp:1113-1119 | the loop adds the bonus of each free resident |
| Scheduling.ScoreSlot | community_homology_engine.hpp:1088-1121 | one slot is scored, or skipped below five free residents |
| Scheduling.ScoreDay | community_homology_engine.hpp:1087-1122 | the hour loop of one day |
| Scheduling.ScoreWeek | community_homology_engine.hpp:1086-1123 | the day loop over the week |
| Scheduling.RankSlots | community_homology_engine.hpp:1125-1136 | ranked is a descending permutation of all candidates; the result is its first topN, at most 98, all well formed |
| Scheduling.FindOptimalEventTimes | community_homology_engine.hpp:1079-1137 | the result is the first topN of a descending ranking (by coverage × 100 + bonus) of exactly the week's candidate slots, each well formed |
| Analyzer.Priority | community_homology_engine.hpp:1209-1249 | a resident's priority lies between 40 and 145 |
| Analyzer.IsolatedOutranksUnflagged | community_homology_engine.hpp:1213-1247 | an isolated resident always outranks one with no risk flag |
| Analyzer.IdsOfPermutation | community_homology_engine.hpp:1253-1254 | permuting the pairs permutes their ids |
| Analyzer.PrioritiesNameEveryone | community_homology_engine.hpp:1209-1250 | the priority list names every resident once, in order |
| Analyzer.GroupMembers | community_homology_engine.hpp:1204-1207 | the fragile set holds exactly the residents of some fragile group |
| Analyzer.InAnyGroup | community_homology_engine.hpp:1238-1244 | the stable search finds whether the id is in some stable group |
| Analyzer.ScoreResident | community_homology_engine.hpp:1210-1249 | the per-resident loop body computes the priority |
| Analyzer.ComputePriorityOrder | community_homology_engine.hpp:1194-1257 | a descending permutation of every resident's priority, each in [40, 145], naming every resident once |
| Analyzer.Analyze | community_homology_engine.hpp:1161-1191 | the graph is left as one run of the three stages over the community given would leave it: the connections are the synthesis of the original residents, the residents are those residents rescored and reflagged, adj_weighted gains every strong edge twice (once per round), and the id and labels are unchanged; every field is tied to that graph: h0 is its component count, h1 = E - V + h0, the isolation and bridge lists are its, the health is the full health of those numbers and lies in [0, 100], the counts match the lists, and the holes are genuine cycles; the barcodes are the filtration of its connections sorted by descending strength, and the stable and fragile groups are split at the same threshold; the event slots are the first 5 of its week candidates ranked by descending score; the check-ins are the residents' priorities, a descending permutation naming every resident once |
| Signals.CandidateReadsProfile | community_homology_engine.hpp:260-331 | the connection offered for a pair depends only on the two residents' profiles (id, room, labels, classes, free blocks, interests), never on their scores |
| Signals.SynthesizeReadsProfiles | community_homology_engine.hpp:253-333 | residents with the same profiles get the same connection list |
| Bridges.NeighborLabelsReadsLabels | community_homology_engine.hpp:471-489 | the labels collected from the neighbours depend only on the residents' subcommunities |
| Graph.RescoredSameProfiles | community_homology_engine.hpp:424-490 | compute_boundary_scores and compute_bridges change no resident's profile |
| Graph.RescoreIgnoresScores | community_homology_engine.hpp:424-490 | scoring and flagging again over already rewritten residents gives what one run over the originals gives |

## Left out

- Floating point: strengths, scores, coverage and priorities are exact reals. Single-precision rounding is not modelled.
- Path compression in `find` is left out. It only shortens parent paths and never changes a root.
- `SparseMatrix` is left out. No operation in the core uses it.
- `SubcommunityInterface` is left out. No operation in the core uses it.
- The `print` output, `build_diagnosis` and every `ostringstream` diagnosis string are left out as text output. The diagnosis field is not part of the model's results.
- `reachability_cache` and `make_cache_key` are left out. Nothing in the core reads them.
- Contact fields, the class schedule, flagged concerns and `component_id` are left out. They are never read by a computation.
- The connection types `RA_INTRODUCED`, `CHECKIN_MENTION` and `SUBCOMMUNITY` are declared but never produced.
- The persistence parameters `min_strength`, `max_strength` and `steps` are ignored by the source, so `Persistence.Compute` takes none. Emerging groups are always empty.
- The extracted subgraph's `community_id` and its empty `adj` are left out; a `Subgraphs.Subgraph` holds only residents and connections.
- The parent sentinel `UINT32_MAX` of the DFS and the "no member" sentinel of `compute_introductions` are the constants `Cycles.NoParent` and `Introductions.NoMember`.
  - `Graph.CommunityGraph.FindCycles` requires at most `NoParent` residents so that no resident id equals the sentinel.
- Graph.CommunityGraph.FindCycles: the number of cycles found is not proved equal to h1. What is proved is that every reported cycle is genuine and that every connection is a DFS-forest edge or the back edge of a reported cycle. Equating the count with E - V + h0 would also need the forest to have exactly V - h0 edges.
- Cycles.FindCycles: the same holds. Soundness and completeness are proved, the count is not.
- Rooms.ParseRoomNumber: std::stoi also accepts leading whitespace and a sign. A room whose prefix starts that way is treated as unparsable.
- MayerVietoris.ComputeFull: the per-part Betti numbers, the kernel and the cokernel are left uninitialised by the source. They are 0 here.
- Scheduling.FindOptimalEventTimes: a negative `top_n` becomes a huge `size_t` in the source, so it cuts nothing. The model keeps every slot in that case.
- Scheduling.WeekCandidates and Scheduling.RankSlots take the last hour as a parameter; their only caller, `FindOptimalEventTimes`, passes `EndHour` (22).
- Scheduling.RankSlots: the candidates are generated day by day and hour by hour. Their chronological order before ranking is not stated.
- Sorting.SortDescending: std::sort is not stable. The model promises only descending keys and a permutation, never the relative order of equal keys.

## Findings

| source | as written | input that shows it | evidently intended | confidence | as-written member | corrected member |
|---|---|---|---|---|---|---|
| community_homology_engine.hpp:718-723 | `compute` calls `compute_health_score(G, r)` before it fills `r.isolation_risk` and `r.bridge_residents`, so the isolation penalty and the bridge bonus are always 0 | a connected graph of one resident scoring boundary 1.0 (h0 = 1, h1 = 0, one resident at risk): recorded health 100 | the health counts the isolation and bridge lists, as the comments of `compute_health_score` say (community_homology_engine.hpp:853-857: isolation is penalised by 3 per resident, bridges earn 2 each): 97 for that input | not executed | MayerVietoris.HealthAsRecorded | MayerVietoris.Compute |
