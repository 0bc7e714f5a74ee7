/**
 * The community graph (community_homology_engine.hpp:220-501): residents are
 * its vertices, synthesized connections its edges, and the analysis writes
 * each resident's centrality, boundary score and bridge flag in place.
 */
module Graph {
  import opened Time
  import opened Entities
  import opened Adjacency
  import opened Signals
  import opened Connectivity
  import opened UnionFind
  import opened Membership
  import opened Boundary
  import opened Bridges
  import Cycles

  /** The default minimum strength of compute_connections. */
  const DefaultMinStrength: real := 0.5

  class CommunityGraph {
    var communityId: string
    var residents: seq<Resident>
    var connections: seq<Connection>
    var adj: AdjMap
    var adjWeighted: AdjMap
    var subcommunityLabels: set<string>
    var subcommunityMembers: map<string, seq<nat>>

    /**
     * Residents are indexed by id, every connection joins two residents, adj
     * lists both directions of every connection, and the label index records
     * exactly the labels residents carry, with their members in resident order.
     */
    ghost predicate Valid()
      reads this
    {
      && IdsArePositions(residents)
      && EndpointsBelow(connections, |residents|)
      && adj == AdjacencyOf(map[], connections)
      && subcommunityLabels == AllLabels(residents)
      && subcommunityMembers.Keys == subcommunityLabels
      && (forall sub | sub in subcommunityMembers :: subcommunityMembers[sub] == MembersOf(residents, sub))
    }

    constructor(id: string)
      ensures communityId == id && residents == [] && connections == []
      ensures adj == map[] && adjWeighted == map[]
      ensures subcommunityLabels == {} && subcommunityMembers == map[]
      ensures Valid()
    {
      communityId := id;
      residents := [];
      connections := [];
      adj := map[];
      adjWeighted := map[];
      subcommunityLabels := {};
      subcommunityMembers := map[];
    }

    /** add_resident: append r and enter it under each of its subcommunities. */
    method AddResident(r: Resident)
      requires Valid() && r.id == |residents|
      modifies this
      ensures residents == old(residents) + [r]
      ensures subcommunityLabels == old(subcommunityLabels) + r.subcommunities
      ensures Entered(old(subcommunityMembers), subcommunityMembers, r.subcommunities, r.id)
      ensures communityId == old(communityId) && connections == old(connections)
      ensures adj == old(adj) && adjWeighted == old(adjWeighted)
      ensures Valid()
    {
      residents := residents + [r];
      var labels, members := IndexUnder(subcommunityLabels, subcommunityMembers, r.subcommunities, r.id);
      subcommunityLabels, subcommunityMembers := labels, members;
      AddResidentKeepsValid(old(residents), r, old(subcommunityMembers), members);
      assert EndpointsBelow(connections, |residents|);
    }

    /**
     * compute_connections: clear the edge list and adj, score every pair
     * i < j, and append the qualifying ones; strong ones are also appended to
     * adjWeighted, which is never cleared.
     */
    method ComputeConnections(minStrength: real)
      requires Valid()
      modifies this
      ensures connections == Synthesize(residents, minStrength)
      ensures adj == AdjacencyOf(map[], connections)
      ensures adjWeighted == AdjacencyOf(old(adjWeighted), Strong(connections))
      ensures residents == old(residents) && communityId == old(communityId)
      ensures subcommunityLabels == old(subcommunityLabels) && subcommunityMembers == old(subcommunityMembers)
      ensures Valid()
    {
      ghost var cand := PairCandidate(residents, minStrength);
      PairCandidateAgrees(residents, minStrength);
      var cs, a, aw := ScoreAllPairs(residents, minStrength, adjWeighted, cand);
      connections, adj, adjWeighted := cs, a, aw;
      SynthesizeShape(residents, minStrength);
    }

    /** h0: the number of connected components, by union-find. */
    method H0() returns (h: nat)
      requires Valid()
      ensures h == |Components(|residents|, connections)|
    {
      h := CountComponents(|residents|, connections);
    }

    /** h1 = E - V + h0, the number of independent cycles; never negative. */
    method H1() returns (h: int)
      requires Valid()
      ensures h == |connections| - |residents| + |Components(|residents|, connections)|
      ensures h >= 0
    {
      var components := CountComponents(|residents|, connections);
      h := |connections| - |residents| + components;
    }

    /**
     * find_cycles: a depth-first search from every unvisited resident, in
     * resident order; each back edge to a shallower vertex yields the tree
     * path up to it. Every reported list is a simple cycle of adj, and every
     * connection is accounted for: an edge of the search forest (parent,
     * depth) or the back edge of a reported cycle.
     */
    method FindCycles() returns (cycles: seq<seq<nat>>, ghost parent: map<nat, nat>, ghost depth: map<nat, nat>)
      requires Valid() && |residents| <= Cycles.NoParent
      ensures forall c | c in cycles :: Cycles.IsCycle(adj, c)
      ensures forall c, x | c in cycles && x in c :: x < |residents|
      ensures Cycles.Forest(parent, depth)
      ensures forall x, y | 0 <= x < |residents| && y in Neighbors(adj, x) && y != x :: Cycles.Covered(parent, cycles, x, y)
    {
      AdjacencySymmetric(connections);
      AdjacencyBelow(connections, |residents|);
      var rs := residents;
      var ids: seq<nat> := seq(|rs|, i requires 0 <= i < |rs| => rs[i].id);
      cycles, parent, depth := Cycles.FindCycles(adj, |residents|, ids);
      forall x, y | 0 <= x < |residents| && y in Neighbors(adj, x) && y != x
        ensures Cycles.Covered(parent, cycles, x, y)
      {
        assert ids[x] == x;
      }
      forall c, x | c in cycles && x in c ensures x < |residents| {
        Cycles.CycleVerticesBelow(adj, |residents|, c, x);
      }
    }

    /**
     * compute_boundary_scores: degree of every resident over the connections,
     * normalised by the largest degree, written into centrality and boundary
     * score. Nothing happens when there are no residents.
     */
    method ComputeBoundaryScores()
      requires Valid()
      modifies this
      ensures |residents| == |old(residents)|
      ensures forall i | 0 <= i < |residents| ::
        var d, m := Degree(connections, i), MaxDegreeBelow(connections, |residents|);
        residents[i] == old(residents[i]).(centrality := Centrality(d, m), boundaryScore := BoundaryScore(d, m))
      ensures connections == old(connections) && adj == old(adj) && adjWeighted == old(adjWeighted)
      ensures communityId == old(communityId)
      ensures subcommunityLabels == old(subcommunityLabels) && subcommunityMembers == old(subcommunityMembers)
      ensures Valid()
    {
      if |residents| == 0 {
        return;
      }
      var rs := ScoreAll(residents, connections);
      SameMembership(residents, rs);
      residents := rs;
    }

    /** get_boundary_residents: the ids whose boundary score reaches threshold, in order. */
    method GetBoundaryResidents(threshold: real) returns (ids: seq<nat>)
      ensures ids == BoundaryIds(residents, threshold)
    {
      ids := [];
      var i := 0;
      while i < |residents|
        invariant i <= |residents|
        invariant ids == BoundaryIds(residents[..i], threshold)
      {
        assert residents[..i + 1][..i] == residents[..i];
        if residents[i].boundaryScore >= threshold {
          ids := ids + [residents[i].id];
        }
        i := i + 1;
      }
      assert residents[..i] == residents;
    }

    /**
     * compute_bridges: a resident is a bridge when it has two or more
     * subcommunities and its neighbours together carry two or more labels.
     */
    method ComputeBridges()
      requires Valid()
      modifies this
      ensures |residents| == |old(residents)|
      ensures forall i | 0 <= i < |residents| ::
        residents[i] == old(residents[i]).(isBridge := IsBridge(old(residents), adj, i))
      ensures connections == old(connections) && adj == old(adj) && adjWeighted == old(adjWeighted)
      ensures communityId == old(communityId)
      ensures subcommunityLabels == old(subcommunityLabels) && subcommunityMembers == old(subcommunityMembers)
      ensures Valid()
    {
      AdjacencyBelow(connections, |residents|);
      var rs := MarkBridges(residents, adj);
      SameMembership(residents, rs);
      residents := rs;
    }

    /** get_bridge_residents: the ids of the bridges, in order. */
    method GetBridgeResidents() returns (ids: seq<nat>)
      ensures ids == BridgeIds(residents)
    {
      ids := [];
      var i := 0;
      while i < |residents|
        invariant i <= |residents|
        invariant ids == BridgeIds(residents[..i])
      {
        assert residents[..i + 1][..i] == residents[..i];
        if residents[i].isBridge {
          ids := ids + [residents[i].id];
        }
        i := i + 1;
      }
      assert residents[..i] == residents;
    }
  }

  /** The ids get_boundary_residents selects: boundary score at least threshold. */
  function BoundaryIds(rs: seq<Resident>, threshold: real): seq<nat> {
    IdsWhere(rs, (r: Resident) => r.boundaryScore >= threshold)
  }

  /** The ids get_bridge_residents selects. */
  function BridgeIds(rs: seq<Resident>): seq<nat> {
    IdsWhere(rs, (r: Resident) => r.isBridge)
  }

  /** The residents as compute_boundary_scores leaves them. */
  ghost function Scored(rs: seq<Resident>, cs: seq<Connection>): seq<Resident> {
    seq(|rs|, i requires 0 <= i < |rs| =>
      rs[i].(centrality := Centrality(Degree(cs, i), MaxDegreeBelow(cs, |rs|)),
             boundaryScore := BoundaryScore(Degree(cs, i), MaxDegreeBelow(cs, |rs|))))
  }

  /** The residents as compute_bridges leaves them. */
  ghost function Bridged(rs: seq<Resident>, adj: AdjMap): seq<Resident> {
    seq(|rs|, i requires 0 <= i < |rs| => rs[i].(isBridge := IsBridge(rs, adj, i)))
  }

  /**
   * The double loop of compute_connections over the pairs i < j: the edge
   * list and adj rebuilt from scratch, and the strong edges appended to the
   * weighted index it starts from.
   */
  method ScoreAllPairs(rs: seq<Resident>, minStrength: real, weighted: AdjMap, ghost cand: CandidateFn)
    returns (cs: seq<Connection>, a: AdjMap, aw: AdjMap)
    requires AgreesWith(cand, rs, minStrength)
    requires forall a, b, id :: |cand(a, b, id)| <= 1
    ensures cs == EdgesBefore(cand, |rs|, |rs|)
    ensures a == AdjacencyOf(map[], cs)
    ensures aw == AdjacencyOf(weighted, Strong(cs))
  {
    cs, a, aw := [], map[], weighted;
    var i := 0;
    while i < |rs|
      invariant i <= |rs|
      invariant cs == EdgesBefore(cand, |rs|, i)
      invariant a == AdjacencyOf(map[], cs)
      invariant aw == AdjacencyOf(weighted, Strong(cs))
    {
      var cs', a', aw' := ScoreRow(rs, minStrength, weighted, cand, i, cs, a, aw);
      RowsGrow(cand, |rs|, i, cs, cs');
      cs, a, aw := cs', a', aw';
      i := i + 1;
    }
    assert i == |rs|;
  }

  /**
   * The inner loop of compute_connections: the pairs (i, j) for j > i. The
   * source numbers edges with a counter that goes up by one per appended
   * connection, so it always equals the length of the list; |cs| stands for it.
   */
  method ScoreRow(rs: seq<Resident>, minStrength: real, weighted: AdjMap, ghost cand: CandidateFn, i: nat,
                  cs0: seq<Connection>, a0: AdjMap, aw0: AdjMap)
    returns (cs: seq<Connection>, a: AdjMap, aw: AdjMap)
    requires i < |rs| && AgreesWith(cand, rs, minStrength)
    requires forall a, b, id :: |cand(a, b, id)| <= 1
    requires a0 == AdjacencyOf(map[], cs0) && aw0 == AdjacencyOf(weighted, Strong(cs0))
    ensures cs == cs0 + RowEdges(cand, i, |rs|, |cs0|)
    ensures a == AdjacencyOf(map[], cs)
    ensures aw == AdjacencyOf(weighted, Strong(cs))
  {
    cs, a, aw := cs0, a0, aw0;
    var j := i + 1;
    while j < |rs|
      invariant i + 1 <= j <= |rs|
      invariant cs == cs0 + RowEdges(cand, i, j, |cs0|)
      invariant a == AdjacencyOf(map[], cs)
      invariant aw == AdjacencyOf(weighted, Strong(cs))
    {
      var emitted := EvaluatePair(rs[i], rs[j], minStrength, |cs|);
      IndicesAppend(weighted, cs, emitted);
      if emitted != [] {
        var c := emitted[0];
        a := AddArc(AddArc(a, c.source, c.target), c.target, c.source);
        if c.strength >= 2.0 {
          aw := AddArc(AddArc(aw, c.source, c.target), c.target, c.source);
        }
      }
      var next := j + 1;
      RowGrows(cand, i, j, next, cs0, cs, emitted);
      cs := cs + emitted;
      j := next;
    }
    assert j == |rs|;
  }

  /** The body of compute_boundary_scores over a non-empty resident list. */
  method ScoreAll(rs0: seq<Resident>, cs: seq<Connection>) returns (rs: seq<Resident>)
    requires IdsArePositions(rs0) && EndpointsBelow(cs, |rs0|) && |rs0| > 0
    ensures rs == Scored(rs0, cs)
  {
    var degree := CountDegrees(cs);
    var maxDegree := MaxDegree(degree);
    MaxOfMapIsMaxBelow(cs, |rs0|, degree, maxDegree);
    rs := ScoreResidents(rs0, degree, maxDegree);
    forall k | 0 <= k < |rs| ensures rs[k] == Scored(rs0, cs)[k] {
      assert rs0[k].id == k;
    }
  }

  /** The last loop of compute_boundary_scores: write centrality and boundary score into every resident. */
  method ScoreResidents(rs0: seq<Resident>, degree: map<nat, nat>, maxDegree: nat) returns (rs: seq<Resident>)
    ensures |rs| == |rs0|
    ensures forall k | 0 <= k < |rs| ::
      var d := DegreeAt(degree, rs0[k].id);
      rs[k] == rs0[k].(centrality := Centrality(d, maxDegree), boundaryScore := BoundaryScore(d, maxDegree))
  {
    rs := rs0;
    var i := 0;
    while i < |rs|
      invariant i <= |rs| == |rs0|
      invariant forall k | 0 <= k < i ::
        var d := DegreeAt(degree, rs0[k].id);
        rs[k] == rs0[k].(centrality := Centrality(d, maxDegree), boundaryScore := BoundaryScore(d, maxDegree))
      invariant forall k | i <= k < |rs| :: rs[k] == rs0[k]
    {
      var d := DegreeAt(degree, rs[i].id);
      var centrality := if maxDegree > 0 then d as real / maxDegree as real else 0.0;
      rs := rs[i := rs[i].(centrality := centrality, boundaryScore := 1.0 - centrality)];
      i := i + 1;
    }
  }

  /** The loop of compute_bridges: set every resident's bridge flag. */
  method MarkBridges(rs0: seq<Resident>, adj: AdjMap) returns (rs: seq<Resident>)
    requires forall k, v | 0 <= k < |rs0| && v in Neighbors(adj, rs0[k].id) :: v < |rs0|
    ensures |rs| == |rs0|
    ensures forall k | 0 <= k < |rs| ::
      rs[k] == rs0[k].(isBridge := |rs0[k].subcommunities| >= 2
                                   && |NeighborLabels(rs0, Neighbors(adj, rs0[k].id))| >= 2)
  {
    rs := rs0;
    var i := 0;
    while i < |rs|
      invariant i <= |rs| == |rs0|
      invariant forall k | 0 <= k < i ::
        rs[k] == rs0[k].(isBridge := |rs0[k].subcommunities| >= 2
                                     && |NeighborLabels(rs0, Neighbors(adj, rs0[k].id))| >= 2)
      invariant forall k | i <= k < |rs| :: rs[k] == rs0[k]
    {
      if |rs[i].subcommunities| < 2 {
        rs := rs[i := rs[i].(isBridge := false)];
      } else {
        var nbs := Neighbors(adj, rs0[i].id);
        assert forall k | 0 <= k < |nbs| :: nbs[k] in Neighbors(adj, rs0[i].id);
        var connectedSubs := CollectNeighborLabels(rs0, nbs);
        rs := rs[i := rs[i].(isBridge := |connectedSubs| >= 2)];
      }
      i := i + 1;
    }
  }

  /** The labels carried by the listed neighbours, collected one neighbour at a time. */
  method CollectNeighborLabels(rs: seq<Resident>, nbs: seq<nat>) returns (labels: set<string>)
    requires forall k | 0 <= k < |nbs| :: nbs[k] < |rs|
    ensures labels == NeighborLabels(rs, nbs)
  {
    labels := {};
    var k := 0;
    while k < |nbs|
      invariant k <= |nbs|
      invariant labels == NeighborLabels(rs, nbs[..k])
    {
      assert nbs[..k + 1][..k] == nbs[..k];
      labels := labels + rs[nbs[k]].subcommunities;
      k := k + 1;
    }
    assert nbs[..k] == nbs;
  }

  /** Enter id under each label of subs, creating the labels that are new. */
  method IndexUnder(labels0: set<string>, members0: map<string, seq<nat>>, subs: set<string>, id: nat)
    returns (labels: set<string>, members: map<string, seq<nat>>)
    ensures labels == labels0 + subs
    ensures Entered(members0, members, subs, id)
  {
    labels, members := labels0, members0;
    var todo := subs;
    ghost var done: set<string> := {};
    while todo != {}
      invariant todo <= subs && done <= subs && todo !! done
      invariant forall sub | sub in subs :: sub in todo || sub in done
      invariant labels == labels0 + done
      invariant Entered(members0, members, done, id)
      decreases todo
    {
      var sub :| sub in todo;
      EnterStep(members0, members, done, id, sub);
      labels, members := labels + {sub}, members[sub := Lookup(members, sub) + [id]];
      todo, done := todo - {sub}, done + {sub};
    }
    assert done == subs;
  }

  /** The label index after add_resident is the index of the grown resident list. */
  lemma AddResidentKeepsValid(rs: seq<Resident>, r: Resident, before: map<string, seq<nat>>, after: map<string, seq<nat>>)
    requires before.Keys == AllLabels(rs)
    requires forall sub | sub in before :: before[sub] == MembersOf(rs, sub)
    requires Entered(before, after, r.subcommunities, r.id)
    ensures AllLabels(rs + [r]) == AllLabels(rs) + r.subcommunities
    ensures forall sub | sub in after :: after[sub] == MembersOf(rs + [r], sub)
  {
    assert (rs + [r])[..|rs|] == rs;
    forall sub | sub in after ensures after[sub] == MembersOf(rs + [r], sub) {
      assert Lookup(after, sub) == after[sub];
      if sub !in before {
        UnusedLabelHasNoMembers(rs, sub);
      }
    }
  }

  /** Rescoring and reflagging keep every resident's profile. */
  lemma RescoredSameProfiles(rs: seq<Resident>, cs: seq<Connection>, adj: AdjMap)
    ensures SameProfiles(Bridged(Scored(rs, cs), adj), rs)
  {
  }

  /**
   * Running the scoring stages again over the residents they already
   * rewrote gives what one run over the original residents gives: the old
   * scores and flags are overwritten, and the bridge rule reads only labels.
   */
  lemma RescoreIgnoresScores(rs: seq<Resident>, cs: seq<Connection>, adj: AdjMap, cs2: seq<Connection>, adj2: AdjMap)
    ensures Bridged(Scored(Bridged(Scored(rs, cs), adj), cs2), adj2) == Bridged(Scored(rs, cs2), adj2)
  {
    var first := Bridged(Scored(rs, cs), adj);
    var a, b := Scored(first, cs2), Scored(rs, cs2);
    forall i | 0 <= i < |rs| ensures Bridged(a, adj2)[i] == Bridged(b, adj2)[i] {
      NeighborLabelsReadsLabels(a, b, Neighbors(adj2, i));
    }
  }
}
