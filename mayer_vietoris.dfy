/**
 * MayerVietorisEngine (community_homology_engine.hpp:656-935): the Betti numbers
 * of two subcommunities, of their intersection and of the whole community,
 * the two Mayer-Vietoris correction terms, the health scores and the
 * actionable lists of compute and compute_full.
 */
module MayerVietoris {
  import opened Entities
  import opened Adjacency
  import opened Connectivity
  import opened Membership
  import opened Signals
  import opened Graph
  import opened Subgraphs
  import opened Introductions
  import Cycles

  /** The boundary score from which a resident counts as at risk of isolation. */
  const IsolationThreshold: real := 0.7

  datatype Result = Result(
    h1A: int,
    h1B: int,
    h1Intersection: int,
    h0A: int,
    h0B: int,
    h0Intersection: int,
    h1Union: int,
    kernelI0: int,
    cokernelI1: int,
    isCohesive: bool,
    health: real,
    isolationRisk: seq<nat>,
    bridgeResidents: seq<nat>,
    holes: seq<seq<nat>>,
    introductions: seq<(nat, nat)>)

  function Max(a: real, b: real): real {
    if a < b then b else a
  }

  function Min(a: real, b: real): real {
    if b < a then b else a
  }

  // ---------------------------------------------------------------------------
  // The small formulas
  // ---------------------------------------------------------------------------

  /**
   * compute_kernel_i0 on the component counts of the intersection and of the
   * two parts: positive exactly when the intersection has more than one
   * component and more than either part.
   */
  function KernelI0(hI: int, hA: int, hB: int): (k: int)
    ensures k >= 0
    ensures k > 0 <==> hI > 1 && hI > hA && hI > hB
    ensures hI <= 1 ==> k == 0
    ensures hA >= 1 || hB >= 1 ==> k == 0 || k < hI
  {
    if hI <= 1 then 0
    else if hI - (if hA < hB then hB else hA) < 0 then 0
    else hI - (if hA < hB then hB else hA)
  }

  /** The cokernel expression of compute: the cycles of the parts not matched by the intersection. */
  function Cokernel(h1A: int, h1B: int, h1I: int): (c: int)
    ensures c >= 0
    ensures h1I < h1A + h1B ==> c == h1A + h1B - h1I
    ensures h1I >= h1A + h1B ==> c == 0
  {
    h1A + h1B - (if h1A + h1B < h1I then h1A + h1B else h1I)
  }

  /**
   * compute_health_score: 100, less 15 per component beyond the first, 5 per
   * hole beyond two and 3 per isolated resident, plus 2 per bridge, clamped.
   */
  function HealthScore(h0: int, h1: int, isolated: nat, bridges: nat): (s: real)
    ensures 0.0 <= s <= 100.0
  {
    Max(0.0, Min(100.0,
      100.0 - (h0 - 1) as real * 15.0 - Max(0.0, (h1 - 2) as real * 5.0)
      - isolated as real * 3.0 + bridges as real * 2.0))
  }

  /** More isolated residents never raise the health score. */
  lemma HealthAntitoneInIsolation(h0: int, h1: int, i1: nat, i2: nat, bridges: nat)
    requires i1 <= i2
    ensures HealthScore(h0, h1, i2, bridges) <= HealthScore(h0, h1, i1, bridges)
  {
  }

  /** More bridges never lower the health score. */
  lemma HealthMonotoneInBridges(h0: int, h1: int, isolated: nat, b1: nat, b2: nat)
    requires b1 <= b2
    ensures HealthScore(h0, h1, isolated, b1) <= HealthScore(h0, h1, isolated, b2)
  {
  }

  /** More components or more holes never raise the health score. */
  lemma HealthAntitoneInBetti(h0: int, h0': int, h1: int, h1': int, isolated: nat, bridges: nat)
    requires h0 <= h0' && h1 <= h1'
    ensures HealthScore(h0', h1', isolated, bridges) <= HealthScore(h0, h1, isolated, bridges)
  {
  }

  /** A connected community with at most two holes and nobody isolated scores 100. */
  lemma HealthPerfect(h1: int, bridges: nat)
    requires h1 <= 2
    ensures HealthScore(1, h1, 0, bridges) == 100.0
  {
  }

  /**
   * compute_full's weighted score: connectivity 100 less 20 per extra
   * component, cohesion 100 less 5 per hole, isolation 100 less the
   * percentage at risk, weighted 0.3 / 0.3 / 0.4. With no residents the
   * percentage is 0 / 0, and the source's max(0, NaN) yields 0.
   */
  function FullHealth(h0: int, h1: int, isolated: nat, n: nat): (s: real)
    ensures s >= 0.0
    ensures (h0 >= 1 || (h0 == 0 && n == 0)) && h1 >= 0 ==> s <= 100.0
  {
    var connectivity := Max(0.0, 100.0 - (h0 - 1) as real * 20.0);
    var cohesion := Max(0.0, 100.0 - h1 as real * 5.0);
    connectivity * 0.3 + cohesion * 0.3 + IsolationScore(isolated, n) * 0.4
  }

  /** 100 less the percentage of residents at risk; 0 when there are no residents. */
  function IsolationScore(isolated: nat, n: nat): (s: real)
    ensures 0.0 <= s <= 100.0
    ensures n > 0 && isolated == 0 ==> s == 100.0
    ensures n > 0 && isolated >= n ==> s == 0.0
  {
    if n == 0 then 0.0
    else
      var share := isolated as real / n as real;
      assert share >= 0.0;
      assert isolated >= n ==> share >= 1.0;
      Max(0.0, 100.0 - share * 100.0)
  }

  /** An empty community scores 66: 0.3 of a connectivity of 120, 0.3 of 100, nothing for isolation. */
  lemma EmptyCommunityHealth()
    ensures FullHealth(0, 0, 0, 0) == 66.0
  {
  }

  /** A connected, hole-free community with nobody at risk scores 100. */
  lemma FullHealthPerfect(n: nat)
    requires n > 0
    ensures FullHealth(1, 0, 0, n) == 100.0
  {
  }

  // ---------------------------------------------------------------------------
  // The subgraphs compute looks at
  // ---------------------------------------------------------------------------

  ghost function Betti0(g: Subgraph): nat {
    |Components(|g.residents|, g.connections)|
  }

  ghost function Betti1(g: Subgraph): int {
    |g.connections| - |g.residents| + Betti0(g)
  }

  /** extract_subcommunity: the members of sub with the connections among them. */
  ghost function Part(rs: seq<Resident>, cs: seq<Connection>, sub: string): Subgraph
    requires IdsArePositions(rs)
  {
    MembersFacts(rs, sub);
    Induced(rs, cs, MembersOf(rs, sub))
  }

  /** IntersectionGraph::compute: the residents carrying both labels. */
  ghost function Overlap(rs: seq<Resident>, cs: seq<Connection>, subA: string, subB: string): Subgraph
    requires IdsArePositions(rs)
  {
    InBothFacts(rs, subA, subB);
    Induced(rs, cs, InBoth(rs, subA, subB))
  }

  // ---------------------------------------------------------------------------
  // The finding: compute scores health before it fills the lists
  // ---------------------------------------------------------------------------

  /**
   * The health score compute records: it calls compute_health_score while
   * isolation_risk and bridge_residents are still empty, so neither list
   * enters the score.
   */
  function HealthAsRecorded(h0: int, h1: int, isolationRisk: seq<nat>, bridges: seq<nat>): (s: real)
    ensures 0.0 <= s <= 100.0
  {
    HealthScore(h0, h1, 0, 0)
  }

  /**
   * A connected community with no holes, one resident at risk and no bridge:
   * the recorded score is 100 where the formula asks for 97.
   */
  lemma IsolationIgnoredByRecordedHealth()
    ensures HealthAsRecorded(1, 0, [0], []) == 100.0
    ensures HealthScore(1, 0, |[0]|, 0) == 97.0
  {
  }

  /** The recorded score never reacts to the risk list, whatever its length. */
  lemma {:induction false} RecordedHealthBlindToRisk(h0: int, h1: int, risk: seq<nat>, bridges: seq<nat>)
    requires h0 == 1 && h1 <= 2 && |risk| > 0 && bridges == []
    ensures HealthAsRecorded(h0, h1, risk, bridges) == 100.0
    ensures HealthScore(h0, h1, |risk|, |bridges|) < 100.0
  {
    HealthPerfect(h1, 0);
    HealthAntitoneInIsolation(h0, h1, 1, |risk|, 0);
    assert HealthScore(h0, h1, 1, 0) == 97.0;
  }

  // ---------------------------------------------------------------------------
  // compute and compute_full
  // ---------------------------------------------------------------------------

  /** h0 and h1 of an induced subgraph. */
  method Betti(g: Subgraph) returns (h0: int, h1: int)
    ensures h0 == Betti0(g) && h1 == Betti1(g)
    ensures h0 >= 0 && h1 >= 0
  {
    h1 := H1(g);
    h0 := H0(g);
  }

  /**
   * The actionable lists of compute and compute_full: the residents at risk,
   * the bridges, the holes and the introductions proposed for them.
   */
  method Actionables(G: CommunityGraph) returns (isolation: seq<nat>, bridges: seq<nat>, holes: seq<seq<nat>>, intros: seq<(nat, nat)>)
    requires G.Valid() && |G.residents| <= Cycles.NoParent
    ensures isolation == BoundaryIds(G.residents, IsolationThreshold)
    ensures bridges == BridgeIds(G.residents)
    ensures forall c | c in holes :: Cycles.IsCycle(G.adj, c)
    ensures HolesBelow(holes, |G.residents|) && IdsBelow(isolation, |G.residents|)
    ensures intros == Proposed(G.residents, holes, isolation)
  {
    isolation := G.GetBoundaryResidents(IsolationThreshold);
    bridges := G.GetBridgeResidents();
    ghost var forest, depths;
    holes, forest, depths := G.FindCycles();
    IdsWhereIncreasing(G.residents, (x: Resident) => x.boundaryScore >= IsolationThreshold);
    assert HolesBelow(holes, |G.residents|) by {
      forall h | h in holes ensures IdsBelow(h, |G.residents|) {
        forall k | 0 <= k < |h| ensures h[k] < |G.residents| {
          assert h[k] in h;
        }
      }
    }
    intros := ComputeIntroductions(G.residents, holes, isolation);
  }

  /**
   * compute(G, subA, subB) with the health score taken after the lists it
   * penalises and rewards have been filled in.
   */
  method Compute(G: CommunityGraph, subA: string, subB: string) returns (r: Result)
    requires G.Valid() && |G.residents| <= Cycles.NoParent
    ensures r.h0A == Betti0(Part(G.residents, G.connections, subA))
    ensures r.h1A == Betti1(Part(G.residents, G.connections, subA))
    ensures r.h0B == Betti0(Part(G.residents, G.connections, subB))
    ensures r.h1B == Betti1(Part(G.residents, G.connections, subB))
    ensures r.h0Intersection == Betti0(Overlap(G.residents, G.connections, subA, subB))
    ensures r.h1Intersection == Betti1(Overlap(G.residents, G.connections, subA, subB))
    ensures r.h1A >= 0 && r.h1B >= 0 && r.h1Intersection >= 0
    ensures r.kernelI0 == KernelI0(r.h0Intersection, r.h0A, r.h0B)
    ensures r.cokernelI1 == Cokernel(r.h1A, r.h1B, r.h1Intersection)
    ensures r.h1Union == |G.connections| - |G.residents| + |Components(|G.residents|, G.connections)|
    ensures r.h1Union >= 0
    ensures r.isCohesive <==> r.h1Union <= 1
    ensures r.isolationRisk == BoundaryIds(G.residents, IsolationThreshold)
    ensures r.bridgeResidents == BridgeIds(G.residents)
    ensures forall c | c in r.holes :: Cycles.IsCycle(G.adj, c)
    ensures HolesBelow(r.holes, |G.residents|) && IdsBelow(r.isolationRisk, |G.residents|)
    ensures r.introductions == Proposed(G.residents, r.holes, r.isolationRisk)
    ensures r.health == HealthScore(|Components(|G.residents|, G.connections)|, r.h1Union,
                                    |r.isolationRisk|, |r.bridgeResidents|)
  {
    var A := Extract(G, subA);
    var B := Extract(G, subB);
    var I := Intersection(G, subA, subB);
    var h0A, h1A := Betti(A);
    var h0B, h1B := Betti(B);
    var h0I, h1I := Betti(I);
    var h1Union := G.H1();
    var isolation, bridges, holes, intros := Actionables(G);
    var h0 := G.H0();
    var health := HealthScore(h0, h1Union, |isolation|, |bridges|);
    r := Result(h1A, h1B, h1I, h0A, h0B, h0I, h1Union, KernelI0(h0I, h0A, h0B), Cokernel(h1A, h1B, h1I),
                h1Union <= 1, health, isolation, bridges, holes, intros);
  }

  /**
   * compute_full(G): rebuild the connections, the boundary scores and the
   * bridge flags of G, then report the whole community's Betti numbers, the
   * weighted health score and the actionable lists. The per-part fields are
   * not computed and are left at 0.
   */
  method ComputeFull(G: CommunityGraph) returns (r: Result)
    requires G.Valid() && |G.residents| <= Cycles.NoParent
    modifies G
    ensures G.Valid()
    ensures G.connections == Synthesize(old(G.residents), DefaultMinStrength)
    ensures G.adjWeighted == AdjacencyOf(old(G.adjWeighted), Strong(G.connections))
    ensures G.residents == Bridged(Scored(old(G.residents), G.connections), G.adj)
    ensures G.communityId == old(G.communityId)
    ensures G.subcommunityLabels == old(G.subcommunityLabels)
    ensures G.subcommunityMembers == old(G.subcommunityMembers)
    ensures r.h0A == |Components(|G.residents|, G.connections)|
    ensures r.h1Union == |G.connections| - |G.residents| + r.h0A
    ensures r.h1Union >= 0
    ensures r.isCohesive <==> r.h1Union <= |G.residents| / 10
    ensures r.isolationRisk == BoundaryIds(G.residents, IsolationThreshold)
    ensures r.bridgeResidents == BridgeIds(G.residents)
    ensures forall c | c in r.holes :: Cycles.IsCycle(G.adj, c)
    ensures HolesBelow(r.holes, |G.residents|) && IdsBelow(r.isolationRisk, |G.residents|)
    ensures r.introductions == Proposed(G.residents, r.holes, r.isolationRisk)
    ensures r.health == FullHealth(r.h0A, r.h1Union, |r.isolationRisk|, |G.residents|)
    ensures 0.0 <= r.health <= 100.0
    ensures r.h1A == 0 && r.h1B == 0 && r.h1Intersection == 0 && r.h0B == 0 && r.h0Intersection == 0
    ensures r.kernelI0 == 0 && r.cokernelI1 == 0
  {
    ghost var rs0 := G.residents;
    G.ComputeConnections(DefaultMinStrength);
    G.ComputeBoundaryScores();
    ghost var rs1 := G.residents;
    G.ComputeBridges();
    assert rs1 == Scored(rs0, G.connections);
    assert G.residents == Bridged(rs1, G.adj);
    var h1 := G.H1();
    var h0 := G.H0();
    ComponentsBounds(|G.residents|, G.connections);
    var boundary, bridges, holes, intros := Actionables(G);
    var health := FullHealth(h0, h1, |boundary|, |G.residents|);
    r := Result(0, 0, 0, h0, 0, 0, h1, 0, 0, h1 <= |G.residents| / 10, health,
                boundary, bridges, holes, intros);
  }
}
