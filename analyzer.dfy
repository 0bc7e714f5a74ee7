/**
 * CommunityAnalyzer (community_homology_engine.hpp:1144-1257): the whole
 * pipeline over one community graph, and the check-in list that ranks
 * residents by how urgently a resident assistant should reach them.
 */
module Analyzer {
  import opened Entities
  import opened Connectivity
  import opened Sorting
  import opened Graph
  import MayerVietoris
  import Persistence
  import Scheduling
  import Cycles
  import Signals
  import Adjacency

  datatype Analysis = Analysis(
    homology: MayerVietoris.Result,
    persistence: Persistence.Result,
    eventTimes: seq<Scheduling.SlotScore>,
    checkins: seq<(nat, real)>,
    health: real,
    isolationCount: nat,
    bridgeCount: nat,
    holeCount: nat)

  /** The weights of compute_priority_order. */
  const BasePriority: real := 50.0
  const IsolatedWeight: real := 30.0
  const FragileWeight: real := 20.0
  const LowRatingWeight: real := 25.0
  const FollowUpWeight: real := 15.0
  const BridgeWeight: real := 5.0
  const StablePenalty: real := 10.0

  /** x belongs to one of the groups. */
  predicate InSomeGroup(x: nat, groups: seq<seq<nat>>) {
    exists k | 0 <= k < |groups| :: x in groups[k]
  }

  /** A last check-in rating of 1 or 2 (0 means no rating yet). */
  predicate LowRating(r: Resident) {
    0 < r.lastRating <= 2
  }

  /** The check-in priority of r, given the homology and persistence results. */
  function Priority(r: Resident, isolated: seq<nat>, bridges: seq<nat>,
                    fragile: seq<seq<nat>>, stable: seq<seq<nat>>): (p: real)
    ensures 40.0 <= p <= 145.0
  {
    BasePriority
    + (if r.id in isolated then IsolatedWeight else 0.0)
    + (if InSomeGroup(r.id, fragile) then FragileWeight else 0.0)
    + (if LowRating(r) then LowRatingWeight else 0.0)
    + (if r.followUpNeeded then FollowUpWeight else 0.0)
    + (if r.id in bridges then BridgeWeight else 0.0)
    - (if InSomeGroup(r.id, stable) then StablePenalty else 0.0)
  }

  function PriorityOf(e: (nat, real)): real {
    e.1
  }

  /** The resident ids of a check-in list. */
  function IdsOf(ps: seq<(nat, real)>): seq<nat> {
    seq(|ps|, k requires 0 <= k < |ps| => ps[k].0)
  }

  /** The ids 0, 1, ..., n - 1. */
  function Positions(n: nat): seq<nat> {
    seq(n, i requires 0 <= i < n => i)
  }

  /** One (id, priority) entry per resident, in resident order. */
  ghost function Priorities(rs: seq<Resident>, isolated: seq<nat>, bridges: seq<nat>,
                            fragile: seq<seq<nat>>, stable: seq<seq<nat>>): seq<(nat, real)>
  {
    seq(|rs|, i requires 0 <= i < |rs| => (rs[i].id, Priority(rs[i], isolated, bridges, fragile, stable)))
  }

  // ---------------------------------------------------------------------------
  // What the priorities promise
  // ---------------------------------------------------------------------------

  /** No risk signal at all: not isolated, in no fragile group, no low rating, no follow-up. */
  predicate Unflagged(r: Resident, isolated: seq<nat>, fragile: seq<seq<nat>>) {
    r.id !in isolated && !InSomeGroup(r.id, fragile) && !LowRating(r) && !r.followUpNeeded
  }

  /** An isolated resident always outranks a resident with no risk signal. */
  lemma IsolatedOutranksUnflagged(r: Resident, s: Resident, isolated: seq<nat>, bridges: seq<nat>,
                                  fragile: seq<seq<nat>>, stable: seq<seq<nat>>)
    requires r.id in isolated && Unflagged(s, isolated, fragile)
    ensures Priority(r, isolated, bridges, fragile, stable) > Priority(s, isolated, bridges, fragile, stable)
  {
  }

  lemma IdsOfAppend(s: seq<(nat, real)>, t: seq<(nat, real)>)
    ensures IdsOf(s + t) == IdsOf(s) + IdsOf(t)
  {
  }

  /** Two lists with the same entries carry the same ids. */
  lemma {:induction false} IdsOfPermutation(a: seq<(nat, real)>, b: seq<(nat, real)>)
    requires multiset(a) == multiset(b)
    ensures multiset(IdsOf(a)) == multiset(IdsOf(b))
    decreases |a|
  {
    if a == [] {
      assert |b| == |multiset(b)| == 0;
    } else {
      var a', x := a[..|a| - 1], a[|a| - 1];
      assert a == a' + [x];
      assert x in multiset(b);
      var k :| 0 <= k < |b| && b[k] == x;
      var b' := b[..k] + b[k + 1..];
      assert b == b[..k] + [x] + b[k + 1..];
      assert multiset(a) == multiset(a') + multiset{x};
      assert multiset(b) == multiset(b[..k]) + multiset{x} + multiset(b[k + 1..]);
      assert multiset(b') == multiset(b[..k]) + multiset(b[k + 1..]);
      assert multiset(a') == multiset(a) - multiset{x};
      assert multiset(b') == multiset(b) - multiset{x};
      IdsOfPermutation(a', b');
      IdsOfAppend(a', [x]);
      IdsOfAppend(b[..k], [x]);
      IdsOfAppend(b[..k] + [x], b[k + 1..]);
      IdsOfAppend(b[..k], b[k + 1..]);
    }
  }

  /** With ids as positions, the priority list names every resident exactly once. */
  lemma PrioritiesNameEveryone(rs: seq<Resident>, isolated: seq<nat>, bridges: seq<nat>,
                               fragile: seq<seq<nat>>, stable: seq<seq<nat>>)
    requires IdsArePositions(rs)
    ensures IdsOf(Priorities(rs, isolated, bridges, fragile, stable)) == Positions(|rs|)
  {
  }

  // ---------------------------------------------------------------------------
  // The loops of compute_priority_order
  // ---------------------------------------------------------------------------

  /** The fragile set: every id of every group. */
  method GroupMembers(groups: seq<seq<nat>>) returns (members: set<nat>)
    ensures forall x :: x in members <==> InSomeGroup(x, groups)
  {
    members := {};
    var k := 0;
    while k < |groups|
      invariant k <= |groups|
      invariant forall x :: x in members <==> InSomeGroup(x, groups[..k])
    {
      var j := 0;
      while j < |groups[k]|
        invariant j <= |groups[k]|
        invariant forall x :: x in members <==> InSomeGroup(x, groups[..k]) || x in groups[k][..j]
      {
        members := members + {groups[k][j]};
        j := j + 1;
      }
      assert groups[k][..j] == groups[k];
      assert groups[..k + 1] == groups[..k] + [groups[k]];
      forall x ensures InSomeGroup(x, groups[..k + 1]) <==> InSomeGroup(x, groups[..k]) || x in groups[k] {
        if InSomeGroup(x, groups[..k + 1]) {
          var i :| 0 <= i < k + 1 && x in groups[..k + 1][i];
          if i < k {
            assert x in groups[..k][i];
          }
        }
        if InSomeGroup(x, groups[..k]) {
          var i :| 0 <= i < k && x in groups[..k][i];
          assert x in groups[..k + 1][i];
        }
        if x in groups[k] {
          assert x in groups[..k + 1][k];
        }
      }
      k := k + 1;
    }
    assert groups[..k] == groups;
  }

  /** The stable-group scan, which stops at the first group holding x. */
  method InAnyGroup(x: nat, groups: seq<seq<nat>>) returns (found: bool)
    ensures found == InSomeGroup(x, groups)
  {
    found := false;
    var k := 0;
    while k < |groups| && !found
      invariant k <= |groups|
      invariant found <==> exists j | 0 <= j < k :: x in groups[j]
    {
      if x in groups[k] {
        found := true;
      }
      k := k + 1;
    }
  }

  /** The additive score of one resident, as the loop body computes it. */
  method ScoreResident(r: Resident, isolatedSet: set<nat>, fragileSet: set<nat>, bridgeSet: set<nat>,
                       ghost isolated: seq<nat>, ghost bridges: seq<nat>,
                       ghost fragile: seq<seq<nat>>, stable: seq<seq<nat>>)
    returns (priority: real)
    requires forall x :: x in isolatedSet <==> x in isolated
    requires forall x :: x in bridgeSet <==> x in bridges
    requires forall x :: x in fragileSet <==> InSomeGroup(x, fragile)
    ensures priority == Priority(r, isolated, bridges, fragile, stable)
  {
    priority := BasePriority;
    if r.id in isolatedSet {
      priority := priority + IsolatedWeight;
    }
    if r.id in fragileSet {
      priority := priority + FragileWeight;
    }
    if r.lastRating > 0 && r.lastRating <= 2 {
      priority := priority + LowRatingWeight;
    }
    if r.followUpNeeded {
      priority := priority + FollowUpWeight;
    }
    if r.id in bridgeSet {
      priority := priority + BridgeWeight;
    }
    var inStable := InAnyGroup(r.id, stable);
    if inStable {
      priority := priority - StablePenalty;
    }
  }

  /**
   * compute_priority_order: every resident with its priority, highest first.
   * The order among equal priorities is left open, as std::sort leaves it.
   */
  method ComputePriorityOrder(rs: seq<Resident>, homology: MayerVietoris.Result, persistence: Persistence.Result)
    returns (order: seq<(nat, real)>)
    ensures multiset(order) == multiset(Priorities(rs, homology.isolationRisk, homology.bridgeResidents,
                                                   persistence.fragileGroups, persistence.stableGroups))
    ensures Descending(order, PriorityOf)
    ensures forall k | 0 <= k < |order| :: 40.0 <= order[k].1 <= 145.0
    ensures IdsArePositions(rs) ==> multiset(IdsOf(order)) == multiset(Positions(|rs|))
  {
    ghost var isolated, bridges := homology.isolationRisk, homology.bridgeResidents;
    ghost var fragile, stable := persistence.fragileGroups, persistence.stableGroups;
    var isolatedSet := set x | x in homology.isolationRisk;
    var bridgeSet := set x | x in homology.bridgeResidents;
    var fragileSet := GroupMembers(persistence.fragileGroups);
    var priorities: seq<(nat, real)> := [];
    var i := 0;
    while i < |rs|
      invariant i <= |rs| && |priorities| == i
      invariant forall k | 0 <= k < i :: priorities[k] == (rs[k].id, Priority(rs[k], isolated, bridges, fragile, stable))
    {
      var priority := ScoreResident(rs[i], isolatedSet, fragileSet, bridgeSet, isolated, bridges, fragile,
                                    persistence.stableGroups);
      priorities := priorities + [(rs[i].id, priority)];
      i := i + 1;
    }
    assert priorities == Priorities(rs, isolated, bridges, fragile, stable);
    order := SortedCopy(priorities, PriorityOf);
    forall k | 0 <= k < |order| ensures 40.0 <= order[k].1 <= 145.0 {
      assert order[k] in multiset(priorities);
      var j :| 0 <= j < |priorities| && priorities[j] == order[k];
    }
    IdsOfPermutation(order, priorities);
    if IdsArePositions(rs) {
      PrioritiesNameEveryone(rs, isolated, bridges, fragile, stable);
    }
  }

  /**
   * analyze: build the connections, boundary scores and bridge flags, then
   * run compute_full (which rebuilds them), the persistence filtration, the
   * event scheduler with its default of five slots, and the check-in ranking,
   * and summarise.
   */
  method Analyze(G: CommunityGraph)
    returns (a: Analysis, ghost sorted: seq<Connection>, ghost ranked: seq<Scheduling.SlotScore>)
    requires G.Valid() && |G.residents| <= Cycles.NoParent
    modifies G
    ensures G.Valid()
    // analyze runs compute_connections, the scores and the bridges twice; the
    // second round rebuilds exactly what the first did from the community given.
    ensures G.connections == Signals.Synthesize(old(G.residents), DefaultMinStrength)
    ensures G.residents == Bridged(Scored(old(G.residents), G.connections), G.adj)
    ensures G.adjWeighted ==
      Adjacency.AdjacencyOf(Adjacency.AdjacencyOf(old(G.adjWeighted), Adjacency.Strong(G.connections)),
                            Adjacency.Strong(G.connections))
    ensures G.communityId == old(G.communityId)
    ensures G.subcommunityLabels == old(G.subcommunityLabels) && G.subcommunityMembers == old(G.subcommunityMembers)
    ensures a.health == a.homology.health && 0.0 <= a.health <= 100.0
    ensures a.health == MayerVietoris.FullHealth(a.homology.h0A, a.homology.h1Union,
      |a.homology.isolationRisk|, |G.residents|)
    ensures a.homology.h1Union == |G.connections| - |G.residents| + a.homology.h0A
    ensures a.isolationCount == |a.homology.isolationRisk|
    ensures a.bridgeCount == |a.homology.bridgeResidents|
    ensures a.holeCount == |a.homology.holes|
    ensures a.homology.h0A == |Components(|G.residents|, G.connections)|
    ensures a.homology.isolationRisk == BoundaryIds(G.residents, MayerVietoris.IsolationThreshold)
    ensures a.homology.bridgeResidents == BridgeIds(G.residents)
    ensures forall c | c in a.homology.holes :: Cycles.IsCycle(G.adj, c)
    ensures multiset(sorted) == multiset(G.connections) && Descending(sorted, Persistence.StrengthOf)
    ensures a.persistence.barcodes == Persistence.Filtration(|G.residents|, sorted, Persistence.Top(sorted), |sorted|)
    ensures |G.residents| > 0 ==> |a.persistence.barcodes| < |G.residents|
    ensures a.persistence.stableGroups ==
      Persistence.StableGroups(a.persistence.barcodes, Persistence.Top(sorted) * Persistence.ThresholdShare)
    ensures a.persistence.fragileGroups ==
      Persistence.FragileGroups(a.persistence.barcodes, Persistence.Top(sorted) * Persistence.ThresholdShare)
    ensures a.persistence.emergingGroups == []
    ensures multiset(ranked) == multiset(Scheduling.WeekCandidates(G.residents, Scheduling.Days, Scheduling.EndHour))
    ensures Descending(ranked, Scheduling.Combined)
    ensures a.eventTimes == if Scheduling.DefaultTopN < |ranked| then ranked[..Scheduling.DefaultTopN] else ranked
    ensures |a.eventTimes| <= Scheduling.DefaultTopN
    ensures Descending(a.eventTimes, Scheduling.Combined)
    ensures forall s | s in a.eventTimes :: Scheduling.WellFormed(G.residents, s)
    ensures multiset(a.checkins) == multiset(Priorities(G.residents, a.homology.isolationRisk,
      a.homology.bridgeResidents, a.persistence.fragileGroups, a.persistence.stableGroups))
    ensures Descending(a.checkins, PriorityOf)
    ensures multiset(IdsOf(a.checkins)) == multiset(Positions(|G.residents|))
  {
    ghost var rs0 := G.residents;
    G.ComputeConnections(DefaultMinStrength);
    ghost var cs1, adj1 := G.connections, G.adj;
    G.ComputeBoundaryScores();
    ghost var rs1 := G.residents;
    G.ComputeBridges();
    assert rs1 == Scored(rs0, cs1);
    assert G.residents == Bridged(rs1, adj1);
    Graph.RescoredSameProfiles(rs0, cs1, adj1);
    Signals.SynthesizeReadsProfiles(G.residents, rs0, DefaultMinStrength);
    var homology := MayerVietoris.ComputeFull(G);
    Graph.RescoreIgnoresScores(rs0, cs1, adj1, G.connections, G.adj);
    var persistence;
    persistence, sorted := Persistence.Compute(G);
    var eventTimes;
    eventTimes, ranked := Scheduling.FindOptimalEventTimes(G, Scheduling.DefaultTopN);
    var checkins := ComputePriorityOrder(G.residents, homology, persistence);
    a := Analysis(homology, persistence, eventTimes, checkins, homology.health,
                  |homology.isolationRisk|, |homology.bridgeResidents|, |homology.holes|);
  }
}
