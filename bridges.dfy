/**
 * The bridge rule of compute_bridges (community_homology_engine.hpp:464-491):
 * a resident in two or more subcommunities is a bridge when its neighbours,
 * taken together, carry at least two different subcommunity labels. This is a
 * rule over labels, not a test of whether removing the resident disconnects
 * the graph.
 */
module Bridges {
  import opened Entities
  import opened Adjacency

  /** The union of the subcommunities of the listed neighbours (ids outside rs add nothing). */
  function NeighborLabels(rs: seq<Resident>, nbs: seq<nat>): set<string> {
    if nbs == [] then {}
    else
      NeighborLabels(rs, nbs[..|nbs| - 1])
      + (if nbs[|nbs| - 1] < |rs| then rs[nbs[|nbs| - 1]].subcommunities else {})
  }

  /** Whether the resident at position i is a bridge under adjacency adj. */
  ghost predicate IsBridge(rs: seq<Resident>, adj: AdjMap, i: nat)
    requires i < |rs|
  {
    |rs[i].subcommunities| >= 2 && |NeighborLabels(rs, Neighbors(adj, i))| >= 2
  }

  /** A label is collected exactly when some listed neighbour carries it. */
  lemma {:induction false} NeighborLabelsMembership(rs: seq<Resident>, nbs: seq<nat>, l: string)
    ensures l in NeighborLabels(rs, nbs)
        <==> exists k | 0 <= k < |nbs| :: nbs[k] < |rs| && l in rs[nbs[k]].subcommunities
  {
    if nbs != [] {
      var prefix := nbs[..|nbs| - 1];
      NeighborLabelsMembership(rs, prefix, l);
      if exists k | 0 <= k < |prefix| :: prefix[k] < |rs| && l in rs[prefix[k]].subcommunities {
        var k :| 0 <= k < |prefix| && prefix[k] < |rs| && l in rs[prefix[k]].subcommunities;
        assert nbs[k] == prefix[k];
      }
      if exists k | 0 <= k < |nbs| :: nbs[k] < |rs| && l in rs[nbs[k]].subcommunities {
        var k :| 0 <= k < |nbs| && nbs[k] < |rs| && l in rs[nbs[k]].subcommunities;
        if k < |prefix| {
          assert prefix[k] == nbs[k];
        }
      }
    }
  }

  /** A set has two or more elements exactly when it holds two different ones. */
  lemma TwoElements<T>(s: set<T>)
    ensures |s| >= 2 <==> exists a, b :: a in s && b in s && a != b
  {
    if |s| >= 2 {
      var a :| a in s;
      var rest := s - {a};
      assert |rest| >= 1;
      var b :| b in rest;
      assert a in s && b in s && a != b;
    }
    if exists a, b :: a in s && b in s && a != b {
      var a, b :| a in s && b in s && a != b;
      assert {a, b} <= s;
      assert |{a, b}| == 2;
      SubsetSize({a, b}, s);
    }
  }

  lemma SubsetSize<T>(a: set<T>, b: set<T>)
    requires a <= b
    ensures |a| <= |b|
  {
    assert b == a + (b - a);
  }

  /** Neighbour k carries label l in adjacency adj. */
  ghost predicate NeighborCarries(rs: seq<Resident>, adj: AdjMap, i: nat, l: string) {
    exists k | 0 <= k < |Neighbors(adj, i)| ::
      Neighbors(adj, i)[k] < |rs| && l in rs[Neighbors(adj, i)[k]].subcommunities
  }

  /**
   * A resident is a bridge exactly when it belongs to two or more subcommunities
   * and two different labels are each carried by one of its neighbours.
   */
  lemma BridgeIffTwoNeighborLabels(rs: seq<Resident>, adj: AdjMap, i: nat)
    requires i < |rs|
    ensures IsBridge(rs, adj, i)
        <==> |rs[i].subcommunities| >= 2
             && exists l1, l2 :: l1 != l2 && NeighborCarries(rs, adj, i, l1) && NeighborCarries(rs, adj, i, l2)
  {
    var labels := NeighborLabels(rs, Neighbors(adj, i));
    TwoElements(labels);
    forall l ensures l in labels <==> NeighborCarries(rs, adj, i, l) {
      NeighborLabelsMembership(rs, Neighbors(adj, i), l);
    }
  }

  /** The labels collected from the neighbours depend only on the residents' subcommunities. */
  lemma {:induction false} NeighborLabelsReadsLabels(rs: seq<Resident>, ss: seq<Resident>, nbs: seq<nat>)
    requires |rs| == |ss| && forall i | 0 <= i < |rs| :: rs[i].subcommunities == ss[i].subcommunities
    ensures NeighborLabels(rs, nbs) == NeighborLabels(ss, nbs)
    decreases |nbs|
  {
    if nbs != [] {
      NeighborLabelsReadsLabels(rs, ss, nbs[..|nbs| - 1]);
    }
  }
}
