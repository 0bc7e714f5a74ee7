/**
 * Degree centrality and boundary scores (community_homology_engine.hpp:424-447):
 * every connection adds one to the degree of each endpoint, the degrees are
 * normalised by the largest one, and the boundary score is one minus that.
 */
module Boundary {
  import opened Entities

  /** The number of connection ends at v. */
  function Degree(cs: seq<Connection>, v: nat): nat {
    if cs == [] then 0
    else
      Degree(cs[..|cs| - 1], v)
      + (if cs[|cs| - 1].source == v then 1 else 0)
      + (if cs[|cs| - 1].target == v then 1 else 0)
  }

  /** degree[v], where a missing key reads as 0. */
  function DegreeAt(degree: map<nat, nat>, v: nat): nat {
    if v in degree then degree[v] else 0
  }

  /** The largest degree among the vertices below n, 0 when there are none. */
  function MaxDegreeBelow(cs: seq<Connection>, n: nat): nat {
    if n == 0 then 0
    else if Degree(cs, n - 1) > MaxDegreeBelow(cs, n - 1) then Degree(cs, n - 1)
    else MaxDegreeBelow(cs, n - 1)
  }

  function Centrality(d: nat, maxDegree: nat): real {
    if maxDegree > 0 then d as real / maxDegree as real else 0.0
  }

  function BoundaryScore(d: nat, maxDegree: nat): real {
    1.0 - Centrality(d, maxDegree)
  }

  /** The degree map of compute_boundary_scores: one loop over the connections. */
  method CountDegrees(cs: seq<Connection>) returns (degree: map<nat, nat>)
    ensures forall v: nat :: DegreeAt(degree, v) == Degree(cs, v)
    ensures forall v | v in degree :: Degree(cs, v) > 0
  {
    degree := map[];
    var k := 0;
    while k < |cs|
      invariant k <= |cs|
      invariant forall v: nat :: DegreeAt(degree, v) == Degree(cs[..k], v)
      invariant forall v | v in degree :: Degree(cs[..k], v) > 0
    {
      assert cs[..k + 1][..k] == cs[..k];
      var c := cs[k];
      degree := degree[c.source := DegreeAt(degree, c.source) + 1];
      degree := degree[c.target := DegreeAt(degree, c.target) + 1];
      k := k + 1;
    }
    assert cs[..k] == cs;
  }

  /** The largest value of the degree map, starting from 0. */
  method MaxDegree(degree: map<nat, nat>) returns (m: nat)
    ensures forall v | v in degree :: degree[v] <= m
    ensures m == 0 || exists v | v in degree :: degree[v] == m
  {
    m := 0;
    var todo := degree.Keys;
    while todo != {}
      invariant todo <= degree.Keys
      invariant forall v | v in degree && v !in todo :: degree[v] <= m
      invariant m == 0 || exists v | v in degree :: degree[v] == m
      decreases |todo|
    {
      var v :| v in todo;
      if degree[v] > m {
        m := degree[v];
      }
      todo := todo - {v};
    }
  }

  /** MaxDegreeBelow bounds every degree below n and is attained (or 0). */
  lemma {:induction false} MaxDegreeBelowIsMax(cs: seq<Connection>, n: nat)
    ensures forall v: nat | v < n :: Degree(cs, v) <= MaxDegreeBelow(cs, n)
    ensures MaxDegreeBelow(cs, n) == 0 || exists v: nat | v < n :: Degree(cs, v) == MaxDegreeBelow(cs, n)
  {
    if n > 0 {
      MaxDegreeBelowIsMax(cs, n - 1);
      var last: nat := n - 1;
      if Degree(cs, last) > MaxDegreeBelow(cs, last) {
        assert Degree(cs, last) == MaxDegreeBelow(cs, n);
      } else if MaxDegreeBelow(cs, last) > 0 {
        var w: nat :| w < last && Degree(cs, w) == MaxDegreeBelow(cs, last);
        assert w < n && Degree(cs, w) == MaxDegreeBelow(cs, n);
      }
    }
  }

  /** Only endpoints of some connection have a positive degree. */
  lemma {:induction false} PositiveDegreeIsEndpoint(cs: seq<Connection>, n: nat, v: nat)
    requires EndpointsBelow(cs, n) && Degree(cs, v) > 0
    ensures v < n
  {
    var prefix := cs[..|cs| - 1];
    assert EndpointsBelow(prefix, n) by {
      forall k | 0 <= k < |prefix| ensures prefix[k].source < n && prefix[k].target < n {
        assert prefix[k] == cs[k];
      }
    }
    if Degree(prefix, v) > 0 {
      PositiveDegreeIsEndpoint(prefix, n, v);
    }
  }

  /**
   * When every endpoint is below n, the largest value of the degree map is the
   * largest degree among the vertices below n.
   */
  lemma MaxOfMapIsMaxBelow(cs: seq<Connection>, n: nat, degree: map<nat, nat>, m: nat)
    requires EndpointsBelow(cs, n)
    requires forall v: nat :: DegreeAt(degree, v) == Degree(cs, v)
    requires forall v | v in degree :: Degree(cs, v) > 0
    requires forall v | v in degree :: degree[v] <= m
    requires m == 0 || exists v | v in degree :: degree[v] == m
    ensures m == MaxDegreeBelow(cs, n)
  {
    MaxDegreeBelowIsMax(cs, n);
    var best := MaxDegreeBelow(cs, n);
    if best > 0 {
      var v: nat :| v < n && Degree(cs, v) == best;
      assert DegreeAt(degree, v) == best;
      assert best <= m;
    }
    if m > 0 {
      var v :| v in degree && degree[v] == m;
      assert DegreeAt(degree, v) == m;
      PositiveDegreeIsEndpoint(cs, n, v);
      assert m <= best;
    }
  }

  /** Every boundary score of a vertex lies in [0, 1]. */
  lemma BoundaryScoreInUnitInterval(cs: seq<Connection>, n: nat, v: nat)
    requires v < n
    ensures 0.0 <= BoundaryScore(Degree(cs, v), MaxDegreeBelow(cs, n)) <= 1.0
  {
    MaxDegreeBelowIsMax(cs, n);
    CentralityInUnitInterval(Degree(cs, v), MaxDegreeBelow(cs, n));
  }

  lemma CentralityInUnitInterval(d: nat, m: nat)
    requires d <= m
    ensures 0.0 <= Centrality(d, m) <= 1.0
  {
    if m > 0 {
      DivisionMonotone(d as real, m as real, m as real);
      assert m as real / m as real == 1.0;
    }
  }

  /** A higher degree never gives a higher boundary score. */
  lemma BoundaryScoreAntitone(cs: seq<Connection>, n: nat, u: nat, v: nat)
    requires u < n && v < n && Degree(cs, u) <= Degree(cs, v)
    ensures BoundaryScore(Degree(cs, v), MaxDegreeBelow(cs, n)) <= BoundaryScore(Degree(cs, u), MaxDegreeBelow(cs, n))
  {
    var m := MaxDegreeBelow(cs, n);
    if m > 0 {
      DivisionMonotone(Degree(cs, u) as real, Degree(cs, v) as real, m as real);
    }
  }

  lemma DivisionMonotone(a: real, b: real, m: real)
    requires 0.0 <= a <= b && m > 0.0
    ensures a / m <= b / m
  {
    assert b / m - a / m == (b - a) / m;
  }

  /** Without connections everybody scores 1: all are on the boundary. */
  lemma {:induction false} NoConnectionsFullBoundary(n: nat, v: nat)
    ensures BoundaryScore(Degree([], v), MaxDegreeBelow([], n)) == 1.0
  {
    if n > 0 {
      NoConnectionsFullBoundary(n - 1, v);
    }
  }

  /** A vertex of largest degree, when there is a connection, scores 0. */
  lemma MostConnectedScoresZero(cs: seq<Connection>, n: nat, v: nat)
    requires v < n && Degree(cs, v) > 0
    requires forall u: nat | u < n :: Degree(cs, u) <= Degree(cs, v)
    ensures BoundaryScore(Degree(cs, v), MaxDegreeBelow(cs, n)) == 0.0
  {
    MaxDegreeBelowIsMax(cs, n);
    var m := MaxDegreeBelow(cs, n);
    var w: nat :| w < n && Degree(cs, w) == m;
    assert m == Degree(cs, v);
    TopDegreeScoresZero(m);
  }

  lemma TopDegreeScoresZero(d: nat)
    requires d > 0
    ensures BoundaryScore(d, d) == 0.0
  {
    var r := d as real;
    assert r / r == 1.0;
  }
}
