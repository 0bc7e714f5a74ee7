/**
 * The adjacency indices of the community graph: a map from resident id to the
 * list of neighbour ids, built by appending both directions of every connection
 * (community_homology_engine.hpp:324-330).
 */
module Adjacency {
  import opened Entities

  type AdjMap = map<nat, seq<nat>>

  /** adj[v], where a missing key reads as an empty list. */
  function Neighbors(adj: AdjMap, v: nat): seq<nat> {
    if v in adj then adj[v] else []
  }

  /** adj[u].push_back(v) */
  function AddArc(adj: AdjMap, u: nat, v: nat): AdjMap {
    adj[u := Neighbors(adj, u) + [v]]
  }

  /** base with both directions of every connection of cs appended, in order. */
  function AdjacencyOf(base: AdjMap, cs: seq<Connection>): AdjMap {
    if cs == [] then base
    else
      var c := cs[|cs| - 1];
      AddArc(AddArc(AdjacencyOf(base, cs[..|cs| - 1]), c.source, c.target), c.target, c.source)
  }

  /** The connections whose strength reaches the strong-edge threshold 2.0, in order. */
  function Strong(cs: seq<Connection>): (r: seq<Connection>)
    ensures forall c :: c in r <==> c in cs && c.strength >= 2.0
  {
    if cs == [] then []
    else Strong(cs[..|cs| - 1]) + (if cs[|cs| - 1].strength >= 2.0 then [cs[|cs| - 1]] else [])
  }

  ghost predicate Symmetric(adj: AdjMap) {
    forall u: nat, v: nat :: v in Neighbors(adj, u) <==> u in Neighbors(adj, v)
  }

  ghost predicate NeighborsBelow(adj: AdjMap, n: nat) {
    forall u: nat, v: nat :: v in Neighbors(adj, u) ==> u < n && v < n
  }

  /** v is listed as a neighbour of u exactly when base lists it or a connection joins them. */
  lemma {:induction false} AdjacencyMembership(base: AdjMap, cs: seq<Connection>, u: nat, v: nat)
    ensures v in Neighbors(AdjacencyOf(base, cs), u)
        <==> v in Neighbors(base, u) || exists k | 0 <= k < |cs| :: Joins(cs[k], u, v)
  {
    if cs != [] {
      var prefix := cs[..|cs| - 1];
      var c := cs[|cs| - 1];
      var inner := AdjacencyOf(base, prefix);
      AdjacencyMembership(base, prefix, u, v);
      ArcMembership(inner, c.source, c.target, u, v);
      ArcMembership(AddArc(inner, c.source, c.target), c.target, c.source, u, v);
      JoinedLast(cs, prefix, c, u, v);
    }
  }

  /** After adj[a].push_back(b), v is a neighbour of u exactly when it was or (u, v) is (a, b). */
  lemma ArcMembership(adj: AdjMap, a: nat, b: nat, u: nat, v: nat)
    ensures v in Neighbors(AddArc(adj, a, b), u) <==> v in Neighbors(adj, u) || (u == a && v == b)
  {
  }

  /** Some connection of cs joins u and v exactly when one before the last does or the last does. */
  lemma JoinedLast(cs: seq<Connection>, prefix: seq<Connection>, c: Connection, u: nat, v: nat)
    requires cs == prefix + [c]
    ensures (exists k | 0 <= k < |cs| :: Joins(cs[k], u, v))
        <==> (exists k | 0 <= k < |prefix| :: Joins(prefix[k], u, v)) || Joins(c, u, v)
  {
    if exists k | 0 <= k < |prefix| :: Joins(prefix[k], u, v) {
      var k :| 0 <= k < |prefix| && Joins(prefix[k], u, v);
      assert cs[k] == prefix[k];
    }
    if Joins(c, u, v) {
      assert cs[|prefix|] == c;
    }
    if exists k | 0 <= k < |cs| :: Joins(cs[k], u, v) {
      var k :| 0 <= k < |cs| && Joins(cs[k], u, v);
      if k < |prefix| {
        assert cs[k] == prefix[k];
      } else {
        assert cs[k] == c;
      }
    }
  }

  /** Appending one connection appends its two arcs. */
  lemma AdjacencyAppend(base: AdjMap, cs: seq<Connection>, c: Connection)
    ensures AdjacencyOf(base, cs + [c]) == AddArc(AddArc(AdjacencyOf(base, cs), c.source, c.target), c.target, c.source)
  {
    assert (cs + [c])[..|cs|] == cs;
  }

  /**
   * Appending at most one connection to cs: both indices gain its two arcs,
   * the weighted one only when it is strong.
   */
  lemma IndicesAppend(weighted: AdjMap, cs: seq<Connection>, e: seq<Connection>)
    requires |e| <= 1
    ensures e == [] ==> AdjacencyOf(map[], cs + e) == AdjacencyOf(map[], cs)
    ensures e == [] ==> AdjacencyOf(weighted, Strong(cs + e)) == AdjacencyOf(weighted, Strong(cs))
    ensures e != [] ==>
      AdjacencyOf(map[], cs + e)
      == AddArc(AddArc(AdjacencyOf(map[], cs), e[0].source, e[0].target), e[0].target, e[0].source)
    ensures e != [] && e[0].strength >= 2.0 ==>
      AdjacencyOf(weighted, Strong(cs + e))
      == AddArc(AddArc(AdjacencyOf(weighted, Strong(cs)), e[0].source, e[0].target), e[0].target, e[0].source)
    ensures e != [] && e[0].strength < 2.0 ==> AdjacencyOf(weighted, Strong(cs + e)) == AdjacencyOf(weighted, Strong(cs))
  {
    if e == [] {
      assert cs + e == cs;
    } else {
      var c := e[0];
      assert e == [c];
      AdjacencyAppend(map[], cs, c);
      StrongAppend(cs, c);
      if c.strength >= 2.0 {
        AdjacencyAppend(weighted, Strong(cs), c);
      } else {
        assert Strong(cs + [c]) == Strong(cs);
      }
    }
  }

  /** Appending one connection appends it to the strong ones exactly when it is strong. */
  lemma StrongAppend(cs: seq<Connection>, c: Connection)
    ensures Strong(cs + [c]) == Strong(cs) + (if c.strength >= 2.0 then [c] else [])
  {
    assert (cs + [c])[..|cs|] == cs;
  }

  /** Every connection is entered in both directions, so the index built from scratch is symmetric. */
  lemma AdjacencySymmetric(cs: seq<Connection>)
    ensures Symmetric(AdjacencyOf(map[], cs))
  {
    forall u: nat, v: nat ensures v in Neighbors(AdjacencyOf(map[], cs), u) <==> u in Neighbors(AdjacencyOf(map[], cs), v) {
      AdjacencyMembership(map[], cs, u, v);
      AdjacencyMembership(map[], cs, v, u);
    }
  }

  lemma AdjacencyBelow(cs: seq<Connection>, n: nat)
    requires EndpointsBelow(cs, n)
    ensures NeighborsBelow(AdjacencyOf(map[], cs), n)
  {
    forall u: nat, v: nat | v in Neighbors(AdjacencyOf(map[], cs), u) ensures u < n && v < n {
      AdjacencyMembership(map[], cs, u, v);
    }
  }
}
