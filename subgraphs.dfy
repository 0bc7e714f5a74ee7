/**
 * Induced subgraphs: IntersectionGraph::compute (community_homology_engine.hpp:569-618)
 * and MayerVietorisEngine::extract_subcommunity (community_homology_engine.hpp:792-822).
 * Both keep a list of residents, renumber them 0 .. k-1 in list order, and keep
 * the connections whose two endpoints are kept, remapped and renumbered.
 */
module Subgraphs {
  import opened Entities
  import opened Connectivity
  import opened UnionFind
  import opened Membership
  import opened Graph

  /**
   * The vertex and edge lists of an induced subgraph. The graph that
   * extract_subcommunity returns carries nothing else: its adjacency and label
   * index stay empty.
   */
  datatype Subgraph = Subgraph(residents: seq<Resident>, connections: seq<Connection>)

  ghost predicate Distinct(ids: seq<nat>) {
    forall i, j | 0 <= i < j < |ids| :: ids[i] != ids[j]
  }

  /** The id map old id -> new id: the position of the old id in the kept list. */
  function Renumbering(ids: seq<nat>): (m: map<nat, nat>)
    requires Distinct(ids)
    ensures m.Keys == set k | 0 <= k < |ids| :: ids[k]
    ensures forall k | 0 <= k < |ids| :: m[ids[k]] == k
  {
    map k | 0 <= k < |ids| :: ids[k] := k
  }

  /** The kept residents, each given its new id. */
  function Relabelled(rs: seq<Resident>, ids: seq<nat>): seq<Resident>
    requires forall k | 0 <= k < |ids| :: ids[k] < |rs|
  {
    seq(|ids|, k requires 0 <= k < |ids| => rs[ids[k]].(id := k))
  }

  /** c with both endpoints kept, renumbered as edge id and remapped; otherwise nothing. */
  function Remap(c: Connection, m: map<nat, nat>, id: nat): seq<Connection> {
    if c.source in m && c.target in m then [c.(id := id, source := m[c.source], target := m[c.target])] else []
  }

  /** The kept connections, in their original order, numbered from 0. */
  function InducedEdges(cs: seq<Connection>, m: map<nat, nat>): seq<Connection> {
    if cs == [] then []
    else InducedEdges(cs[..|cs| - 1], m) + Remap(cs[|cs| - 1], m, |InducedEdges(cs[..|cs| - 1], m)|)
  }

  /** The subgraph induced by the residents listed in ids, in that order. */
  function Induced(rs: seq<Resident>, cs: seq<Connection>, ids: seq<nat>): Subgraph
    requires Distinct(ids) && forall k | 0 <= k < |ids| :: ids[k] < |rs|
  {
    Subgraph(Relabelled(rs, ids), InducedEdges(cs, Renumbering(ids)))
  }

  /** e is c, kept: both endpoints are in m, and e carries their new numbers. */
  ghost predicate KeptAs(c: Connection, m: map<nat, nat>, e: Connection) {
    c.source in m && c.target in m && e == c.(id := e.id, source := m[c.source], target := m[c.target])
  }

  /** e is some connection of cs, kept. */
  ghost predicate KeptFrom(cs: seq<Connection>, m: map<nat, nat>, e: Connection) {
    exists j | 0 <= j < |cs| :: KeptAs(cs[j], m, e)
  }

  /** c appears in es, kept. */
  ghost predicate KeptIn(c: Connection, m: map<nat, nat>, es: seq<Connection>) {
    exists k | 0 <= k < |es| :: KeptAs(c, m, es[k])
  }

  // ---------------------------------------------------------------------------
  // What an induced subgraph holds.
  // ---------------------------------------------------------------------------

  /** Edge ids run 0, 1, 2, ... and every endpoint is a new number. */
  lemma {:induction false} InducedEdgesNumbered(cs: seq<Connection>, m: map<nat, nat>, bound: nat)
    requires forall x | x in m :: m[x] < bound
    ensures forall k | 0 <= k < |InducedEdges(cs, m)| :: InducedEdges(cs, m)[k].id == k
    ensures EndpointsBelow(InducedEdges(cs, m), bound)
  {
    if cs != [] {
      InducedEdgesNumbered(cs[..|cs| - 1], m, bound);
    }
  }

  /** Every kept edge comes from a connection with both endpoints kept. */
  lemma {:induction false} InducedEdgesSound(cs: seq<Connection>, m: map<nat, nat>)
    ensures forall k | 0 <= k < |InducedEdges(cs, m)| :: KeptFrom(cs, m, InducedEdges(cs, m)[k])
  {
    if cs != [] {
      var prefix := cs[..|cs| - 1];
      var r := InducedEdges(cs, m);
      var r0 := InducedEdges(prefix, m);
      InducedEdgesSound(prefix, m);
      forall k | 0 <= k < |r| ensures KeptFrom(cs, m, r[k]) {
        if k < |r0| {
          var j :| 0 <= j < |prefix| && KeptAs(prefix[j], m, r0[k]);
          assert cs[j] == prefix[j] && r[k] == r0[k];
        } else {
          assert KeptAs(cs[|cs| - 1], m, r[k]);
        }
      }
    }
  }

  /** Every connection with both endpoints kept appears, remapped. */
  lemma {:induction false} InducedEdgesComplete(cs: seq<Connection>, m: map<nat, nat>)
    ensures forall j | 0 <= j < |cs| && cs[j].source in m && cs[j].target in m :: KeptIn(cs[j], m, InducedEdges(cs, m))
  {
    if cs != [] {
      var prefix := cs[..|cs| - 1];
      var r := InducedEdges(cs, m);
      var r0 := InducedEdges(prefix, m);
      InducedEdgesComplete(prefix, m);
      forall j | 0 <= j < |cs| && cs[j].source in m && cs[j].target in m ensures KeptIn(cs[j], m, r) {
        if j < |prefix| {
          assert prefix[j] == cs[j];
          var k :| 0 <= k < |r0| && KeptAs(prefix[j], m, r0[k]);
          assert r[k] == r0[k];
        } else {
          assert KeptAs(cs[j], m, r[|r0|]);
        }
      }
    }
  }

  /** Nothing kept, nothing kept: an empty id map keeps no connection. */
  lemma {:induction false} NothingKept(cs: seq<Connection>)
    ensures InducedEdges(cs, map[]) == []
  {
    if cs != [] {
      NothingKept(cs[..|cs| - 1]);
    }
  }

  /**
   * The induced subgraph on a list of distinct residents: residents are indexed
   * by their new ids and are the listed ones in order; connections are numbered
   * from 0, end below the new resident count, and are exactly the connections
   * with both endpoints listed, remapped.
   */
  lemma InducedShape(rs: seq<Resident>, cs: seq<Connection>, ids: seq<nat>)
    requires Distinct(ids) && forall k | 0 <= k < |ids| :: ids[k] < |rs|
    ensures var g := Induced(rs, cs, ids);
      && |g.residents| == |ids|
      && IdsArePositions(g.residents)
      && (forall k | 0 <= k < |ids| :: g.residents[k] == rs[ids[k]].(id := k))
      && (forall k | 0 <= k < |g.connections| :: g.connections[k].id == k)
      && EndpointsBelow(g.connections, |ids|)
    ensures var m, g := Renumbering(ids), Induced(rs, cs, ids);
      && (forall k | 0 <= k < |g.connections| :: KeptFrom(cs, m, g.connections[k]))
      && (forall j | 0 <= j < |cs| && cs[j].source in m && cs[j].target in m :: KeptIn(cs[j], m, g.connections))
  {
    var m := Renumbering(ids);
    forall x | x in m ensures m[x] < |ids| {
      var k :| 0 <= k < |ids| && ids[k] == x;
    }
    InducedEdgesNumbered(cs, m, |ids|);
    InducedEdgesSound(cs, m);
    InducedEdgesComplete(cs, m);
  }

  /** The subgraph induced by no resident is empty. */
  lemma InducedByNothing(rs: seq<Resident>, cs: seq<Connection>)
    ensures Induced(rs, cs, []) == Subgraph([], [])
  {
    assert Renumbering([]) == map[];
    NothingKept(cs);
  }

  // ---------------------------------------------------------------------------
  // The two loops shared by IntersectionGraph::compute and extract_subcommunity.
  // ---------------------------------------------------------------------------

  /** The maps built in the first loop are those of Renumbering. */
  lemma RenumberingUnique(m: map<nat, nat>, ids: seq<nat>)
    requires Distinct(ids)
    requires m.Keys == set k | 0 <= k < |ids| :: ids[k]
    requires forall k | 0 <= k < |ids| :: m[ids[k]] == k
    ensures m == Renumbering(ids)
  {
    var r := Renumbering(ids);
    forall x | x in m ensures m[x] == r[x] {
      var k :| 0 <= k < |ids| && ids[k] == x;
    }
  }

  /**
   * Copy the listed residents with new ids 0, 1, ... and build the id map; then
   * copy the connections with both endpoints in the member set, with the next
   * edge id and remapped endpoints.
   */
  method Induce(rs: seq<Resident>, cs: seq<Connection>, ids: seq<nat>) returns (g: Subgraph)
    requires Distinct(ids) && forall k | 0 <= k < |ids| :: ids[k] < |rs|
    ensures g == Induced(rs, cs, ids)
  {
    var memberIds: set<nat> := {};
    var idMap: map<nat, nat> := map[];
    var kept: seq<Resident> := [];
    var i := 0;
    while i < |ids|
      invariant i <= |ids|
      invariant |kept| == i && forall k | 0 <= k < i :: kept[k] == rs[ids[k]].(id := k)
      invariant idMap.Keys == memberIds == set k | 0 <= k < i :: ids[k]
      invariant forall k | 0 <= k < i :: idMap[ids[k]] == k
    {
      memberIds := memberIds + {ids[i]};
      kept := kept + [rs[ids[i]].(id := i)];
      idMap := idMap[ids[i] := i];
      i := i + 1;
    }
    assert i == |ids|;
    RenumberingUnique(idMap, ids);
    var edges := CopyKeptEdges(cs, memberIds, idMap);
    g := Subgraph(kept, edges);
  }

  /** The second loop: the connections with both endpoints members, renumbered. */
  method CopyKeptEdges(cs: seq<Connection>, memberIds: set<nat>, idMap: map<nat, nat>) returns (edges: seq<Connection>)
    requires idMap.Keys == memberIds
    ensures edges == InducedEdges(cs, idMap)
  {
    edges := [];
    var j := 0;
    while j < |cs|
      invariant j <= |cs|
      invariant edges == InducedEdges(cs[..j], idMap)
    {
      assert cs[..j + 1][..j] == cs[..j];
      var c := cs[j];
      if c.source in memberIds && c.target in memberIds {
        edges := edges + [c.(id := |edges|, source := idMap[c.source], target := idMap[c.target])];
      }
      j := j + 1;
    }
    assert cs[..j] == cs;
  }

  // ---------------------------------------------------------------------------
  // IntersectionGraph::compute.
  // ---------------------------------------------------------------------------

  /** The residents carrying both labels, in increasing id order. */
  function InBoth(rs: seq<Resident>, subA: string, subB: string): seq<nat> {
    IdsWhere(rs, (r: Resident) => subA in r.subcommunities && subB in r.subcommunities)
  }

  /** A set of naturals holding x has a least element. */
  lemma {:induction false} LeastExists(s: set<nat>, x: nat)
    requires x in s
    ensures exists least :: least in s && forall y | y in s :: least <= y
    decreases x
  {
    if exists y :: y in s && y < x {
      var y :| y in s && y < x;
      LeastExists(s, y);
    } else {
      assert forall y | y in s :: x <= y;
    }
  }

  /** Walking a std::set in order: its elements, least first. */
  method Ascending(s: set<nat>) returns (order: seq<nat>)
    ensures StrictlyIncreasing(order)
    ensures forall x :: x in order <==> x in s
  {
    order := [];
    var todo := s;
    while todo != {}
      invariant todo <= s
      invariant StrictlyIncreasing(order)
      invariant forall x :: x in order <==> x in s && x !in todo
      invariant forall x, y | x in order && y in todo :: x < y
      decreases |todo|
    {
      var any :| any in todo;
      LeastExists(todo, any);
      var x :| x in todo && forall y | y in todo :: x <= y;
      assert forall k | 0 <= k < |order| :: order[k] < x by {
        forall k | 0 <= k < |order| ensures order[k] < x {
          assert order[k] in order;
        }
      }
      order := order + [x];
      todo := todo - {x};
    }
  }

  /** Two strictly increasing lists with the same elements are the same list. */
  lemma {:induction false} IncreasingUnique(a: seq<nat>, b: seq<nat>)
    requires StrictlyIncreasing(a) && StrictlyIncreasing(b)
    requires forall x :: x in a <==> x in b
    ensures a == b
    decreases |a|
  {
    assert a != [] ==> a[0] in b;
    assert b != [] ==> b[0] in a;
    if a != [] && b != [] {
      assert a[0] in b && b[0] in a;
      assert a[0] == b[0];
      assert StrictlyIncreasing(a[1..]) && StrictlyIncreasing(b[1..]);
      forall x ensures x in a[1..] <==> x in b[1..] {
        assert x in a[1..] <==> x in a && x != a[0];
        assert x in b[1..] <==> x in b && x != b[0];
      }
      IncreasingUnique(a[1..], b[1..]);
      assert a == [a[0]] + a[1..] && b == [b[0]] + b[1..];
    }
  }

  /** The ids listed under sub, read into a std::set. */
  method MemberSet(members: map<string, seq<nat>>, sub: string) returns (s: set<nat>)
    ensures forall x :: x in s <==> x in Lookup(members, sub)
  {
    s := {};
    if sub in members {
      var list := members[sub];
      var k := 0;
      while k < |list|
        invariant k <= |list|
        invariant forall x :: x in s <==> x in list[..k]
      {
        assert list[..k + 1] == list[..k] + [list[k]];
        s := s + {list[k]};
        k := k + 1;
      }
      assert list[..k] == list;
    }
  }

  /** The member list of a label holds exactly the residents carrying it. */
  lemma MemberIds(G: CommunityGraph, sub: string, x: nat)
    requires G.Valid()
    ensures x in Lookup(G.subcommunityMembers, sub) <==> x < |G.residents| && sub in G.residents[x].subcommunities
  {
    var rs := G.residents;
    var keep := (r: Resident) => sub in r.subcommunities;
    MembersOfIsFilter(rs, sub);
    IdsWhereMembership(rs, keep, x);
    AllLabelsMembership(rs, sub);
    if sub !in G.subcommunityMembers {
      UnusedLabelHasNoMembers(rs, sub);
    }
  }

  /** InBoth lists exactly the residents carrying both labels, in increasing order. */
  lemma InBothFacts(rs: seq<Resident>, subA: string, subB: string)
    requires IdsArePositions(rs)
    ensures StrictlyIncreasing(InBoth(rs, subA, subB)) && Distinct(InBoth(rs, subA, subB))
    ensures forall k | 0 <= k < |InBoth(rs, subA, subB)| :: InBoth(rs, subA, subB)[k] < |rs|
    ensures forall x: nat :: x in InBoth(rs, subA, subB) <==>
      x < |rs| && subA in rs[x].subcommunities && subB in rs[x].subcommunities
  {
    var keep := (r: Resident) => subA in r.subcommunities && subB in r.subcommunities;
    IdsWhereIncreasing(rs, keep);
    forall x: nat ensures x in InBoth(rs, subA, subB) <==> x < |rs| && keep(rs[x]) {
      IdsWhereMembership(rs, keep, x);
    }
  }

  /**
   * IntersectionGraph::compute: the residents in both subcommunities, renumbered
   * in increasing old id, with the connections between them.
   */
  method Intersection(G: CommunityGraph, subA: string, subB: string) returns (I: Subgraph)
    requires G.Valid()
    ensures Distinct(InBoth(G.residents, subA, subB))
    ensures forall k | 0 <= k < |InBoth(G.residents, subA, subB)| :: InBoth(G.residents, subA, subB)[k] < |G.residents|
    ensures I == Induced(G.residents, G.connections, InBoth(G.residents, subA, subB))
  {
    var inA := MemberSet(G.subcommunityMembers, subA);
    var inB := MemberSet(G.subcommunityMembers, subB);
    var inBoth := inA * inB;
    var order := Ascending(inBoth);
    ghost var both := InBoth(G.residents, subA, subB);
    InBothFacts(G.residents, subA, subB);
    forall x ensures x in order <==> x in both {
      if x in order {
        MemberIds(G, subA, x);
        MemberIds(G, subB, x);
      }
      if x in both {
        MemberIds(G, subA, x);
        MemberIds(G, subB, x);
      }
    }
    IncreasingUnique(order, both);
    I := Induce(G.residents, G.connections, order);
  }

  /** A label nobody carries leaves the intersection empty, with no component. */
  lemma MissingLabelEmpty(rs: seq<Resident>, cs: seq<Connection>, subA: string, subB: string)
    requires IdsArePositions(rs)
    requires subA !in AllLabels(rs) || subB !in AllLabels(rs)
    ensures InBoth(rs, subA, subB) == []
    ensures Induced(rs, cs, InBoth(rs, subA, subB)) == Subgraph([], [])
    ensures |Components(0, [])| == 0
  {
    InBothFacts(rs, subA, subB);
    AllLabelsMembership(rs, subA);
    AllLabelsMembership(rs, subB);
    NoneKept(rs, (r: Resident) => subA in r.subcommunities && subB in r.subcommunities);
    InducedByNothing(rs, cs);
    ComponentsBounds(0, []);
  }

  /** When no resident is selected, no id is kept. */
  lemma {:induction false} NoneKept(rs: seq<Resident>, keep: Resident -> bool)
    requires forall i | 0 <= i < |rs| :: !keep(rs[i])
    ensures IdsWhere(rs, keep) == []
  {
    if rs != [] {
      NoneKept(rs[..|rs| - 1], keep);
    }
  }

  // ---------------------------------------------------------------------------
  // MayerVietorisEngine::extract_subcommunity.
  // ---------------------------------------------------------------------------

  /**
   * extract_subcommunity: the members of sub, renumbered in member-list order
   * (which is increasing id order), with the connections between them; an
   * unknown label gives the empty graph.
   */
  method Extract(G: CommunityGraph, sub: string) returns (S: Subgraph)
    requires G.Valid()
    ensures Distinct(MembersOf(G.residents, sub))
    ensures forall k | 0 <= k < |MembersOf(G.residents, sub)| :: MembersOf(G.residents, sub)[k] < |G.residents|
    ensures S == Induced(G.residents, G.connections, MembersOf(G.residents, sub))
  {
    MembersFacts(G.residents, sub);
    if sub !in G.subcommunityMembers {
      AllLabelsMembership(G.residents, sub);
      UnusedLabelHasNoMembers(G.residents, sub);
      InducedByNothing(G.residents, G.connections);
      return Subgraph([], []);
    }
    S := Induce(G.residents, G.connections, G.subcommunityMembers[sub]);
  }

  /** A member list is increasing, distinct and below the resident count. */
  lemma MembersFacts(rs: seq<Resident>, sub: string)
    requires IdsArePositions(rs)
    ensures StrictlyIncreasing(MembersOf(rs, sub)) && Distinct(MembersOf(rs, sub))
    ensures forall k | 0 <= k < |MembersOf(rs, sub)| :: MembersOf(rs, sub)[k] < |rs|
  {
    MembersOfIsFilter(rs, sub);
    IdsWhereIncreasing(rs, (r: Resident) => sub in r.subcommunities);
  }

  // ---------------------------------------------------------------------------
  // Betti numbers of an induced subgraph.
  // ---------------------------------------------------------------------------

  /** h0 of a subgraph: union-find over the connections whose ends are in range. */
  method H0(g: Subgraph) returns (h: nat)
    ensures h == |Components(|g.residents|, g.connections)|
    ensures g.residents == [] ==> h == 0
    ensures g.residents != [] ==> 1 <= h <= |g.residents|
  {
    h := CountComponents(|g.residents|, g.connections);
    ComponentsBounds(|g.residents|, g.connections);
  }

  /** h1 = E - V + h0 of a subgraph; never negative. */
  method H1(g: Subgraph) returns (h: int)
    ensures h == |g.connections| - |g.residents| + |Components(|g.residents|, g.connections)|
    ensures h >= 0
  {
    var components := CountComponents(|g.residents|, g.connections);
    h := |g.connections| - |g.residents| + components;
  }
}
