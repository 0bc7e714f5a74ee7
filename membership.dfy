/**
 * Which residents belong to which subcommunity, as add_resident records it
 * (community_homology_engine.hpp:245-251), and the id filters get_boundary_residents
 * and get_bridge_residents apply (community_homology_engine.hpp:450-458, 493-501).
 */
module Membership {
  import opened Entities

  /** Every subcommunity label carried by some resident. */
  function AllLabels(rs: seq<Resident>): set<string> {
    if rs == [] then {} else AllLabels(rs[..|rs| - 1]) + rs[|rs| - 1].subcommunities
  }

  /** The ids of the residents carrying sub, in resident order. */
  function MembersOf(rs: seq<Resident>, sub: string): seq<nat> {
    if rs == [] then []
    else MembersOf(rs[..|rs| - 1], sub) + (if sub in rs[|rs| - 1].subcommunities then [rs[|rs| - 1].id] else [])
  }

  /** subcommunity_members[sub], where a missing key reads as an empty list. */
  function Lookup(m: map<string, seq<nat>>, sub: string): seq<nat> {
    if sub in m then m[sub] else []
  }

  /** The ids of the residents that keep selects, in resident order. */
  function IdsWhere(rs: seq<Resident>, keep: Resident -> bool): seq<nat> {
    if rs == [] then []
    else IdsWhere(rs[..|rs| - 1], keep) + (if keep(rs[|rs| - 1]) then [rs[|rs| - 1].id] else [])
  }

  ghost predicate StrictlyIncreasing(ids: seq<nat>) {
    forall k1, k2 | 0 <= k1 < k2 < |ids| :: ids[k1] < ids[k2]
  }

  /**
   * members is members0 with id appended under every label of done (each label
   * of done becoming a key), and nothing else changed.
   */
  ghost predicate Entered(members0: map<string, seq<nat>>, members: map<string, seq<nat>>, done: set<string>, id: nat) {
    && members.Keys == members0.Keys + done
    && forall sub :: Lookup(members, sub) == Lookup(members0, sub) + (if sub in done then [id] else [])
  }

  /** Entering id under one more label. */
  lemma EnterStep(members0: map<string, seq<nat>>, members: map<string, seq<nat>>, done: set<string>, id: nat, sub: string)
    requires Entered(members0, members, done, id) && sub !in done
    ensures Entered(members0, members[sub := Lookup(members, sub) + [id]], done + {sub}, id)
  {
    var m := members[sub := Lookup(members, sub) + [id]];
    forall x ensures Lookup(m, x) == Lookup(members0, x) + (if x in done + {sub} then [id] else []) {
      if x != sub {
        assert Lookup(m, x) == Lookup(members, x);
      }
    }
  }

  /** A label is recorded exactly when some resident carries it. */
  lemma {:induction false} AllLabelsMembership(rs: seq<Resident>, sub: string)
    ensures sub in AllLabels(rs) <==> exists i | 0 <= i < |rs| :: sub in rs[i].subcommunities
  {
    if rs != [] {
      var prefix := rs[..|rs| - 1];
      AllLabelsMembership(prefix, sub);
      if exists i | 0 <= i < |prefix| :: sub in prefix[i].subcommunities {
        var i :| 0 <= i < |prefix| && sub in prefix[i].subcommunities;
        assert sub in rs[i].subcommunities;
      }
      if exists i | 0 <= i < |rs| :: sub in rs[i].subcommunities {
        var i :| 0 <= i < |rs| && sub in rs[i].subcommunities;
        if i < |prefix| {
          assert sub in prefix[i].subcommunities;
        }
      }
    }
  }

  /** An id is kept exactly when the resident at some position carries it and is selected. */
  lemma {:induction false} IdsWhereMembership(rs: seq<Resident>, keep: Resident -> bool, x: nat)
    ensures x in IdsWhere(rs, keep) <==> exists i | 0 <= i < |rs| :: rs[i].id == x && keep(rs[i])
  {
    if rs != [] {
      var prefix := rs[..|rs| - 1];
      IdsWhereMembership(prefix, keep, x);
      if exists i | 0 <= i < |prefix| :: prefix[i].id == x && keep(prefix[i]) {
        var i :| 0 <= i < |prefix| && prefix[i].id == x && keep(prefix[i]);
        assert rs[i] == prefix[i];
      }
      if exists i | 0 <= i < |rs| :: rs[i].id == x && keep(rs[i]) {
        var i :| 0 <= i < |rs| && rs[i].id == x && keep(rs[i]);
        if i < |prefix| {
          assert prefix[i] == rs[i];
        }
      }
    }
  }

  /** With ids equal to positions, every kept id is a position and the list strictly increases. */
  lemma {:induction false} IdsWhereIncreasing(rs: seq<Resident>, keep: Resident -> bool)
    requires IdsArePositions(rs)
    ensures StrictlyIncreasing(IdsWhere(rs, keep))
    ensures forall k | 0 <= k < |IdsWhere(rs, keep)| :: IdsWhere(rs, keep)[k] < |rs|
  {
    if rs != [] {
      var prefix := rs[..|rs| - 1];
      assert IdsArePositions(prefix) by {
        forall i | 0 <= i < |prefix| ensures prefix[i].id == i {
          assert prefix[i] == rs[i];
        }
      }
      IdsWhereIncreasing(prefix, keep);
    }
  }

  /** The member list of sub is the kept-id list for "carries sub". */
  lemma {:induction false} MembersOfIsFilter(rs: seq<Resident>, sub: string)
    ensures MembersOf(rs, sub) == IdsWhere(rs, (r: Resident) => sub in r.subcommunities)
  {
    if rs != [] {
      MembersOfIsFilter(rs[..|rs| - 1], sub);
    }
  }

  /** A label nobody carries has no members. */
  lemma {:induction false} UnusedLabelHasNoMembers(rs: seq<Resident>, sub: string)
    requires sub !in AllLabels(rs)
    ensures MembersOf(rs, sub) == []
  {
    if rs != [] {
      UnusedLabelHasNoMembers(rs[..|rs| - 1], sub);
    }
  }

  /** Residents with the same ids and subcommunities have the same labels and members. */
  lemma {:induction false} SameMembership(rs1: seq<Resident>, rs2: seq<Resident>)
    requires |rs1| == |rs2|
    requires forall i | 0 <= i < |rs1| :: rs1[i].id == rs2[i].id && rs1[i].subcommunities == rs2[i].subcommunities
    ensures AllLabels(rs1) == AllLabels(rs2)
    ensures forall sub :: MembersOf(rs1, sub) == MembersOf(rs2, sub)
  {
    if rs1 != [] {
      SameMembership(rs1[..|rs1| - 1], rs2[..|rs2| - 1]);
    }
  }
}
