/**
 * compute_introductions (community_homology_engine.hpp:863-935): a greedy
 * first-match search that pairs every isolated resident with the first
 * well-connected resident sharing a class or an interest, and then every
 * hole of three or more residents with the first outsider who shares a class
 * with at least two of its members.
 */
module Introductions {
  import opened Wrappers
  import opened Entities

  /** The boundary score above which a candidate partner counts as isolated too. */
  const PartnerCeiling: real := 0.5

  /** The "no member" sentinel of connect_to. */
  const NoMember: nat := 0xFFFF_FFFF

  /** Some class of a also appears in b. */
  predicate SharesClass(a: seq<string>, b: seq<string>) {
    exists i | 0 <= i < |a| :: a[i] in b
  }

  /** r may be introduced to the isolated resident iso, whose id is isoId. */
  predicate Partner(isoId: nat, iso: Resident, r: Resident) {
    && r.id != isoId
    && r.boundaryScore <= PartnerCeiling
    && (SharesClass(iso.classes, r.classes) || iso.interests * r.interests != {})
  }

  /** The position of the first partner for isoId at or after position j. */
  function FirstPartner(rs: seq<Resident>, isoId: nat, j: nat): (p: Option<nat>)
    requires isoId < |rs|
    ensures p.Some? ==> j <= p.value < |rs| && Partner(isoId, rs[isoId], rs[p.value])
    ensures forall k | j <= k < |rs| && (p.None? || k < p.value) :: !Partner(isoId, rs[isoId], rs[k])
    decreases |rs| - j
  {
    if j >= |rs| then None
    else if Partner(isoId, rs[isoId], rs[j]) then Some(j)
    else FirstPartner(rs, isoId, j + 1)
  }

  /** The introduction proposed for one isolated resident, if any. */
  function IsolationIntro(rs: seq<Resident>, isoId: nat): seq<(nat, nat)>
    requires isoId < |rs|
  {
    match FirstPartner(rs, isoId, 0)
    case Some(j) => [(isoId, rs[j].id)]
    case None => []
  }

  ghost predicate IdsBelow(ids: seq<nat>, n: nat) {
    forall k | 0 <= k < |ids| :: ids[k] < n
  }

  ghost predicate HolesBelow(holes: seq<seq<nat>>, n: nat) {
    forall h | h in holes :: IdsBelow(h, n)
  }

  /** The introductions of the first loop, one per isolated resident at most. */
  function IsolationIntros(rs: seq<Resident>, isolated: seq<nat>): seq<(nat, nat)>
    requires IdsBelow(isolated, |rs|)
  {
    if isolated == [] then []
    else IsolationIntros(rs, isolated[..|isolated| - 1]) + IsolationIntro(rs, isolated[|isolated| - 1])
  }

  /** The members of hole that share a class with r, in hole order. */
  function Links(rs: seq<Resident>, hole: seq<nat>, r: Resident): seq<nat>
    requires IdsBelow(hole, |rs|)
  {
    if hole == [] then []
    else
      Links(rs, hole[..|hole| - 1], r)
      + (if SharesClass(r.classes, rs[hole[|hole| - 1]].classes) then [hole[|hole| - 1]] else [])
  }

  /** connect_to: the last linked member, or the sentinel when there is none. */
  function LastOr(s: seq<nat>, default: nat): nat {
    if s == [] then default else s[|s| - 1]
  }

  /** r lies outside hole and could link two or more of its members. */
  predicate Fills(rs: seq<Resident>, hole: seq<nat>, r: Resident)
    requires IdsBelow(hole, |rs|)
  {
    && r.id !in hole
    && |Links(rs, hole, r)| >= 2
    && LastOr(Links(rs, hole, r), NoMember) != NoMember
  }

  /** The position of the first resident at or after j that fills hole. */
  function FirstFiller(rs: seq<Resident>, hole: seq<nat>, j: nat): (p: Option<nat>)
    requires IdsBelow(hole, |rs|)
    ensures p.Some? ==> j <= p.value < |rs| && Fills(rs, hole, rs[p.value])
    ensures forall k | j <= k < |rs| && (p.None? || k < p.value) :: !Fills(rs, hole, rs[k])
    decreases |rs| - j
  {
    if j >= |rs| then None
    else if Fills(rs, hole, rs[j]) then Some(j)
    else FirstFiller(rs, hole, j + 1)
  }

  /** The introduction proposed for one hole, if any. */
  function HoleIntro(rs: seq<Resident>, hole: seq<nat>): seq<(nat, nat)>
    requires IdsBelow(hole, |rs|)
  {
    if |hole| < 3 then []
    else
      match FirstFiller(rs, hole, 0)
      case Some(j) => [(rs[j].id, LastOr(Links(rs, hole, rs[j]), NoMember))]
      case None => []
  }

  /** The introductions of the second loop, one per hole at most. */
  function HoleIntros(rs: seq<Resident>, holes: seq<seq<nat>>): seq<(nat, nat)>
    requires HolesBelow(holes, |rs|)
  {
    if holes == [] then []
    else HoleIntros(rs, holes[..|holes| - 1]) + HoleIntro(rs, holes[|holes| - 1])
  }

  function Proposed(rs: seq<Resident>, holes: seq<seq<nat>>, isolated: seq<nat>): seq<(nat, nat)>
    requires HolesBelow(holes, |rs|) && IdsBelow(isolated, |rs|)
  {
    IsolationIntros(rs, isolated) + HoleIntros(rs, holes)
  }

  // ---------------------------------------------------------------------------
  // What the introductions mean
  // ---------------------------------------------------------------------------

  /** An introduction of the first loop: an isolated resident and a partner of it. */
  ghost predicate PairsIsolated(rs: seq<Resident>, isolated: seq<nat>, p: (nat, nat))
    requires IdsBelow(isolated, |rs|)
  {
    && p.0 in isolated && p.1 < |rs|
    && Partner(p.0, rs[p.0], rs[p.1])
  }

  /** An introduction of the second loop: an outsider of a hole and a hole member sharing a class. */
  ghost predicate BridgesHole(rs: seq<Resident>, holes: seq<seq<nat>>, p: (nat, nat)) {
    && p.0 < |rs| && p.1 < |rs|
    && exists h | h in holes :: |h| >= 3 && p.0 !in h && p.1 in h && SharesClass(rs[p.0].classes, rs[p.1].classes)
  }

  lemma {:induction false} LinksSound(rs: seq<Resident>, hole: seq<nat>, r: Resident, x: nat)
    requires IdsBelow(hole, |rs|) && x in Links(rs, hole, r)
    ensures x in hole && x < |rs| && SharesClass(r.classes, rs[x].classes)
  {
    var prefix := hole[..|hole| - 1];
    if x in Links(rs, prefix, r) {
      LinksSound(rs, prefix, r, x);
      assert prefix <= hole;
    }
  }

  /** At most one introduction per isolated resident and one per hole. */
  lemma {:induction false} IntroductionsBound(rs: seq<Resident>, holes: seq<seq<nat>>, isolated: seq<nat>)
    requires HolesBelow(holes, |rs|) && IdsBelow(isolated, |rs|)
    ensures |Proposed(rs, holes, isolated)| <= |isolated| + |holes|
  {
    IsolationIntrosBound(rs, isolated);
    HoleIntrosBound(rs, holes);
  }

  lemma {:induction false} IsolationIntrosBound(rs: seq<Resident>, isolated: seq<nat>)
    requires IdsBelow(isolated, |rs|)
    ensures |IsolationIntros(rs, isolated)| <= |isolated|
  {
    if isolated != [] {
      IsolationIntrosBound(rs, isolated[..|isolated| - 1]);
    }
  }

  lemma {:induction false} HoleIntrosBound(rs: seq<Resident>, holes: seq<seq<nat>>)
    requires HolesBelow(holes, |rs|)
    ensures |HoleIntros(rs, holes)| <= |holes|
  {
    if holes != [] {
      var prefix := holes[..|holes| - 1];
      assert HolesBelow(prefix, |rs|) by {
        forall h | h in prefix ensures IdsBelow(h, |rs|) { assert h in holes; }
      }
      HoleIntrosBound(rs, prefix);
    }
  }

  /**
   * Every introduction of the first loop pairs an isolated resident with a
   * different, well-connected resident sharing a class or an interest.
   */
  lemma {:induction false} IsolationIntrosSound(rs: seq<Resident>, isolated: seq<nat>)
    requires IdsArePositions(rs) && IdsBelow(isolated, |rs|)
    ensures forall p | p in IsolationIntros(rs, isolated) :: PairsIsolated(rs, isolated, p)
  {
    if isolated != [] {
      var prefix := isolated[..|isolated| - 1];
      var iso := isolated[|isolated| - 1];
      IsolationIntrosSound(rs, prefix);
      forall p | p in IsolationIntros(rs, isolated) ensures PairsIsolated(rs, isolated, p) {
        if p in IsolationIntros(rs, prefix) {
          assert PairsIsolated(rs, prefix, p);
          assert p.0 in prefix;
          assert prefix <= isolated;
        } else {
          assert p in IsolationIntro(rs, iso);
          var j := FirstPartner(rs, iso, 0).value;
          assert p == (iso, rs[j].id);
        }
      }
    }
  }

  /**
   * Every introduction of the second loop joins a resident outside some hole
   * of three or more to a member of it with whom they share a class.
   */
  lemma {:induction false} HoleIntrosSound(rs: seq<Resident>, holes: seq<seq<nat>>)
    requires IdsArePositions(rs) && HolesBelow(holes, |rs|)
    ensures forall p | p in HoleIntros(rs, holes) :: BridgesHole(rs, holes, p)
  {
    if holes != [] {
      var prefix := holes[..|holes| - 1];
      var hole := holes[|holes| - 1];
      assert HolesBelow(prefix, |rs|) by {
        forall h | h in prefix ensures IdsBelow(h, |rs|) { assert h in holes; }
      }
      HoleIntrosSound(rs, prefix);
      forall p | p in HoleIntros(rs, holes) ensures BridgesHole(rs, holes, p) {
        if p in HoleIntros(rs, prefix) {
          assert BridgesHole(rs, prefix, p);
          var h :| h in prefix && |h| >= 3 && p.0 !in h && p.1 in h && SharesClass(rs[p.0].classes, rs[p.1].classes);
          assert h in holes;
        } else {
          assert p in HoleIntro(rs, hole);
          var j := FirstFiller(rs, hole, 0).value;
          var links := Links(rs, hole, rs[j]);
          assert p == (j, links[|links| - 1]);
          LinksSound(rs, hole, rs[j], links[|links| - 1]);
          assert hole in holes;
        }
      }
    }
  }

  // ---------------------------------------------------------------------------
  // The loops of compute_introductions
  // ---------------------------------------------------------------------------

  /** The inner class loop: does some class of a appear in b? */
  method ShareClass(a: seq<string>, b: seq<string>) returns (shared: bool)
    ensures shared == SharesClass(a, b)
  {
    shared := false;
    var i := 0;
    while i < |a| && !shared
      invariant i <= |a|
      invariant shared <==> exists k | 0 <= k < i :: a[k] in b
    {
      if a[i] in b {
        shared := true;
      }
      i := i + 1;
    }
  }

  /** The search for a partner of one isolated resident. */
  method FindPartner(rs: seq<Resident>, isoId: nat) returns (intro: seq<(nat, nat)>)
    requires isoId < |rs|
    ensures intro == IsolationIntro(rs, isoId)
  {
    var iso := rs[isoId];
    var j := 0;
    while j < |rs|
      invariant j <= |rs|
      invariant FirstPartner(rs, isoId, j) == FirstPartner(rs, isoId, 0)
    {
      var r := rs[j];
      if r.id != isoId && r.boundaryScore <= PartnerCeiling {
        var sharedClass := ShareClass(iso.classes, r.classes);
        var sharedInterest := iso.interests * r.interests != {};
        if sharedClass || sharedInterest {
          return [(isoId, r.id)];
        }
      }
      j := j + 1;
    }
    return [];
  }

  /** The member loop for one candidate r: how many members r links, and the last one. */
  method CountLinks(rs: seq<Resident>, hole: seq<nat>, r: Resident) returns (count: nat, connectTo: nat)
    requires IdsBelow(hole, |rs|)
    ensures count == |Links(rs, hole, r)|
    ensures connectTo == LastOr(Links(rs, hole, r), NoMember)
  {
    count, connectTo := 0, NoMember;
    var k := 0;
    while k < |hole|
      invariant k <= |hole|
      invariant count == |Links(rs, hole[..k], r)|
      invariant connectTo == LastOr(Links(rs, hole[..k], r), NoMember)
    {
      assert hole[..k + 1][..k] == hole[..k];
      var shared := ShareClass(r.classes, rs[hole[k]].classes);
      if shared {
        count := count + 1;
        connectTo := hole[k];
      }
      k := k + 1;
    }
    assert hole[..k] == hole;
  }

  /** The search for a resident to fill one hole. */
  method FindFiller(rs: seq<Resident>, hole: seq<nat>) returns (intro: seq<(nat, nat)>)
    requires IdsBelow(hole, |rs|)
    ensures intro == HoleIntro(rs, hole)
  {
    if |hole| < 3 {
      return [];
    }
    var j := 0;
    while j < |rs|
      invariant j <= |rs|
      invariant FirstFiller(rs, hole, j) == FirstFiller(rs, hole, 0)
    {
      var r := rs[j];
      if r.id !in hole {
        var count, connectTo := CountLinks(rs, hole, r);
        if count >= 2 && connectTo != NoMember {
          return [(r.id, connectTo)];
        }
      }
      j := j + 1;
    }
    return [];
  }

  /** compute_introductions: the isolated residents first, then the holes. */
  method ComputeIntroductions(rs: seq<Resident>, holes: seq<seq<nat>>, isolated: seq<nat>) returns (intros: seq<(nat, nat)>)
    requires HolesBelow(holes, |rs|) && IdsBelow(isolated, |rs|)
    ensures intros == Proposed(rs, holes, isolated)
  {
    intros := [];
    var i := 0;
    while i < |isolated|
      invariant i <= |isolated|
      invariant intros == IsolationIntros(rs, isolated[..i])
    {
      assert isolated[..i + 1][..i] == isolated[..i];
      var intro := FindPartner(rs, isolated[i]);
      intros := intros + intro;
      i := i + 1;
    }
    assert isolated[..i] == isolated;
    ghost var first := intros;
    var h := 0;
    while h < |holes|
      invariant h <= |holes|
      invariant HolesBelow(holes[..h], |rs|)
      invariant intros == first + HoleIntros(rs, holes[..h])
    {
      assert holes[..h + 1][..h] == holes[..h];
      assert holes[h] in holes;
      var intro := FindFiller(rs, holes[h]);
      intros := intros + intro;
      h := h + 1;
    }
    assert holes[..h] == holes;
  }
}
