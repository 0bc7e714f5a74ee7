/**
 * Edge synthesis: the signals that link a pair of residents and the connection
 * list compute_connections builds from them
 * (community_homology_engine.hpp:253-334, helpers at 508-545).
 * Strengths are exact reals: every contribution is a multiple of 0.1.
 */
module Signals {
  import opened Time
  import opened Rooms
  import opened Entities

  // ---------------------------------------------------------------------------
  // Shared classes: the nested loop counts every equal pair, duplicates included.
  // ---------------------------------------------------------------------------

  function SharedClassPairs(c1: seq<string>, c2: seq<string>): nat {
    if c1 == [] then 0
    else SharedClassPairs(c1[..|c1| - 1], c2) + multiset(c2)[c1[|c1| - 1]]
  }

  method CountSharedClasses(c1: seq<string>, c2: seq<string>) returns (count: nat)
    ensures count == SharedClassPairs(c1, c2)
  {
    count := 0;
    var i := 0;
    while i < |c1|
      invariant 0 <= i <= |c1|
      invariant count == SharedClassPairs(c1[..i], c2)
    {
      ghost var before := count;
      var j := 0;
      while j < |c2|
        invariant 0 <= j <= |c2|
        invariant count == before + multiset(c2[..j])[c1[i]]
      {
        if c1[i] == c2[j] {
          count := count + 1;
        }
        assert c2[..j + 1] == c2[..j] + [c2[j]];
        j := j + 1;
      }
      assert c2[..j] == c2;
      assert c1[..i + 1][..i] == c1[..i];
      i := i + 1;
    }
    assert c1[..i] == c1;
  }

  /** The class signal fires exactly when some course code appears in both lists. */
  lemma {:induction false} SharedClassPairsPositive(c1: seq<string>, c2: seq<string>)
    ensures SharedClassPairs(c1, c2) > 0
        <==> exists i, j :: 0 <= i < |c1| && 0 <= j < |c2| && c1[i] == c2[j]
  {
    if c1 != [] {
      var prefix, x := c1[..|c1| - 1], c1[|c1| - 1];
      SharedClassPairsPositive(prefix, c2);
      if multiset(c2)[x] > 0 {
        var j :| 0 <= j < |c2| && c2[j] == x;
        assert c1[|c1| - 1] == c2[j];
      }
      if exists i, j :: 0 <= i < |c1| && 0 <= j < |c2| && c1[i] == c2[j] {
        var i, j :| 0 <= i < |c1| && 0 <= j < |c2| && c1[i] == c2[j];
        if i < |prefix| {
          assert prefix[i] == c2[j];
        } else {
          assert c2[j] in multiset(c2);
        }
      }
    }
  }

  /** Duplicated course codes are counted once per equal pair. */
  lemma DuplicateClassesCountTwice()
    ensures SharedClassPairs(["MATH101", "MATH101"], ["MATH101"]) == 2
  {
    assert ["MATH101", "MATH101"][..1] == ["MATH101"];
    assert ["MATH101"][..0] == [];
  }

  // ---------------------------------------------------------------------------
  // Schedule overlap: total overlapping minutes over all pairs of free blocks,
  // then integer division by 60.
  // ---------------------------------------------------------------------------

  function RowOverlap(b: TimeBlock, f2: seq<TimeBlock>): nat {
    if f2 == [] then 0
    else RowOverlap(b, f2[..|f2| - 1]) + OverlapMinutes(b, f2[|f2| - 1]) as nat
  }

  function TotalOverlap(f1: seq<TimeBlock>, f2: seq<TimeBlock>): nat {
    if f1 == [] then 0
    else TotalOverlap(f1[..|f1| - 1], f2) + RowOverlap(f1[|f1| - 1], f2)
  }

  method ScheduleOverlapHours(f1: seq<TimeBlock>, f2: seq<TimeBlock>) returns (hours: nat)
    ensures hours == TotalOverlap(f1, f2) / 60
  {
    var totalMinutes := 0;
    var i := 0;
    while i < |f1|
      invariant 0 <= i <= |f1|
      invariant totalMinutes == TotalOverlap(f1[..i], f2)
    {
      ghost var before := totalMinutes;
      var j := 0;
      while j < |f2|
        invariant 0 <= j <= |f2|
        invariant totalMinutes == before + RowOverlap(f1[i], f2[..j])
      {
        totalMinutes := totalMinutes + OverlapMinutes(f1[i], f2[j]) as int;
        assert f2[..j + 1][..j] == f2[..j];
        j := j + 1;
      }
      assert f2[..j] == f2;
      assert f1[..i + 1][..i] == f1[..i];
      i := i + 1;
    }
    assert f1[..i] == f1;
    hours := totalMinutes / 60;
  }

  lemma {:induction false} RowOverlapNoCommonDay(b: TimeBlock, f2: seq<TimeBlock>)
    requires forall j | 0 <= j < |f2| :: b.day != f2[j].day
    ensures RowOverlap(b, f2) == 0
  {
    if f2 != [] {
      RowOverlapNoCommonDay(b, f2[..|f2| - 1]);
    }
  }

  /** Residents who are never free on a common day have no schedule overlap. */
  lemma {:induction false} NoCommonDayNoOverlap(f1: seq<TimeBlock>, f2: seq<TimeBlock>)
    requires forall i, j | 0 <= i < |f1| && 0 <= j < |f2| :: f1[i].day != f2[j].day
    ensures TotalOverlap(f1, f2) == 0
  {
    if f1 != [] {
      NoCommonDayNoOverlap(f1[..|f1| - 1], f2);
      RowOverlapNoCommonDay(f1[|f1| - 1], f2);
    }
  }

  // ---------------------------------------------------------------------------
  // Shared interests: the interests of r1 that r2 also has.
  // ---------------------------------------------------------------------------

  method CountSharedInterests(s1: set<string>, s2: set<string>) returns (count: nat)
    ensures count == |s1 * s2|
  {
    count := 0;
    var rest := s1;
    while rest != {}
      invariant rest <= s1
      invariant count == |(s1 - rest) * s2|
      decreases rest
    {
      var x :| x in rest;
      if x in s2 {
        count := count + 1;
      }
      assert (s1 - (rest - {x})) * s2 == (s1 - rest) * s2 + (if x in s2 then {x} else {});
      rest := rest - {x};
    }
  }

  // ---------------------------------------------------------------------------
  // One pair of residents.
  // ---------------------------------------------------------------------------

  function OverlapHours(r1: Resident, r2: Resident): nat {
    TotalOverlap(r1.freeBlocks, r2.freeBlocks) / 60
  }

  function SharedSubcommunities(r1: Resident, r2: Resident): set<string> {
    r1.subcommunities * r2.subcommunities
  }

  /** The raw measurements taken for a pair, before they are weighted. */
  datatype PairSignals = PairSignals(
    classes: nat, hours: nat, interests: nat, sameRoom: bool, neighbors: bool, shared: set<string>)

  function SignalsOf(r1: Resident, r2: Resident): PairSignals {
    PairSignals(
      SharedClassPairs(r1.classes, r2.classes), OverlapHours(r1, r2),
      |r1.interests * r2.interests|, r1.room == r2.room, AreNeighbors(r1.room, r2.room),
      SharedSubcommunities(r1, r2))
  }

  function ClassTypes(s: PairSignals): seq<ConnectionType> {
    if s.classes > 0 then [SharedClass] else []
  }

  function ScheduleTypes(s: PairSignals): seq<ConnectionType> {
    if s.hours >= 2 then [ScheduleOverlap] else []
  }

  function InterestTypes(s: PairSignals): seq<ConnectionType> {
    if s.interests > 0 then [SharedInterest] else []
  }

  function RoomTypes(s: PairSignals): seq<ConnectionType> {
    if s.sameRoom then [Roommate] else []
  }

  function ProximityTypes(s: PairSignals): seq<ConnectionType> {
    if s.neighbors then [FloorProximity] else []
  }

  /** The typed signals that fire, in the order the source evaluates them. */
  function FiredTypes(s: PairSignals): seq<ConnectionType> {
    ClassTypes(s) + ScheduleTypes(s) + InterestTypes(s) + RoomTypes(s) + ProximityTypes(s)
  }

  /** min(hours / 5, 2), counted only from two hours on. */
  function ScheduleContribution(hours: nat): real {
    if hours < 2 then 0.0
    else if hours as real / 5.0 < 2.0 then hours as real / 5.0
    else 2.0
  }

  /** The sum of every contribution, typed or not. */
  function Total(s: PairSignals): real {
    s.classes as real * 2.0
    + ScheduleContribution(s.hours)
    + s.interests as real * 1.5
    + (if s.sameRoom then 5.0 else 0.0)
    + (if s.neighbors then 1.0 else 0.0)
    + |s.shared| as real * 0.5
  }

  function Fired(r1: Resident, r2: Resident): seq<ConnectionType> {
    FiredTypes(SignalsOf(r1, r2))
  }

  function Strength(r1: Resident, r2: Resident): real {
    Total(SignalsOf(r1, r2))
  }

  /** The condition under which compute_connections emits an edge for the pair. */
  predicate Qualifies(r1: Resident, r2: Resident, minStrength: real) {
    Strength(r1, r2) >= minStrength && Fired(r1, r2) != []
  }

  function MakeConnection(id: nat, r1: Resident, r2: Resident): Connection
    requires Fired(r1, r2) != []
  {
    var shared := SharedSubcommunities(r1, r2);
    Connection(
      id, r1.id, r2.id, Fired(r1, r2)[0], Strength(r1, r2),
      |shared| < |r1.subcommunities| || |shared| < |r2.subcommunities|,
      shared)
  }

  /** The (at most one) connection emitted for the pair. */
  function Candidate(r1: Resident, r2: Resident, minStrength: real, id: nat): seq<Connection> {
    if Qualifies(r1, r2, minStrength) then [MakeConnection(id, r1, r2)] else []
  }

  /** The body of the double loop for one pair (community_homology_engine.hpp:260-331). */
  method EvaluatePair(r1: Resident, r2: Resident, minStrength: real, id: nat) returns (emitted: seq<Connection>)
    ensures emitted == Candidate(r1, r2, minStrength, id)
    ensures |emitted| <= 1
  {
    var sharedClasses := CountSharedClasses(r1.classes, r2.classes);
    var overlapHours := ScheduleOverlapHours(r1.freeBlocks, r2.freeBlocks);
    var sharedInterests := CountSharedInterests(r1.interests, r2.interests);
    var sharedSubs := r1.subcommunities * r2.subcommunities;
    var sig := PairSignals(
      sharedClasses, overlapHours, sharedInterests, r1.room == r2.room, AreNeighbors(r1.room, r2.room), sharedSubs);
    assert sig == SignalsOf(r1, r2);
    var totalStrength, types := WeighSignals(sig);
    assert totalStrength == Strength(r1, r2) && types == Fired(r1, r2);

    if totalStrength >= minStrength && types != [] {
      var c := Connection(
        id, r1.id, r2.id, types[0], totalStrength,
        |sharedSubs| < |r1.subcommunities| || |sharedSubs| < |r2.subcommunities|,
        sharedSubs);
      emitted := [c];
    } else {
      emitted := [];
    }
  }

  /**
   * The chain of tests of compute_connections: each signal that fires adds its
   * weight and, except shared subcommunities, its type.
   */
  method WeighSignals(sig: PairSignals) returns (totalStrength: real, types: seq<ConnectionType>)
    ensures totalStrength == Total(sig) && types == FiredTypes(sig)
  {
    totalStrength := 0.0;
    types := [];
    if sig.classes > 0 {
      totalStrength := totalStrength + sig.classes as real * 2.0;
      types := types + [SharedClass];
    }
    assert types == ClassTypes(sig);

    if sig.hours >= 2 {
      var h := sig.hours as real / 5.0;
      totalStrength := totalStrength + (if h < 2.0 then h else 2.0);
      types := types + [ScheduleOverlap];
    }
    assert types == ClassTypes(sig) + ScheduleTypes(sig);

    if sig.interests > 0 {
      totalStrength := totalStrength + sig.interests as real * 1.5;
      types := types + [SharedInterest];
    }
    assert types == ClassTypes(sig) + ScheduleTypes(sig) + InterestTypes(sig);

    if sig.sameRoom {
      totalStrength := totalStrength + 5.0;
      types := types + [Roommate];
    }
    assert types == ClassTypes(sig) + ScheduleTypes(sig) + InterestTypes(sig) + RoomTypes(sig);

    if sig.neighbors {
      totalStrength := totalStrength + 1.0;
      types := types + [FloorProximity];
    }
    if sig.shared != {} {
      totalStrength := totalStrength + |sig.shared| as real * 0.5;
    }
  }

  // ---------------------------------------------------------------------------
  // Properties of one pair.
  // ---------------------------------------------------------------------------

  /** A subset has fewer elements exactly when it is a strict subset. */
  lemma StrictSubsetSize<T>(a: set<T>, b: set<T>)
    requires a <= b
    ensures |a| < |b| <==> a < b
  {
    var d := b - a;
    assert b == a + d;
    assert a * d == {};
  }

  /**
   * An edge is a bridge edge exactly when the subcommunities it touches are a
   * strict subset of one endpoint's subcommunities.
   */
  lemma BridgeEdgeIffStrictSubset(id: nat, r1: Resident, r2: Resident)
    requires Fired(r1, r2) != []
    ensures MakeConnection(id, r1, r2).touches == r1.subcommunities * r2.subcommunities
    ensures MakeConnection(id, r1, r2).isBridgeEdge
        <==> (MakeConnection(id, r1, r2).touches < r1.subcommunities
              || MakeConnection(id, r1, r2).touches < r2.subcommunities)
  {
    var shared := SharedSubcommunities(r1, r2);
    StrictSubsetSize(shared, r1.subcommunities);
    StrictSubsetSize(shared, r2.subcommunities);
  }

  /** Shared subcommunities add strength but never create an edge on their own. */
  lemma SubcommunitiesAloneNeverLink(r1: Resident, r2: Resident, minStrength: real)
    requires SharedClassPairs(r1.classes, r2.classes) == 0 && OverlapHours(r1, r2) < 2
    requires r1.interests * r2.interests == {} && r1.room != r2.room
    requires !AreNeighbors(r1.room, r2.room)
    ensures !Qualifies(r1, r2, minStrength)
    ensures Strength(r1, r2) == |SharedSubcommunities(r1, r2)| as real * 0.5
  {
  }

  /** The primary type is the first signal that fired, in evaluation order. */
  lemma PrimaryTypeIsFirstFired(id: nat, r1: Resident, r2: Resident)
    requires Fired(r1, r2) != []
    ensures var k := MakeConnection(id, r1, r2).kind;
      && (k == SharedClass <==> SharedClassPairs(r1.classes, r2.classes) > 0)
      && (k == ScheduleOverlap <==> SharedClassPairs(r1.classes, r2.classes) == 0 && OverlapHours(r1, r2) >= 2)
      && (k == SharedInterest <==> SharedClassPairs(r1.classes, r2.classes) == 0 && OverlapHours(r1, r2) < 2
                                   && |r1.interests * r2.interests| > 0)
      && (k == Roommate <==> SharedClassPairs(r1.classes, r2.classes) == 0 && OverlapHours(r1, r2) < 2
                             && r1.interests * r2.interests == {} && r1.room == r2.room)
      && (k == FloorProximity <==> SharedClassPairs(r1.classes, r2.classes) == 0 && OverlapHours(r1, r2) < 2
                                   && r1.interests * r2.interests == {} && r1.room != r2.room)
  {
  }

  /** Two identical numeric rooms earn both the roommate and the proximity bonus. */
  lemma SameNumericRoomEarnsBothBonuses(r1: Resident, r2: Resident)
    requires r1.room == r2.room && |r1.room| > 0 && IsDigit(r1.room[0])
    ensures Roommate in Fired(r1, r2) && FloorProximity in Fired(r1, r2)
    ensures Strength(r1, r2) >= 6.0
  {
    NumericRoomIsOwnNeighbor(r1.room);
  }

  lemma StrengthNonNegative(r1: Resident, r2: Resident)
    ensures Strength(r1, r2) >= 0.0
  {
  }

  // ---------------------------------------------------------------------------
  // The whole connection list: pairs i < j in row-major order, ids consecutive.
  // The fold is stated over any per-pair candidate function, so its structural
  // facts are proved once without unfolding how a pair is scored.
  // ---------------------------------------------------------------------------

  /** The connections (at most one) offered for the pair (a, b) under a given id. */
  type CandidateFn = (nat, nat, nat) -> seq<Connection>

  /** Edges for the pairs (i, b) with i < b < j, numbered from base. */
  function RowEdges(cand: CandidateFn, i: nat, j: nat, base: nat): seq<Connection> {
    if j <= i + 1 then []
    else
      RowEdges(cand, i, j - 1, base)
      + cand(i, j - 1, base + |RowEdges(cand, i, j - 1, base)|)
  }

  /** Edges for every pair (a, b), a < i, a < b < n, numbered from 0. */
  function EdgesBefore(cand: CandidateFn, n: nat, i: nat): seq<Connection> {
    if i == 0 then []
    else
      EdgesBefore(cand, n, i - 1)
      + RowEdges(cand, i - 1, n, |EdgesBefore(cand, n, i - 1)|)
  }

  /** The candidate of compute_connections: the residents at positions a and b. */
  function PairCandidate(rs: seq<Resident>, minStrength: real): CandidateFn {
    (a: nat, b: nat, id: nat) =>
      if a < |rs| && b < |rs| then Candidate(rs[a], rs[b], minStrength, id) else []
  }

  /** The connection list compute_connections rebuilds from scratch. */
  function Synthesize(rs: seq<Resident>, minStrength: real): seq<Connection> {
    EdgesBefore(PairCandidate(rs, minStrength), |rs|, |rs|)
  }

  predicate PairBefore(a: Connection, b: Connection) {
    a.source < b.source || (a.source == b.source && a.target < b.target)
  }

  /** Whether the pair is offered a connection (which does not depend on the id). */
  predicate Emits(cand: CandidateFn, a: nat, b: nat) {
    |cand(a, b, 0)| == 1
  }

  /**
   * A candidate function offers at most one connection per pair, whether it
   * does is independent of the id, and what it offers carries that id and joins
   * that pair.
   */
  ghost predicate WellBehaved(cand: CandidateFn) {
    forall a: nat, b: nat, id: nat ::
      && |cand(a, b, id)| == |cand(a, b, 0)| <= 1
      && (|cand(a, b, id)| == 1 ==>
            cand(a, b, id)[0].id == id && cand(a, b, id)[0].source == a && cand(a, b, id)[0].target == b)
  }

  /** The edge is exactly what the candidate function offers for its own pair and id. */
  ghost predicate Offered(cand: CandidateFn, c: Connection) {
    cand(c.source, c.target, c.id) == [c]
  }

  ghost predicate Numbered(cs: seq<Connection>, base: nat) {
    forall k | 0 <= k < |cs| :: cs[k].id == base + k
  }

  /** Pairs strictly increase, so no pair appears twice. */
  ghost predicate Increasing(cs: seq<Connection>) {
    forall k1, k2 | 0 <= k1 < k2 < |cs| :: PairBefore(cs[k1], cs[k2])
  }

  /** Numbered from base, every edge leaving i toward a target in (i, j). */
  ghost predicate RowShaped(row: seq<Connection>, i: nat, j: nat, base: nat) {
    forall k | 0 <= k < |row| :: row[k].id == base + k && row[k].source == i && i < row[k].target < j
  }

  /** Numbered from 0, every edge leaving a source below i toward a larger target below n. */
  ghost predicate RowsShaped(cs: seq<Connection>, i: nat, n: nat) {
    forall k | 0 <= k < |cs| :: cs[k].id == k && cs[k].source < i && cs[k].source < cs[k].target < n
  }

  ghost predicate AllOffered(cand: CandidateFn, cs: seq<Connection>) {
    forall k | 0 <= k < |cs| :: Offered(cand, cs[k])
  }

  /** One more pair at the end of a row. */
  lemma RowEdgesStep(cand: CandidateFn, i: nat, j: nat, base: nat)
    requires i + 1 <= j
    ensures RowEdges(cand, i, j + 1, base)
         == RowEdges(cand, i, j, base) + cand(i, j, base + |RowEdges(cand, i, j, base)|)
  {
  }

  /** One more row at the end of the list. */
  lemma EdgesBeforeStep(cand: CandidateFn, n: nat, i: nat)
    ensures EdgesBefore(cand, n, i + 1)
         == EdgesBefore(cand, n, i) + RowEdges(cand, i, n, |EdgesBefore(cand, n, i)|)
  {
  }

  /** One more pair of a row: the list so far grows by what the pair offers at the next id. */
  lemma RowGrows(cand: CandidateFn, i: nat, j: nat, next: nat, cs0: seq<Connection>, cs: seq<Connection>, emitted: seq<Connection>)
    requires i + 1 <= j && next == j + 1
    requires cs == cs0 + RowEdges(cand, i, j, |cs0|)
    requires emitted == cand(i, j, |cs|)
    ensures cs + emitted == cs0 + RowEdges(cand, i, next, |cs0|)
  {
    RowEdgesStep(cand, i, j, |cs0|);
  }

  /** One more row: the list so far grows by the row's edges, numbered on from its length. */
  lemma RowsGrow(cand: CandidateFn, n: nat, i: nat, cs: seq<Connection>, cs': seq<Connection>)
    requires cs == EdgesBefore(cand, n, i)
    requires cs' == cs + RowEdges(cand, i, n, |cs|)
    ensures cs' == EdgesBefore(cand, n, i + 1)
  {
    EdgesBeforeStep(cand, n, i);
  }

  /**
   * cand offers, for every pair of positions of rs, what Candidate offers for
   * the residents there. The trigger is the Candidate term, so the fact is only
   * used for pairs that are actually evaluated.
   */
  ghost predicate AgreesWith(cand: CandidateFn, rs: seq<Resident>, minStrength: real) {
    forall a: nat, b: nat, id: nat {:trigger Candidate(rs[a], rs[b], minStrength, id)} | a < |rs| && b < |rs| ::
      cand(a, b, id) == Candidate(rs[a], rs[b], minStrength, id)
  }

  lemma PairCandidateAgrees(rs: seq<Resident>, minStrength: real)
    ensures AgreesWith(PairCandidate(rs, minStrength), rs, minStrength)
    ensures forall a, b, id :: |PairCandidate(rs, minStrength)(a, b, id)| <= 1
  {
  }

  lemma {:induction false} RowEdgesShape(cand: CandidateFn, i: nat, j: nat, base: nat)
    requires WellBehaved(cand)
    ensures RowShaped(RowEdges(cand, i, j, base), i, j, base)
  {
    if j > i + 1 {
      RowEdgesShape(cand, i, j - 1, base);
      var prev := RowEdges(cand, i, j - 1, base);
      var offer := cand(i, j - 1, base + |prev|);
      var row := prev + offer;
      assert row == RowEdges(cand, i, j, base);
      forall k | 0 <= k < |row|
        ensures row[k].id == base + k && row[k].source == i && i < row[k].target < j
      {
        if k < |prev| {
          assert row[k] == prev[k];
        } else {
          assert row[k] == offer[0];
        }
      }
    }
  }

  /** Every edge of a row is what the candidate function offers for its own pair and id. */
  lemma {:induction false} RowEdgesOffered(cand: CandidateFn, i: nat, j: nat, base: nat)
    requires WellBehaved(cand)
    ensures AllOffered(cand, RowEdges(cand, i, j, base))
  {
    if j > i + 1 {
      RowEdgesOffered(cand, i, j - 1, base);
      var prev := RowEdges(cand, i, j - 1, base);
      var offer := cand(i, j - 1, base + |prev|);
      var row := prev + offer;
      assert row == RowEdges(cand, i, j, base);
      forall k | 0 <= k < |row| ensures Offered(cand, row[k]) {
        if k < |prev| {
          assert row[k] == prev[k];
        } else {
          assert row[k] == offer[0];
        }
      }
    }
  }

  /** Within a row the targets strictly increase. */
  lemma {:induction false} RowEdgesIncreasing(cand: CandidateFn, i: nat, j: nat, base: nat)
    requires WellBehaved(cand)
    ensures Increasing(RowEdges(cand, i, j, base))
  {
    if j > i + 1 {
      RowEdgesIncreasing(cand, i, j - 1, base);
      RowEdgesShape(cand, i, j - 1, base);
      var prev := RowEdges(cand, i, j - 1, base);
      var offer := cand(i, j - 1, base + |prev|);
      var row := prev + offer;
      assert row == RowEdges(cand, i, j, base);
      forall k1, k2 | 0 <= k1 < k2 < |row| ensures PairBefore(row[k1], row[k2]) {
        if k2 < |prev| {
          assert row[k1] == prev[k1] && row[k2] == prev[k2];
        } else {
          assert row[k1] == prev[k1] && row[k2] == offer[0];
        }
      }
    }
  }

  /** Every pair (i, b) with b < j that is offered a connection has its edge in the row. */
  lemma {:induction false} RowEdgesComplete(cand: CandidateFn, i: nat, j: nat, base: nat)
    requires WellBehaved(cand)
    ensures var row := RowEdges(cand, i, j, base);
      forall b: nat | i < b < j && Emits(cand, i, b) ::
        exists k :: 0 <= k < |row| && row[k].target == b
  {
    if j > i + 1 {
      RowEdgesComplete(cand, i, j - 1, base);
      var prev := RowEdges(cand, i, j - 1, base);
      var offer := cand(i, j - 1, base + |prev|);
      var row := prev + offer;
      assert row == RowEdges(cand, i, j, base);
      forall b: nat | i < b < j && Emits(cand, i, b)
        ensures exists k :: 0 <= k < |row| && row[k].target == b
      {
        if b < j - 1 {
          var k :| 0 <= k < |prev| && prev[k].target == b;
          assert row[k] == prev[k];
        } else {
          assert |offer| == 1;
          assert row[|prev|] == offer[0];
        }
      }
    }
  }

  lemma {:induction false} EdgesBeforeShape(cand: CandidateFn, n: nat, i: nat)
    requires WellBehaved(cand)
    ensures RowsShaped(EdgesBefore(cand, n, i), i, n)
  {
    if i > 0 {
      EdgesBeforeShape(cand, n, i - 1);
      var prev := EdgesBefore(cand, n, i - 1);
      RowEdgesShape(cand, i - 1, n, |prev|);
      var row := RowEdges(cand, i - 1, n, |prev|);
      var cs := prev + row;
      assert cs == EdgesBefore(cand, n, i);
      forall k | 0 <= k < |cs|
        ensures cs[k].id == k && cs[k].source < i && cs[k].source < cs[k].target < n
      {
        if k < |prev| {
          assert cs[k] == prev[k];
        } else {
          assert cs[k] == row[k - |prev|];
        }
      }
    }
  }

  lemma {:induction false} EdgesBeforeOffered(cand: CandidateFn, n: nat, i: nat)
    requires WellBehaved(cand)
    ensures AllOffered(cand, EdgesBefore(cand, n, i))
  {
    if i > 0 {
      EdgesBeforeOffered(cand, n, i - 1);
      var prev := EdgesBefore(cand, n, i - 1);
      RowEdgesOffered(cand, i - 1, n, |prev|);
      var row := RowEdges(cand, i - 1, n, |prev|);
      var cs := prev + row;
      assert cs == EdgesBefore(cand, n, i);
      forall k | 0 <= k < |cs| ensures Offered(cand, cs[k]) {
        if k < |prev| {
          assert cs[k] == prev[k];
        } else {
          assert cs[k] == row[k - |prev|];
        }
      }
    }
  }

  lemma {:induction false} EdgesBeforeIncreasing(cand: CandidateFn, n: nat, i: nat)
    requires WellBehaved(cand)
    ensures Increasing(EdgesBefore(cand, n, i))
  {
    if i > 0 {
      EdgesBeforeIncreasing(cand, n, i - 1);
      EdgesBeforeShape(cand, n, i - 1);
      var prev := EdgesBefore(cand, n, i - 1);
      RowEdgesShape(cand, i - 1, n, |prev|);
      RowEdgesIncreasing(cand, i - 1, n, |prev|);
      var row := RowEdges(cand, i - 1, n, |prev|);
      IncreasingAppend(prev, row, i - 1);
      EdgesBeforeStep(cand, n, i - 1);
    }
  }

  /** Rows of earlier sources followed by an ordered row of source i stay ordered. */
  lemma IncreasingAppend(xs: seq<Connection>, ys: seq<Connection>, i: nat)
    requires Increasing(xs) && Increasing(ys)
    requires forall k | 0 <= k < |xs| :: xs[k].source < i
    requires forall k | 0 <= k < |ys| :: ys[k].source == i
    ensures Increasing(xs + ys)
  {
    var cs := xs + ys;
    forall k1, k2 | 0 <= k1 < k2 < |cs| ensures PairBefore(cs[k1], cs[k2]) {
      if k2 < |xs| {
        assert cs[k1] == xs[k1] && cs[k2] == xs[k2];
      } else if k1 >= |xs| {
        assert cs[k1] == ys[k1 - |xs|] && cs[k2] == ys[k2 - |xs|];
      } else {
        assert cs[k1] == xs[k1] && cs[k2] == ys[k2 - |xs|];
      }
    }
  }

  lemma EdgesBeforeComplete(cand: CandidateFn, n: nat, i: nat)
    requires WellBehaved(cand)
    ensures forall a: nat, b: nat | a < i && a < b < n && Emits(cand, a, b) :: HasPair(EdgesBefore(cand, n, i), a, b)
  {
    forall a: nat, b: nat | a < i && a < b < n && Emits(cand, a, b) ensures HasPair(EdgesBefore(cand, n, i), a, b) {
      EdgesBeforeHasPair(cand, n, i, a, b);
    }
  }

  /** Some connection of cs joins a to b. */
  ghost predicate HasPair(cs: seq<Connection>, a: nat, b: nat) {
    exists k :: 0 <= k < |cs| && cs[k].source == a && cs[k].target == b
  }

  lemma HasPairAppend(xs: seq<Connection>, ys: seq<Connection>, a: nat, b: nat)
    requires HasPair(xs, a, b) || HasPair(ys, a, b)
    ensures HasPair(xs + ys, a, b)
  {
    if HasPair(xs, a, b) {
      var k :| 0 <= k < |xs| && xs[k].source == a && xs[k].target == b;
      assert (xs + ys)[k] == xs[k];
    } else {
      var k :| 0 <= k < |ys| && ys[k].source == a && ys[k].target == b;
      assert (xs + ys)[|xs| + k] == ys[k];
    }
  }

  /** A pair of an earlier row that the candidate function emits is in the list. */
  lemma {:induction false} EdgesBeforeHasPair(cand: CandidateFn, n: nat, i: nat, a: nat, b: nat)
    requires WellBehaved(cand) && a < i && a < b < n && Emits(cand, a, b)
    ensures HasPair(EdgesBefore(cand, n, i), a, b)
  {
    var prev := EdgesBefore(cand, n, i - 1);
    var row := RowEdges(cand, i - 1, n, |prev|);
    if a < i - 1 {
      EdgesBeforeHasPair(cand, n, i - 1, a, b);
      HasPairAppend(prev, row, a, b);
    } else {
      RowHasPair(cand, a, n, |prev|, b);
      HasPairAppend(prev, row, a, b);
    }
    EdgesBeforeStep(cand, n, i - 1);
  }

  /** A pair (i, b) of row i that the candidate function emits is in the row. */
  lemma RowHasPair(cand: CandidateFn, i: nat, n: nat, base: nat, b: nat)
    requires WellBehaved(cand) && i < b < n && Emits(cand, i, b)
    ensures HasPair(RowEdges(cand, i, n, base), i, b)
  {
    var row := RowEdges(cand, i, n, base);
    RowEdgesShape(cand, i, n, base);
    RowEdgesComplete(cand, i, n, base);
    var k :| 0 <= k < |row| && row[k].target == b;
    assert row[k].source == i;
  }

  /** The edge joins a qualifying pair i < j and carries that pair's synthesized fields. */
  ghost predicate GenuineEdge(rs: seq<Resident>, minStrength: real, c: Connection) {
    && c.source < c.target < |rs|
    && Qualifies(rs[c.source], rs[c.target], minStrength)
    && c == MakeConnection(c.id, rs[c.source], rs[c.target])
  }

  ghost predicate Genuine(rs: seq<Resident>, minStrength: real, cs: seq<Connection>) {
    forall k | 0 <= k < |cs| :: GenuineEdge(rs, minStrength, cs[k])
  }

  /** The scoring of compute_connections is a well-behaved candidate function. */
  lemma PairCandidateWellBehaved(rs: seq<Resident>, minStrength: real)
    requires IdsArePositions(rs)
    ensures WellBehaved(PairCandidate(rs, minStrength))
  {
    var cand := PairCandidate(rs, minStrength);
    forall a: nat, b: nat, id: nat
      ensures |cand(a, b, id)| == |cand(a, b, 0)| <= 1
      ensures |cand(a, b, id)| == 1 ==>
        cand(a, b, id)[0].id == id && cand(a, b, id)[0].source == a && cand(a, b, id)[0].target == b
    {
    }
  }

  /** An offered edge between positions of rs is a genuine edge. */
  lemma OfferedIsGenuine(rs: seq<Resident>, minStrength: real, c: Connection)
    requires Offered(PairCandidate(rs, minStrength), c) && c.source < c.target < |rs|
    ensures GenuineEdge(rs, minStrength, c)
  {
    assert Candidate(rs[c.source], rs[c.target], minStrength, c.id) == [c];
  }

  /**
   * The shape of what compute_connections produces: ids 0, 1, 2, ...; every
   * edge joins positions i < j below |rs|; pairs strictly increase, so at most
   * one edge per pair.
   */
  lemma SynthesizeShape(rs: seq<Resident>, minStrength: real)
    requires IdsArePositions(rs)
    ensures var cs := Synthesize(rs, minStrength);
      Numbered(cs, 0) && Increasing(cs) && EndpointsBelow(cs, |rs|)
  {
    PairCandidateWellBehaved(rs, minStrength);
    EdgesBeforeShape(PairCandidate(rs, minStrength), |rs|, |rs|);
    EdgesBeforeIncreasing(PairCandidate(rs, minStrength), |rs|, |rs|);
  }

  /** Every edge compute_connections emits joins a qualifying pair and carries that pair's fields. */
  lemma SynthesizeGenuine(rs: seq<Resident>, minStrength: real)
    requires IdsArePositions(rs)
    ensures Genuine(rs, minStrength, Synthesize(rs, minStrength))
  {
    var cand := PairCandidate(rs, minStrength);
    PairCandidateWellBehaved(rs, minStrength);
    EdgesBeforeShape(cand, |rs|, |rs|);
    EdgesBeforeOffered(cand, |rs|, |rs|);
    var cs := Synthesize(rs, minStrength);
    forall k | 0 <= k < |cs| ensures GenuineEdge(rs, minStrength, cs[k]) {
      OfferedIsGenuine(rs, minStrength, cs[k]);
    }
  }

  /** One pair of positions has an edge exactly when it qualifies. */
  lemma PairHasEdgeIffQualifies(rs: seq<Resident>, minStrength: real, a: nat, b: nat)
    requires IdsArePositions(rs) && a < b < |rs|
    ensures var cs := Synthesize(rs, minStrength);
      Qualifies(rs[a], rs[b], minStrength)
      <==> exists k :: 0 <= k < |cs| && cs[k].source == a && cs[k].target == b
  {
    var cand := PairCandidate(rs, minStrength);
    var cs := Synthesize(rs, minStrength);
    PairCandidateWellBehaved(rs, minStrength);
    if Qualifies(rs[a], rs[b], minStrength) {
      assert cand(a, b, 0) == Candidate(rs[a], rs[b], minStrength, 0);
      assert Emits(cand, a, b);
      EdgesBeforeComplete(cand, |rs|, |rs|);
    }
    if exists k :: 0 <= k < |cs| && cs[k].source == a && cs[k].target == b {
      var k :| 0 <= k < |cs| && cs[k].source == a && cs[k].target == b;
      EdgesBeforeShape(cand, |rs|, |rs|);
      EdgesBeforeOffered(cand, |rs|, |rs|);
      OfferedIsGenuine(rs, minStrength, cs[k]);
    }
  }

  /** A pair of positions a < b has an edge exactly when it qualifies. */
  lemma SynthesizeComplete(rs: seq<Resident>, minStrength: real)
    requires IdsArePositions(rs)
    ensures var cs := Synthesize(rs, minStrength);
      forall a: nat, b: nat | a < b < |rs| ::
        Qualifies(rs[a], rs[b], minStrength)
        <==> exists k :: 0 <= k < |cs| && cs[k].source == a && cs[k].target == b
  {
    forall a: nat, b: nat | a < b < |rs|
      ensures var cs := Synthesize(rs, minStrength);
        Qualifies(rs[a], rs[b], minStrength)
        <==> exists k :: 0 <= k < |cs| && cs[k].source == a && cs[k].target == b
    {
      PairHasEdgeIffQualifies(rs, minStrength, a, b);
    }
  }

  // ---------------------------------------------------------------------------
  // compute_connections reads a resident's profile, never the scores the
  // analysis writes back (centrality, boundary score, bridge flag).
  // ---------------------------------------------------------------------------

  /** r and s agree on every field compute_connections reads. */
  predicate SameProfile(r: Resident, s: Resident) {
    && r.id == s.id && r.room == s.room && r.subcommunities == s.subcommunities
    && r.classes == s.classes && r.freeBlocks == s.freeBlocks && r.interests == s.interests
  }

  ghost predicate SameProfiles(rs: seq<Resident>, ss: seq<Resident>) {
    |rs| == |ss| && forall i | 0 <= i < |rs| :: SameProfile(rs[i], ss[i])
  }

  lemma CandidateReadsProfile(r1: Resident, r2: Resident, s1: Resident, s2: Resident, minStrength: real, id: nat)
    requires SameProfile(r1, s1) && SameProfile(r2, s2)
    ensures Candidate(r1, r2, minStrength, id) == Candidate(s1, s2, minStrength, id)
  {
    assert SignalsOf(r1, r2) == SignalsOf(s1, s2);
  }

  /** Two candidate functions that agree on every pair and id build the same row. */
  lemma {:induction false} RowEdgesAgree(c1: CandidateFn, c2: CandidateFn, i: nat, j: nat, base: nat)
    requires forall a: nat, b: nat, id: nat :: c1(a, b, id) == c2(a, b, id)
    ensures RowEdges(c1, i, j, base) == RowEdges(c2, i, j, base)
    decreases j
  {
    if j > i + 1 {
      RowEdgesAgree(c1, c2, i, j - 1, base);
    }
  }

  lemma {:induction false} EdgesBeforeAgree(c1: CandidateFn, c2: CandidateFn, n: nat, i: nat)
    requires forall a: nat, b: nat, id: nat :: c1(a, b, id) == c2(a, b, id)
    ensures EdgesBefore(c1, n, i) == EdgesBefore(c2, n, i)
  {
    if i > 0 {
      EdgesBeforeAgree(c1, c2, n, i - 1);
      RowEdgesAgree(c1, c2, i - 1, n, |EdgesBefore(c1, n, i - 1)|);
    }
  }

  /**
   * Residents with the same profiles get the same connection list: rewriting
   * the scores and bridge flags never changes what compute_connections builds.
   */
  lemma SynthesizeReadsProfiles(rs: seq<Resident>, ss: seq<Resident>, minStrength: real)
    requires SameProfiles(rs, ss)
    ensures Synthesize(rs, minStrength) == Synthesize(ss, minStrength)
  {
    var c1, c2 := PairCandidate(rs, minStrength), PairCandidate(ss, minStrength);
    forall a: nat, b: nat, id: nat ensures c1(a, b, id) == c2(a, b, id) {
      if a < |rs| && b < |rs| {
        CandidateReadsProfile(rs[a], rs[b], ss[a], ss[b], minStrength, id);
      }
    }
    EdgesBeforeAgree(c1, c2, |rs|, |rs|);
  }
}
