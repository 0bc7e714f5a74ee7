/**
 * SchedulingOptimizer::find_optimal_event_times (community_homology_engine.hpp:1069-1137):
 * every hourly slot from 8:00 to 22:00 on each of the seven days is scored by
 * the residents free at that time, slots with fewer than five free residents
 * are dropped, and the rest are ranked by coverage and a topology bonus for
 * isolated and bridge residents. Coverage and bonuses are exact reals here.
 */
module Scheduling {
  import opened Time
  import opened Entities
  import opened Sorting
  import opened Graph

  datatype SlotScore = SlotScore(
    slot: TimeBlock,
    availableCount: nat,
    coverage: real,
    topologyScore: real,
    availableResidents: seq<nat>)

  const Days: nat := 7
  const FirstHour: nat := 8
  const EndHour: nat := 22
  /** Slots with fewer free residents than this are skipped. */
  const MinAttendance: nat := 5
  /** The default number of slots returned. */
  const DefaultTopN: int := 5
  /** A free resident whose boundary score exceeds IsolatedAbove adds IsolatedBonus; a bridge adds BridgeBonus. */
  const IsolatedAbove: real := 0.7
  const IsolatedBonus: real := 2.0
  const BridgeBonus: real := 1.5
  /** The largest bonus one resident can bring. */
  const MaxBonus: real := 3.5

  /** The hourly block of the given day starting at the given hour. */
  function Slot(day: nat, hour: nat): TimeBlock
    requires day < Days && hour < EndHour
  {
    TimeBlock(day as u8, (hour * 60) as u16, ((hour + 1) * 60) as u16)
  }

  /** Some free block of r overlaps slot. */
  predicate FreeAt(r: Resident, slot: TimeBlock) {
    exists k | 0 <= k < |r.freeBlocks| :: Overlaps(r.freeBlocks[k], slot)
  }

  /** The ids of the first i residents that are free at slot, in resident order. */
  ghost function FreeIds(rs: seq<Resident>, slot: TimeBlock, i: nat): (ids: seq<nat>)
    requires i <= |rs|
    ensures |ids| <= i
  {
    if i == 0 then []
    else FreeIds(rs, slot, i - 1) + (if FreeAt(rs[i - 1], slot) then [rs[i - 1].id] else [])
  }

  function Bonus(r: Resident): real {
    (if r.boundaryScore > IsolatedAbove then IsolatedBonus else 0.0) + (if r.isBridge then BridgeBonus else 0.0)
  }

  /** The topology bonus of the residents named by the first k ids. */
  function TopologyScore(rs: seq<Resident>, ids: seq<nat>, k: nat): (t: real)
    requires k <= |ids| && forall j | 0 <= j < |ids| :: ids[j] < |rs|
    ensures 0.0 <= t <= MaxBonus * k as real
  {
    if k == 0 then 0.0 else TopologyScore(rs, ids, k - 1) + Bonus(rs[ids[k - 1]])
  }

  /** What the slot of day and hour contributes: its score, when enough residents are free. */
  ghost function Candidate(rs: seq<Resident>, day: nat, hour: nat): (c: seq<SlotScore>)
    requires IdsArePositions(rs) && day < Days && hour < EndHour
    ensures |c| <= 1
  {
    var slot := Slot(day, hour);
    FreeIdsBelow(rs, slot, |rs|);
    var ids := FreeIds(rs, slot, |rs|);
    if |ids| < MinAttendance then []
    else [SlotScore(slot, |ids|, (|ids| as real) / (|rs| as real), TopologyScore(rs, ids, |ids|), ids)]
  }

  /** The candidates of day from FirstHour up to (not including) hour. */
  ghost function DayCandidates(rs: seq<Resident>, day: nat, hour: nat): seq<SlotScore>
    requires IdsArePositions(rs) && day < Days && FirstHour <= hour <= EndHour
    decreases hour
  {
    if hour == FirstHour then []
    else DayCandidates(rs, day, hour - 1) + Candidate(rs, day, hour - 1)
  }

  /**
   * The candidates of the days before day, day by day, each from FirstHour up
   * to endHour. The only caller, FindOptimalEventTimes, passes EndHour.
   */
  ghost function WeekCandidates(rs: seq<Resident>, day: nat, endHour: nat): seq<SlotScore>
    requires IdsArePositions(rs) && day <= Days && FirstHour <= endHour <= EndHour
  {
    if day == 0 then [] else WeekCandidates(rs, day - 1, endHour) + DayCandidates(rs, day - 1, endHour)
  }

  /** The ranking key: coverage in percent plus the topology bonus. */
  function Combined(s: SlotScore): real {
    s.coverage * 100.0 + s.topologyScore
  }

  // ---------------------------------------------------------------------------
  // What the candidates promise
  // ---------------------------------------------------------------------------

  predicate Increasing(s: seq<nat>) {
    forall p, q | 0 <= p < q < |s| :: s[p] < s[q]
  }

  /**
   * A ranked slot: an hour between 8:00 and 22:00 on one of the seven days,
   * listing (once each, in order) exactly the residents free then, at least
   * five of them, with coverage their share of the community and a bonus of
   * at most 3.5 per resident.
   */
  ghost predicate WellFormed(rs: seq<Resident>, s: SlotScore) {
    && s.slot.day as int < Days
    && FirstHour * 60 <= s.slot.startMin as int < EndHour * 60
    && s.slot.startMin as int % 60 == 0
    && s.slot.endMin as int == s.slot.startMin as int + 60
    && s.availableCount == |s.availableResidents| >= MinAttendance
    && Increasing(s.availableResidents)
    && (forall j | 0 <= j < |s.availableResidents| ::
          s.availableResidents[j] < |rs| && FreeAt(rs[s.availableResidents[j]], s.slot))
    && (forall x | 0 <= x < |rs| && FreeAt(rs[x], s.slot) :: x in s.availableResidents)
    && |s.availableResidents| <= |rs|
    && s.coverage == (|s.availableResidents| as real) / (|rs| as real)
    && 0.0 < s.coverage <= 1.0
    && 0.0 <= s.topologyScore <= MaxBonus * |s.availableResidents| as real
  }

  /** With ids as positions, FreeIds lists exactly the free residents below i, in increasing order. */
  lemma {:induction false} FreeIdsMembers(rs: seq<Resident>, slot: TimeBlock, i: nat)
    requires IdsArePositions(rs) && i <= |rs|
    ensures Increasing(FreeIds(rs, slot, i))
    ensures forall j | 0 <= j < |FreeIds(rs, slot, i)| ::
      FreeIds(rs, slot, i)[j] < i && FreeAt(rs[FreeIds(rs, slot, i)[j]], slot)
    ensures forall x | 0 <= x < i && FreeAt(rs[x], slot) :: x in FreeIds(rs, slot, i)
  {
    if i > 0 {
      FreeIdsMembers(rs, slot, i - 1);
    }
  }

  lemma FreeIdsBelow(rs: seq<Resident>, slot: TimeBlock, i: nat)
    requires IdsArePositions(rs) && i <= |rs|
    ensures forall j | 0 <= j < |FreeIds(rs, slot, i)| :: FreeIds(rs, slot, i)[j] < |rs|
  {
    FreeIdsMembers(rs, slot, i);
  }

  ghost predicate AllWellFormed(rs: seq<Resident>, ss: seq<SlotScore>) {
    forall s | s in ss :: WellFormed(rs, s)
  }

  /** Candidate yields at most one slot, and that slot is well formed. */
  lemma CandidateWellFormed(rs: seq<Resident>, day: nat, hour: nat)
    requires IdsArePositions(rs) && day < Days && FirstHour <= hour < EndHour
    ensures AllWellFormed(rs, Candidate(rs, day, hour))
  {
    var slot := Slot(day, hour);
    FreeIdsMembers(rs, slot, |rs|);
    var ids := FreeIds(rs, slot, |rs|);
    if |ids| >= MinAttendance {
      var s := Candidate(rs, day, hour)[0];
      assert s.slot == slot && s.availableResidents == ids;
      assert slot.startMin as int == 60 * hour;
      assert WellFormed(rs, s);
    }
  }

  /** A day has at most one candidate per hour. */
  lemma {:induction false} DayCandidatesCount(rs: seq<Resident>, day: nat, hour: nat)
    requires IdsArePositions(rs) && day < Days && FirstHour <= hour <= EndHour
    ensures |DayCandidates(rs, day, hour)| <= hour - FirstHour
    decreases hour
  {
    if hour > FirstHour {
      DayCandidatesCount(rs, day, hour - 1);
    }
  }

  /** The candidates of one day are well formed. */
  lemma {:induction false} DayCandidatesWellFormed(rs: seq<Resident>, day: nat, hour: nat)
    requires IdsArePositions(rs) && day < Days && FirstHour <= hour <= EndHour
    ensures AllWellFormed(rs, DayCandidates(rs, day, hour))
    decreases hour
  {
    if hour > FirstHour {
      DayCandidatesWellFormed(rs, day, hour - 1);
      CandidateWellFormed(rs, day, hour - 1);
      AppendWellFormed(rs, DayCandidates(rs, day, hour - 1), Candidate(rs, day, hour - 1));
    }
  }

  /** The week has at most one candidate per hourly slot. */
  lemma {:induction false} WeekCandidatesCount(rs: seq<Resident>, day: nat, endHour: nat)
    requires IdsArePositions(rs) && day <= Days && FirstHour <= endHour <= EndHour
    ensures |WeekCandidates(rs, day, endHour)| <= 14 * day
  {
    if day > 0 {
      WeekCandidatesCount(rs, day - 1, endHour);
      DayCandidatesCount(rs, day - 1, endHour);
    }
  }

  /** Every candidate of the week is well formed. */
  lemma {:induction false} WeekCandidatesWellFormed(rs: seq<Resident>, day: nat, endHour: nat)
    requires IdsArePositions(rs) && day <= Days && FirstHour <= endHour <= EndHour
    ensures AllWellFormed(rs, WeekCandidates(rs, day, endHour))
  {
    if day > 0 {
      WeekCandidatesWellFormed(rs, day - 1, endHour);
      DayCandidatesWellFormed(rs, day - 1, endHour);
      AppendWellFormed(rs, WeekCandidates(rs, day - 1, endHour), DayCandidates(rs, day - 1, endHour));
    }
  }

  lemma AppendWellFormed(rs: seq<Resident>, before: seq<SlotScore>, after: seq<SlotScore>)
    requires AllWellFormed(rs, before) && AllWellFormed(rs, after)
    ensures AllWellFormed(rs, before + after)
  {
    forall s | s in before + after ensures WellFormed(rs, s) {
      assert s in before || s in after;
    }
  }

  // ---------------------------------------------------------------------------
  // The loops of find_optimal_event_times
  // ---------------------------------------------------------------------------

  /** The scan of r's free blocks, which stops at the first one overlapping slot. */
  method IsFree(r: Resident, slot: TimeBlock) returns (free: bool)
    ensures free == FreeAt(r, slot)
  {
    free := false;
    var k := 0;
    while k < |r.freeBlocks| && !free
      invariant k <= |r.freeBlocks|
      invariant free <==> exists j | 0 <= j < k :: Overlaps(r.freeBlocks[j], slot)
    {
      if Overlaps(r.freeBlocks[k], slot) {
        free := true;
      }
      k := k + 1;
    }
  }

  /** The residents free at slot, each pushed once, in resident order. */
  method FreeResidents(rs: seq<Resident>, slot: TimeBlock) returns (ids: seq<nat>)
    ensures ids == FreeIds(rs, slot, |rs|)
  {
    ids := [];
    var i := 0;
    while i < |rs|
      invariant i <= |rs|
      invariant ids == FreeIds(rs, slot, i)
    {
      var free := IsFree(rs[i], slot);
      if free {
        ids := ids + [rs[i].id];
      }
      i := i + 1;
    }
  }

  /** The topology bonus loop over the free residents. */
  method Topology(rs: seq<Resident>, ids: seq<nat>) returns (bonus: real)
    requires forall j | 0 <= j < |ids| :: ids[j] < |rs|
    ensures bonus == TopologyScore(rs, ids, |ids|)
  {
    bonus := 0.0;
    var k := 0;
    while k < |ids|
      invariant k <= |ids|
      invariant bonus == TopologyScore(rs, ids, k)
    {
      var r := rs[ids[k]];
      if r.boundaryScore > IsolatedAbove {
        bonus := bonus + IsolatedBonus;
      }
      if r.isBridge {
        bonus := bonus + BridgeBonus;
      }
      k := k + 1;
    }
  }

  /** One slot: its score, or nothing when fewer than five residents are free. */
  method ScoreSlot(rs: seq<Resident>, day: nat, hour: nat) returns (scored: seq<SlotScore>)
    requires IdsArePositions(rs) && day < Days && hour < EndHour
    ensures scored == Candidate(rs, day, hour)
  {
    var slot := Slot(day, hour);
    var ids := FreeResidents(rs, slot);
    if |ids| < MinAttendance {
      return [];
    }
    FreeIdsBelow(rs, slot, |rs|);
    var coverage := (|ids| as real) / (|rs| as real);
    var bonus := Topology(rs, ids);
    scored := [SlotScore(slot, |ids|, coverage, bonus, ids)];
  }

  /** The hours of one day, in order, up to endHour. */
  method ScoreDay(rs: seq<Resident>, day: nat, endHour: nat) returns (scores: seq<SlotScore>)
    requires IdsArePositions(rs) && day < Days && FirstHour <= endHour <= EndHour
    ensures scores == DayCandidates(rs, day, endHour)
  {
    scores := [];
    var hour := FirstHour;
    while hour < endHour
      invariant FirstHour <= hour <= endHour
      invariant scores == DayCandidates(rs, day, hour)
    {
      var scored := ScoreSlot(rs, day, hour);
      var next := hour + 1;
      assert DayCandidates(rs, day, next) == DayCandidates(rs, day, hour) + Candidate(rs, day, hour);
      scores := scores + scored;
      hour := next;
    }
    assert hour == endHour;
  }

  /** The days of the week, in order, each up to endHour. */
  method ScoreWeek(rs: seq<Resident>, endHour: nat) returns (scores: seq<SlotScore>)
    requires IdsArePositions(rs) && FirstHour <= endHour <= EndHour
    ensures scores == WeekCandidates(rs, Days, endHour)
  {
    scores := [];
    var day := 0;
    while day < Days
      invariant day <= Days
      invariant scores == WeekCandidates(rs, day, endHour)
    {
      var scored := ScoreDay(rs, day, endHour);
      var next := day + 1;
      assert WeekCandidates(rs, next, endHour) == WeekCandidates(rs, day, endHour) + DayCandidates(rs, day, endHour);
      scores := scores + scored;
      day := next;
    }
    assert day == Days;
  }

  /**
   * find_optimal_event_times for the residents rs: the candidate slots ranked
   * by Combined, largest first, cut to topN when there are more. A negative
   * topN becomes a huge size_t in the source, so it cuts nothing. The last
   * hour is a parameter, EndHour at the one call.
   */
  method RankSlots(rs: seq<Resident>, topN: int, endHour: nat) returns (best: seq<SlotScore>, ghost ranked: seq<SlotScore>)
    requires IdsArePositions(rs) && FirstHour <= endHour <= EndHour
    ensures multiset(ranked) == multiset(WeekCandidates(rs, Days, endHour)) && Descending(ranked, Combined)
    ensures best == if 0 <= topN < |ranked| then ranked[..topN] else ranked
    ensures Descending(best, Combined)
    ensures 0 <= topN ==> |best| <= topN
    ensures |best| <= 98
    ensures forall s | s in best :: WellFormed(rs, s)
  {
    var scores := ScoreWeek(rs, endHour);
    WeekCandidatesCount(rs, Days, endHour);
    WeekCandidatesWellFormed(rs, Days, endHour);
    assert AllWellFormed(rs, scores);
    var sorted := SortedCopy(scores, Combined);
    ranked := sorted;
    forall s | s in sorted ensures WellFormed(rs, s) {
      assert s in multiset(sorted);
      assert s in multiset(scores);
    }
    best := sorted;
    if 0 <= topN && |sorted| > topN {
      best := sorted[..topN];
    }
  }

  /** find_optimal_event_times(G, topN). */
  method FindOptimalEventTimes(G: CommunityGraph, topN: int) returns (best: seq<SlotScore>, ghost ranked: seq<SlotScore>)
    requires G.Valid()
    ensures multiset(ranked) == multiset(WeekCandidates(G.residents, Days, EndHour)) && Descending(ranked, Combined)
    ensures best == if 0 <= topN < |ranked| then ranked[..topN] else ranked
    ensures Descending(best, Combined)
    ensures 0 <= topN ==> |best| <= topN
    ensures |best| <= 98
    ensures forall s | s in best :: WellFormed(G.residents, s)
  {
    var endHour := EndHour;
    best, ranked := RankSlots(G.residents, topN, endHour);
  }
}
