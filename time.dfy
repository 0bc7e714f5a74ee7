/**
 * Weekly time blocks: a day code and a half-open range of minutes from midnight
 * (community_homology_engine.hpp:76-92). The fields are unsigned 8- and 16-bit
 * integers in the source; the 16-bit result of overlap_minutes wraps around.
 */
module Time {

  newtype u8 = x: int | 0 <= x < 0x100
  newtype u16 = x: int | 0 <= x < 0x1_0000

  datatype TimeBlock = TimeBlock(day: u8, startMin: u16, endMin: u16)

  /** A block whose range does not run backwards. */
  predicate Ordered(b: TimeBlock) {
    b.startMin <= b.endMin
  }

  function Length(b: TimeBlock): int {
    b.endMin as int - b.startMin as int
  }

  /** The integers lo, lo + 1, ..., hi - 1. */
  ghost function Range(lo: int, hi: int): set<int>
    decreases hi - lo
  {
    if hi <= lo then {} else Range(lo, hi - 1) + {hi - 1}
  }

  /** The set of minutes a block covers: [startMin, endMin). */
  ghost function Minutes(b: TimeBlock): set<int> {
    Range(b.startMin as int, b.endMin as int)
  }

  function Overlaps(a: TimeBlock, b: TimeBlock): bool {
    if a.day != b.day then false
    else !(a.endMin <= b.startMin || a.startMin >= b.endMin)
  }

  /** The source subtracts two uint16 values and returns the result as uint16. */
  function OverlapMinutes(a: TimeBlock, b: TimeBlock): (m: u16)
    ensures a.day != b.day ==> m == 0
    ensures Ordered(a) && Ordered(b) ==> m as int <= Length(a) && m as int <= Length(b)
  {
    if !Overlaps(a, b) then 0
    else
      var overlapStart := if a.startMin < b.startMin then b.startMin else a.startMin;
      var overlapEnd := if a.endMin < b.endMin then a.endMin else b.endMin;
      ((overlapEnd as int - overlapStart as int) % 0x1_0000) as u16
  }

  /** Half-open ranges that only touch share no minute. */
  lemma TouchingBlocksShareNothing(a: TimeBlock, b: TimeBlock)
    requires a.endMin == b.startMin || b.endMin == a.startMin
    ensures !Overlaps(a, b) && OverlapMinutes(a, b) == 0
  {
  }

  lemma OverlapSymmetric(a: TimeBlock, b: TimeBlock)
    ensures Overlaps(a, b) == Overlaps(b, a)
    ensures OverlapMinutes(a, b) == OverlapMinutes(b, a)
  {
  }

  lemma {:induction false} RangeFacts(lo: int, hi: int)
    ensures forall m :: m in Range(lo, hi) <==> lo <= m < hi
    ensures |Range(lo, hi)| == if lo <= hi then hi - lo else 0
    decreases hi - lo
  {
    if lo < hi {
      RangeFacts(lo, hi - 1);
    }
  }

  /** Two ranges of integers share exactly the range between the later start and the earlier end. */
  lemma RangeIntersection(lo1: int, hi1: int, lo2: int, hi2: int)
    ensures Range(lo1, hi1) * Range(lo2, hi2)
         == Range(if lo1 < lo2 then lo2 else lo1, if hi1 < hi2 then hi1 else hi2)
  {
    var lo, hi := if lo1 < lo2 then lo2 else lo1, if hi1 < hi2 then hi1 else hi2;
    RangeFacts(lo1, hi1);
    RangeFacts(lo2, hi2);
    RangeFacts(lo, hi);
    forall m ensures m in Range(lo1, hi1) * Range(lo2, hi2) <==> m in Range(lo, hi) {
    }
  }

  /**
   * For well-formed blocks the overlap is exactly the number of minutes both
   * blocks cover, and no wrap-around happens.
   */
  lemma OverlapIsSharedMinutes(a: TimeBlock, b: TimeBlock)
    requires Ordered(a) && Ordered(b)
    ensures OverlapMinutes(a, b) as int == if a.day == b.day then |Minutes(a) * Minutes(b)| else 0
  {
    if a.day == b.day {
      var lo := if a.startMin < b.startMin then b.startMin as int else a.startMin as int;
      var hi := if a.endMin < b.endMin then a.endMin as int else b.endMin as int;
      RangeIntersection(a.startMin as int, a.endMin as int, b.startMin as int, b.endMin as int);
      RangeFacts(lo, hi);
      assert |Minutes(a) * Minutes(b)| == if lo <= hi then hi - lo else 0;
    }
  }

  /** With a backwards block the 16-bit subtraction wraps around. */
  lemma BackwardsBlockWraps()
    ensures OverlapMinutes(TimeBlock(0, 50, 30), TimeBlock(0, 10, 100)) == 65516
  {
  }
}
