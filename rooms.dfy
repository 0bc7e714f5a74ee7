/**
 * Room designators and floor proximity (community_homology_engine.hpp:536-545).
 * The source parses the first three characters of a room with std::stoi and
 * treats a parse failure as "not neighbours"; two rooms are neighbours when the
 * parsed numbers differ by at most 5.
 */
module Rooms {
  import opened Wrappers

  predicate IsDigit(c: char) {
    '0' <= c <= '9'
  }

  function DigitValue(c: char): nat
    requires IsDigit(c)
  {
    c as int - '0' as int
  }

  /** The longest prefix of s made of decimal digits. */
  function LeadingDigits(s: string): (ds: string)
    ensures |ds| <= |s| && ds == s[..|ds|]
    ensures forall k | 0 <= k < |ds| :: IsDigit(ds[k])
    ensures |ds| < |s| ==> !IsDigit(s[|ds|])
  {
    if s == [] || !IsDigit(s[0]) then [] else [s[0]] + LeadingDigits(s[1..])
  }

  /** The decimal value of a digit string, most significant digit first. */
  function DigitsValue(ds: string): nat
    requires forall k | 0 <= k < |ds| :: IsDigit(ds[k])
  {
    if ds == [] then 0 else 10 * DigitsValue(ds[..|ds| - 1]) + DigitValue(ds[|ds| - 1])
  }

  lemma {:induction false} DigitsValueBound(ds: string)
    requires forall k | 0 <= k < |ds| :: IsDigit(ds[k])
    ensures |ds| <= 3 ==> DigitsValue(ds) < 1000
    ensures |ds| <= 2 ==> DigitsValue(ds) < 100
    ensures |ds| <= 1 ==> DigitsValue(ds) < 10
  {
    if ds != [] {
      DigitsValueBound(ds[..|ds| - 1]);
    }
  }

  /** What room.substr(0, 3) yields. */
  function RoomPrefix(room: string): string {
    if |room| < 3 then room else room[..3]
  }

  /** std::stoi on the first three characters: None where it throws. */
  function ParseRoomNumber(room: string): (n: Option<nat>)
    ensures n.Some? <==> |room| > 0 && IsDigit(room[0])
    ensures n.Some? ==> n.value < 1000
  {
    var ds := LeadingDigits(RoomPrefix(room));
    DigitsValueBound(ds);
    if ds == [] then None else Some(DigitsValue(ds))
  }

  function AreNeighbors(room1: string, room2: string): bool {
    match (ParseRoomNumber(room1), ParseRoomNumber(room2))
    case (Some(r1), Some(r2)) => -5 <= r1 as int - r2 as int <= 5
    case _ => false
  }

  /** A room written with three leading digits parses to their decimal value. */
  lemma ThreeDigitRoom(room: string)
    requires |room| >= 3 && IsDigit(room[0]) && IsDigit(room[1]) && IsDigit(room[2])
    ensures ParseRoomNumber(room)
         == Some(100 * DigitValue(room[0]) + 10 * DigitValue(room[1]) + DigitValue(room[2]))
  {
    var p := RoomPrefix(room);
    assert p[1..][1..] == p[2..] == [room[2]];
    assert LeadingDigits(p[2..]) == [room[2]];
    assert LeadingDigits(p) == p;
    assert p[..|p| - 1] == [room[0], room[1]];
    assert [room[0], room[1]][..1] == [room[0]];
    assert [room[0]][..0] == [];
    assert DigitsValue([room[0]]) == DigitValue(room[0]);
    assert DigitsValue([room[0], room[1]]) == 10 * DigitValue(room[0]) + DigitValue(room[1]);
    assert DigitsValue(p) == 10 * DigitsValue([room[0], room[1]]) + DigitValue(room[2]);
  }

  lemma AreNeighborsSymmetric(room1: string, room2: string)
    ensures AreNeighbors(room1, room2) == AreNeighbors(room2, room1)
  {
  }

  /** A room whose designator starts with a digit is its own neighbour. */
  lemma NumericRoomIsOwnNeighbor(room: string)
    requires |room| > 0 && IsDigit(room[0])
    ensures AreNeighbors(room, room)
  {
  }

  /** A designator that does not start with a digit has no neighbours at all. */
  lemma NonNumericRoomHasNoNeighbors(room: string, other: string)
    requires |room| == 0 || !IsDigit(room[0])
    ensures !AreNeighbors(room, other) && !AreNeighbors(other, room)
  {
  }

  /** Only the first three characters matter. */
  lemma OnlyPrefixMatters(room1: string, room2: string, other: string)
    requires RoomPrefix(room1) == RoomPrefix(room2)
    ensures AreNeighbors(room1, other) == AreNeighbors(room2, other)
  {
  }
}
