/**
 * The vertices and edges of the community graph
 * (community_homology_engine.hpp:98-153). Contact fields, the class
 * schedule, flagged concerns and the never-written component id are not used by
 * any computation and are not part of this model.
 */
module Entities {
  import opened Time

  datatype ConnectionType =
    | SharedClass
    | ScheduleOverlap
    | SharedInterest
    | Roommate
    | FloorProximity
    | RaIntroduced
    | CheckinMention
    | Subcommunity

  datatype Resident = Resident(
    id: nat,
    room: string,
    subcommunities: set<string>,
    classes: seq<string>,
    freeBlocks: seq<TimeBlock>,
    interests: set<string>,
    lastRating: int,
    followUpNeeded: bool,
    // derived fields, written by the analysis
    centrality: real,
    boundaryScore: real,
    isBridge: bool)

  datatype Connection = Connection(
    id: nat,
    source: nat,
    target: nat,
    kind: ConnectionType,
    strength: real,
    isBridgeEdge: bool,
    touches: set<string>)

  /** The source indexes residents by id, so the id of a resident is its position. */
  ghost predicate IdsArePositions(rs: seq<Resident>) {
    forall i | 0 <= i < |rs| :: rs[i].id == i
  }

  ghost predicate EndpointsBelow(cs: seq<Connection>, n: nat) {
    forall k | 0 <= k < |cs| :: cs[k].source < n && cs[k].target < n
  }

  /** The connection joins u and v, in either direction. */
  predicate Joins(c: Connection, u: nat, v: nat) {
    (c.source == u && c.target == v) || (c.source == v && c.target == u)
  }
}
