/**
 * PersistentHomology::compute (community_homology_engine.hpp:985-1062): a
 * single-linkage filtration. The connections are taken strongest first; each
 * one that joins two trees of a union-find closes the tree of its target,
 * which is recorded as a dimension-0 barcode when it holds more than one
 * resident. Barcodes are then sorted by persistence into stable and fragile
 * groups.
 */
module Persistence {
  import opened Entities
  import opened Connectivity
  import opened UnionFind
  import opened Sorting
  import opened Graph

  datatype Barcode = Barcode(dimension: int, birth: real, death: real, residents: seq<nat>)

  datatype Result = Result(
    barcodes: seq<Barcode>,
    stableGroups: seq<seq<nat>>,
    fragileGroups: seq<seq<nat>>,
    emergingGroups: seq<seq<nat>>)

  /** The filtration value of the first barcode when there are no connections. */
  const NoConnectionTop: real := 1.0

  /** The share of the top strength that sets the persistence threshold. */
  const ThresholdShare: real := 0.3

  function StrengthOf(c: Connection): real {
    c.strength
  }

  function Persistence(b: Barcode): real {
    b.death - b.birth
  }

  /** max_conn_strength: the first strength of the sorted list, 1 when it is empty. */
  function Top(sorted: seq<Connection>): real {
    if sorted == [] then NoConnectionTop else sorted[0].strength
  }

  // ---------------------------------------------------------------------------
  // The filtration as a specification
  // ---------------------------------------------------------------------------

  /** The vertices below i connected to v under cs, in increasing order. */
  ghost function Tree(n: nat, cs: seq<Connection>, v: nat, i: nat): seq<nat> {
    if i == 0 then []
    else Tree(n, cs, v, i - 1) + (if Reach(n, cs, i - 1, v) then [i - 1] else [])
  }

  /**
   * What connection c adds once the connections cs are in: a barcode for the
   * target's tree when c joins two trees and that tree has several residents.
   */
  ghost function Emitted(n: nat, cs: seq<Connection>, c: Connection, top: real): seq<Barcode> {
    if !Reach(n, cs, c.source, c.target) && |Tree(n, cs, c.target, n)| > 1
    then [Barcode(0, 0.0, top - c.strength, Tree(n, cs, c.target, n))]
    else []
  }

  /** The barcodes recorded by the first k connections of sorted. */
  ghost function Filtration(n: nat, sorted: seq<Connection>, top: real, k: nat): seq<Barcode>
    requires k <= |sorted|
  {
    if k == 0 then []
    else Filtration(n, sorted, top, k - 1) + Emitted(n, sorted[..k - 1], sorted[k - 1], top)
  }

  /** The residents of the barcodes whose persistence exceeds twice the threshold. */
  function StableGroups(bs: seq<Barcode>, threshold: real): seq<seq<nat>> {
    if bs == [] then []
    else
      StableGroups(bs[..|bs| - 1], threshold)
      + (if Persistence(bs[|bs| - 1]) > threshold * 2.0 then [bs[|bs| - 1].residents] else [])
  }

  /** The residents of the other barcodes whose persistence is below half the threshold. */
  function FragileGroups(bs: seq<Barcode>, threshold: real): seq<seq<nat>> {
    if bs == [] then []
    else
      FragileGroups(bs[..|bs| - 1], threshold)
      + (if !(Persistence(bs[|bs| - 1]) > threshold * 2.0) && Persistence(bs[|bs| - 1]) < threshold * 0.5
         then [bs[|bs| - 1].residents] else [])
  }

  // ---------------------------------------------------------------------------
  // What the filtration promises
  // ---------------------------------------------------------------------------

  lemma {:induction false} TreeMembers(n: nat, cs: seq<Connection>, v: nat, i: nat, x: nat)
    ensures x in Tree(n, cs, v, i) <==> x < i && Reach(n, cs, x, v)
  {
    if i > 0 {
      TreeMembers(n, cs, v, i - 1, x);
    }
  }

  /**
   * Every barcode is of dimension 0, is born at 0 and names more than one
   * resident, all of them below n.
   */
  lemma {:induction false} BarcodesShape(n: nat, sorted: seq<Connection>, top: real, k: nat)
    requires k <= |sorted|
    ensures forall b | b in Filtration(n, sorted, top, k) ::
      b.dimension == 0 && b.birth == 0.0 && |b.residents| > 1
      && (forall j | 0 <= j < |b.residents| :: b.residents[j] < n)
  {
    if k > 0 {
      BarcodesShape(n, sorted, top, k - 1);
      var tree := Tree(n, sorted[..k - 1], sorted[k - 1].target, n);
      forall j | 0 <= j < |tree| ensures tree[j] < n {
        TreeMembers(n, sorted[..k - 1], sorted[k - 1].target, n, tree[j]);
      }
    }
  }

  /** With the strongest connection on top, no barcode dies before 0 or after top less the kth strength. */
  lemma {:induction false} DeathsBounded(n: nat, sorted: seq<Connection>, k: nat)
    requires 0 < k <= |sorted| && Descending(sorted, StrengthOf)
    ensures forall b | b in Filtration(n, sorted, Top(sorted), k) ::
      0.0 <= b.death <= Top(sorted) - sorted[k - 1].strength
  {
    assert StrengthOf(sorted[0]) >= StrengthOf(sorted[k - 1]) || k == 1;
    if k > 1 {
      DeathsBounded(n, sorted, k - 1);
      assert StrengthOf(sorted[k - 2]) >= StrengthOf(sorted[k - 1]);
    }
  }

  /** The deaths of bs never decrease from left to right. */
  predicate DeathsSorted(bs: seq<Barcode>) {
    forall p, q | 0 <= p < q < |bs| :: bs[p].death <= bs[q].death
  }

  /** What a connection emits is at most one barcode, dying at top less its strength. */
  lemma EmittedDeath(n: nat, cs: seq<Connection>, c: Connection, top: real)
    ensures |Emitted(n, cs, c, top)| <= 1
    ensures forall e | e in Emitted(n, cs, c, top) :: e.death == top - c.strength
  {
  }

  /** Appending barcodes that die no earlier than everything before keeps deaths sorted. */
  lemma SortedAppend(before: seq<Barcode>, added: seq<Barcode>, d: real)
    requires DeathsSorted(before)
    requires forall b | b in before :: b.death <= d
    requires forall e | e in added :: e.death == d
    ensures DeathsSorted(before + added)
  {
    var bs := before + added;
    forall p, q | 0 <= p < q < |bs| ensures bs[p].death <= bs[q].death {
      if q >= |before| {
        assert bs[q] == added[q - |before|];
        if p < |before| {
          assert bs[p] == before[p];
        } else {
          assert bs[p] == added[p - |before|];
        }
      } else {
        assert bs[p] == before[p] && bs[q] == before[q];
      }
    }
  }

  /** Deaths never decrease along the barcode list when the connections come strongest first. */
  lemma {:induction false} DeathsNonDecreasing(n: nat, sorted: seq<Connection>, k: nat)
    requires k <= |sorted| && Descending(sorted, StrengthOf)
    ensures DeathsSorted(Filtration(n, sorted, Top(sorted), k))
  {
    if k > 0 {
      DeathsNonDecreasing(n, sorted, k - 1);
      var before := Filtration(n, sorted, Top(sorted), k - 1);
      var added := Emitted(n, sorted[..k - 1], sorted[k - 1], Top(sorted));
      var d := Top(sorted) - sorted[k - 1].strength;
      EmittedDeath(n, sorted[..k - 1], sorted[k - 1], Top(sorted));
      if k > 1 {
        DeathsBounded(n, sorted, k - 1);
        assert StrengthOf(sorted[k - 2]) >= StrengthOf(sorted[k - 1]);
      }
      SortedAppend(before, added, d);
    }
  }

  /** A barcode is never both stable and fragile, and each lands in at most one group. */
  lemma {:induction false} GroupsDisjoint(bs: seq<Barcode>, threshold: real)
    requires threshold >= 0.0
    ensures forall b | b in bs :: !(Persistence(b) > threshold * 2.0 && Persistence(b) < threshold * 0.5)
    ensures |StableGroups(bs, threshold)| + |FragileGroups(bs, threshold)| <= |bs|
  {
    if bs != [] {
      GroupsDisjoint(bs[..|bs| - 1], threshold);
      assert bs == bs[..|bs| - 1] + [bs[|bs| - 1]];
    }
  }

  // ---------------------------------------------------------------------------
  // The loops of compute
  // ---------------------------------------------------------------------------

  /** The residents whose root is root, which is the root of v: v's tree, in order. */
  method CollectTree(parent: array<nat>, ghost rank: seq<nat>, ghost bound: nat, ghost cs: seq<Connection>, root: nat, ghost v: nat)
    returns (members: seq<nat>)
    requires Represents(parent[..], rank, bound, parent.Length, cs)
    requires v < parent.Length && root == Root(parent[..], rank, bound, v)
    ensures members == Tree(parent.Length, cs, v, parent.Length)
  {
    members := [];
    var i := 0;
    while i < parent.Length
      invariant i <= parent.Length
      invariant members == Tree(parent.Length, cs, v, i)
    {
      var r := Find(parent, rank, bound, i);
      var next := i + 1;
      TreeStep(parent[..], rank, bound, parent.Length, cs, v, i, next);
      if r == root {
        members := members + [i];
      }
      i := next;
    }
    assert i == parent.Length;
  }

  /** One more vertex: it joins the tree exactly when its root is v's. */
  lemma TreeStep(p: seq<nat>, rank: seq<nat>, bound: nat, n: nat, cs: seq<Connection>, v: nat, i: nat, next: nat)
    requires Represents(p, rank, bound, n, cs) && v < n && i < n && next == i + 1
    ensures Tree(n, cs, v, next)
      == Tree(n, cs, v, i) + (if Root(p, rank, bound, i) == Root(p, rank, bound, v) then [i] else [])
  {
  }

  /**
   * One connection of the filtration: when its endpoints have different
   * roots, record the target's tree (if it has several residents) and hang
   * the target's root under the source's.
   */
  method Absorb(parent: array<nat>, birthTime: array<real>, ghost rank: seq<nat>, ghost bound: nat,
                ghost cs: seq<Connection>, c: Connection, top: real)
    returns (emitted: seq<Barcode>, ghost rank': seq<nat>, ghost bound': nat)
    requires Represents(parent[..], rank, bound, parent.Length, cs) && InRange(c, parent.Length)
    requires birthTime.Length == parent.Length && forall i | 0 <= i < birthTime.Length :: birthTime[i] == 0.0
    modifies parent
    ensures Represents(parent[..], rank', bound', parent.Length, cs + [c])
    ensures emitted == Emitted(parent.Length, cs, c, top)
    ensures |Roots(parent[..])| + |emitted| <= |Roots(old(parent[..]))|
  {
    rank', bound', emitted := rank, bound, [];
    ghost var p := parent[..];
    var n := parent.Length;
    var rootS := Find(parent, rank, bound, c.source);
    var rootT := Find(parent, rank, bound, c.target);
    if rootS == rootT {
      RepresentsKeep(p, rank, bound, n, cs, c);
      return;
    }
    emitted, rank', bound' := Merge(parent, birthTime, rank, bound, cs, c, top, rootS, rootT);
  }

  /** The merging branch of Absorb: the endpoints' roots rootS and rootT differ. */
  method Merge(parent: array<nat>, birthTime: array<real>, ghost rank: seq<nat>, ghost bound: nat,
               ghost cs: seq<Connection>, c: Connection, top: real, rootS: nat, rootT: nat)
    returns (emitted: seq<Barcode>, ghost rank': seq<nat>, ghost bound': nat)
    requires Represents(parent[..], rank, bound, parent.Length, cs) && InRange(c, parent.Length)
    requires rootS == Root(parent[..], rank, bound, c.source) && rootT == Root(parent[..], rank, bound, c.target)
    requires rootS != rootT
    requires birthTime.Length == parent.Length && forall i | 0 <= i < birthTime.Length :: birthTime[i] == 0.0
    modifies parent
    ensures Represents(parent[..], rank', bound', parent.Length, cs + [c])
    ensures emitted == Emitted(parent.Length, cs, c, top)
    ensures |Roots(parent[..])| + |emitted| <= |Roots(old(parent[..]))|
  {
    ghost var p := parent[..];
    var n := parent.Length;
    assert !Reach(n, cs, c.source, c.target);
    emitted := TreeBarcode(parent, birthTime, rank, bound, cs, c, top, rootT);
    LinkReversed(p, rank, bound, n, cs, c);
    parent[rootT] := rootS;
    assert parent[..] == p[rootT := rootS];
    rank', bound' := rank[rootS := bound], bound + 1;
  }

  /** The barcode of the target's tree, when that tree has several residents. */
  method TreeBarcode(parent: array<nat>, birthTime: array<real>, ghost rank: seq<nat>, ghost bound: nat,
                     ghost cs: seq<Connection>, c: Connection, top: real, rootT: nat)
    returns (emitted: seq<Barcode>)
    requires Represents(parent[..], rank, bound, parent.Length, cs) && InRange(c, parent.Length)
    requires rootT == Root(parent[..], rank, bound, c.target)
    requires birthTime.Length == parent.Length && forall i | 0 <= i < birthTime.Length :: birthTime[i] == 0.0
    ensures !Reach(parent.Length, cs, c.source, c.target) ==> emitted == Emitted(parent.Length, cs, c, top)
  {
    var members := CollectTree(parent, rank, bound, cs, rootT, c.target);
    emitted := [];
    if |members| > 1 {
      emitted := [Barcode(0, birthTime[rootT], top - c.strength, members)];
    }
    EmittedApart(parent.Length, cs, c, top);
  }

  /** When c joins two trees, it emits the target's tree exactly when that has several residents. */
  lemma EmittedApart(n: nat, cs: seq<Connection>, c: Connection, top: real)
    ensures !Reach(n, cs, c.source, c.target) ==>
      Emitted(n, cs, c, top)
        == if |Tree(n, cs, c.target, n)| > 1 then [Barcode(0, 0.0, top - c.strength, Tree(n, cs, c.target, n))] else []
  {
  }

  /** Hanging the target's root under the source's root represents the grown list too. */
  lemma LinkReversed(p: seq<nat>, rank: seq<nat>, bound: nat, n: nat, cs: seq<Connection>, c: Connection)
    requires Represents(p, rank, bound, n, cs) && InRange(c, n)
    requires Root(p, rank, bound, c.source) != Root(p, rank, bound, c.target)
    ensures var a, b := Root(p, rank, bound, c.source), Root(p, rank, bound, c.target);
      && Represents(p[b := a], rank[a := bound], bound + 1, n, cs + [c])
      && |Roots(p[b := a])| + 1 == |Roots(p)|
  {
    var a, b := Root(p, rank, bound, c.source), Root(p, rank, bound, c.target);
    var flipped := c.(source := c.target, target := c.source);
    UniteStep(p, rank, bound, n, cs, flipped, b, a);
    var p', rank' := p[b := a], rank[a := bound];
    forall u: nat, v: nat | u < n && v < n
      ensures Root(p', rank', bound + 1, u) == Root(p', rank', bound + 1, v) <==> Reach(n, cs + [c], u, v)
    {
      ReachAppend(n, cs, c, u, v);
      ReachAppend(n, cs, flipped, u, v);
    }
  }

  /** The classification loop over the barcodes. */
  method Classify(bs: seq<Barcode>, threshold: real) returns (stable: seq<seq<nat>>, fragile: seq<seq<nat>>)
    ensures stable == StableGroups(bs, threshold)
    ensures fragile == FragileGroups(bs, threshold)
  {
    stable, fragile := [], [];
    var k := 0;
    while k < |bs|
      invariant k <= |bs|
      invariant stable == StableGroups(bs[..k], threshold)
      invariant fragile == FragileGroups(bs[..k], threshold)
    {
      assert bs[..k + 1][..k] == bs[..k];
      var b := bs[k];
      if Persistence(b) > threshold * 2.0 {
        stable := stable + [b.residents];
      } else if Persistence(b) < threshold * 0.5 {
        fragile := fragile + [b.residents];
      }
      k := k + 1;
    }
    assert bs[..k] == bs;
  }

  /**
   * The filtration loop of compute: a fresh forest over n residents, every
   * birth time 0, absorbing the connections of order one by one. Each barcode
   * costs a root and one root is always left, so there are fewer barcodes
   * than residents.
   */
  method Filter(n: nat, order: seq<Connection>, top: real) returns (barcodes: seq<Barcode>)
    requires forall c | c in order :: InRange(c, n)
    ensures barcodes == Filtration(n, order, top, |order|)
    ensures n > 0 ==> |barcodes| < n
    ensures n == 0 ==> barcodes == []
  {
    var parent, rank, bound := NewForest(n);
    var birthTime := new real[n](i => 0.0);
    barcodes := [];
    var k := 0;
    while k < |order|
      invariant k <= |order| && parent.Length == n && birthTime.Length == n
      invariant forall i | 0 <= i < n :: birthTime[i] == 0.0
      invariant Represents(parent[..], rank, bound, n, order[..k])
      invariant barcodes == Filtration(n, order, top, k)
      invariant |Roots(parent[..])| + |barcodes| <= n
    {
      assert order[k] in order;
      barcodes, rank, bound := FilterStep(parent, birthTime, rank, bound, order, k, top, barcodes);
      k := k + 1;
    }
    if n > 0 {
      RootsNonEmpty(parent[..], rank, bound);
    }
  }

  /** One round of the filtration loop: absorb order[k]. */
  method FilterStep(parent: array<nat>, birthTime: array<real>, ghost rank: seq<nat>, ghost bound: nat,
                    order: seq<Connection>, k: nat, top: real, barcodes: seq<Barcode>)
    returns (barcodes': seq<Barcode>, ghost rank': seq<nat>, ghost bound': nat)
    requires k < |order| && InRange(order[k], parent.Length)
    requires birthTime.Length == parent.Length && forall i | 0 <= i < birthTime.Length :: birthTime[i] == 0.0
    requires Represents(parent[..], rank, bound, parent.Length, order[..k])
    requires barcodes == Filtration(parent.Length, order, top, k)
    requires |Roots(parent[..])| + |barcodes| <= parent.Length
    modifies parent
    ensures Represents(parent[..], rank', bound', parent.Length, order[..k + 1])
    ensures barcodes' == Filtration(parent.Length, order, top, k + 1)
    ensures |Roots(parent[..])| + |barcodes'| <= parent.Length
  {
    var next := k + 1;
    PrefixStep(order, k, next);
    var emitted;
    emitted, rank', bound' := Absorb(parent, birthTime, rank, bound, order[..k], order[k], top);
    barcodes' := barcodes + emitted;
  }

  /** A non-empty forest has a root. */
  lemma RootsNonEmpty(p: seq<nat>, rank: seq<nat>, bound: nat)
    requires Forest(p, rank, bound) && |p| > 0
    ensures |Roots(p)| >= 1
  {
    VerticesFacts(|p|);
    assert Root(p, rank, bound, 0) in Roots(p);
  }

  /** Sorting keeps every endpoint below n. */
  lemma SortedInRange(cs: seq<Connection>, order: seq<Connection>, n: nat)
    requires EndpointsBelow(cs, n) && multiset(order) == multiset(cs)
    ensures forall c | c in order :: InRange(c, n)
  {
    forall c | c in order ensures InRange(c, n) {
      assert c in multiset(order);
      assert c in multiset(cs);
      var k :| 0 <= k < |cs| && cs[k] == c;
    }
  }

  /** The first connection of the strongest-first order is the strongest of all. */
  lemma TopIsMaximum(cs: seq<Connection>, order: seq<Connection>)
    requires multiset(order) == multiset(cs) && Descending(order, StrengthOf)
    ensures forall c | c in cs :: c.strength <= Top(order)
  {
    forall c | c in cs ensures c.strength <= Top(order) {
      assert c in multiset(cs);
      var k :| 0 <= k < |order| && order[k] == c;
      assert k == 0 || StrengthOf(order[0]) >= StrengthOf(order[k]);
    }
  }

  /**
   * PersistentHomology::compute over the connections of G, strongest first.
   * The sorted order among equal strengths is left open, as std::sort leaves it.
   */
  method Compute(G: CommunityGraph) returns (r: Result, ghost sorted: seq<Connection>)
    requires G.Valid()
    ensures multiset(sorted) == multiset(G.connections) && Descending(sorted, StrengthOf)
    ensures r.barcodes == Filtration(|G.residents|, sorted, Top(sorted), |sorted|)
    ensures forall c | c in G.connections :: c.strength <= Top(sorted)
    ensures |G.residents| > 0 ==> |r.barcodes| < |G.residents|
    ensures |G.residents| == 0 ==> r.barcodes == []
    ensures r.stableGroups == StableGroups(r.barcodes, Top(sorted) * ThresholdShare)
    ensures r.fragileGroups == FragileGroups(r.barcodes, Top(sorted) * ThresholdShare)
    ensures r.emergingGroups == []
  {
    r, sorted := ComputeOver(|G.residents|, G.connections);
  }

  /** compute for n residents and the connections cs, every endpoint below n. */
  method ComputeOver(n: nat, cs: seq<Connection>) returns (r: Result, ghost sorted: seq<Connection>)
    requires EndpointsBelow(cs, n)
    ensures multiset(sorted) == multiset(cs) && Descending(sorted, StrengthOf)
    ensures r.barcodes == Filtration(n, sorted, Top(sorted), |sorted|)
    ensures forall c | c in cs :: c.strength <= Top(sorted)
    ensures n > 0 ==> |r.barcodes| < n
    ensures n == 0 ==> r.barcodes == []
    ensures r.stableGroups == StableGroups(r.barcodes, Top(sorted) * ThresholdShare)
    ensures r.fragileGroups == FragileGroups(r.barcodes, Top(sorted) * ThresholdShare)
    ensures r.emergingGroups == []
  {
    var order := SortedCopy(cs, StrengthOf);
    sorted := order;
    SortedInRange(cs, order, n);
    var top := Top(order);
    var barcodes := Filter(n, order, top);
    TopIsMaximum(cs, order);
    var threshold := top * ThresholdShare;
    var stable, fragile := Classify(barcodes, threshold);
    r := Result(barcodes, stable, fragile, []);
  }
}
