/**
 * Connectivity of residents 0 .. n-1 under a connection list: the meaning of
 * beta_0 that h0 counts (community_homology_engine.hpp:341-362, 620-643).
 * Connections with an endpoint at or above n join nothing, as in
 * IntersectionGraph::h0.
 */
module Connectivity {
  import opened Entities

  /** The vertices 0 .. n-1. */
  ghost function Vertices(n: nat): set<nat> {
    if n == 0 then {} else Vertices(n - 1) + {n - 1}
  }

  lemma {:induction false} VerticesFacts(n: nat)
    ensures forall v: nat :: v in Vertices(n) <==> v < n
    ensures |Vertices(n)| == n
  {
    if n > 0 {
      VerticesFacts(n - 1);
    }
  }

  /** Both ends of the connection are vertices. */
  predicate InRange(c: Connection, n: nat) {
    c.source < n && c.target < n
  }

  /** Some connection with both ends below n joins u and v. */
  ghost predicate Linked(n: nat, cs: seq<Connection>, u: nat, v: nat) {
    exists k :: 0 <= k < |cs| && InRange(cs[k], n) && Joins(cs[k], u, v)
  }

  /** A non-empty walk through vertices, each step along a linking connection. */
  ghost predicate IsPath(n: nat, cs: seq<Connection>, p: seq<nat>) {
    && |p| > 0
    && (forall i | 0 <= i < |p| :: p[i] < n)
    && (forall i | 0 <= i < |p| - 1 :: Linked(n, cs, p[i], p[i + 1]))
  }

  /** The reflexive-transitive closure of Linked on the vertices. */
  ghost predicate Reach(n: nat, cs: seq<Connection>, u: nat, v: nat) {
    exists p :: IsPath(n, cs, p) && p[0] == u && p[|p| - 1] == v
  }

  /** The connected component of v. */
  ghost function Class(n: nat, cs: seq<Connection>, v: nat): set<nat> {
    set u | u in Vertices(n) && Reach(n, cs, v, u)
  }

  /** The connected components; beta_0 is their number. */
  ghost function Components(n: nat, cs: seq<Connection>): set<set<nat>> {
    set v | v in Vertices(n) :: Class(n, cs, v)
  }

  // ---------------------------------------------------------------------------
  // Reach is an equivalence on the vertices.
  // ---------------------------------------------------------------------------

  lemma ReachRefl(n: nat, cs: seq<Connection>, u: nat)
    requires u < n
    ensures Reach(n, cs, u, u)
  {
    assert IsPath(n, cs, [u]);
  }

  lemma ReachBelow(n: nat, cs: seq<Connection>, u: nat, v: nat)
    requires Reach(n, cs, u, v)
    ensures u < n && v < n
  {
    var p :| IsPath(n, cs, p) && p[0] == u && p[|p| - 1] == v;
    assert p[0] < n && p[|p| - 1] < n;
  }

  lemma ReachStep(n: nat, cs: seq<Connection>, u: nat, v: nat)
    requires Linked(n, cs, u, v)
    ensures Reach(n, cs, u, v)
  {
    var k :| 0 <= k < |cs| && InRange(cs[k], n) && Joins(cs[k], u, v);
    assert IsPath(n, cs, [u, v]);
  }

  lemma ReachTrans(n: nat, cs: seq<Connection>, u: nat, v: nat, w: nat)
    requires Reach(n, cs, u, v) && Reach(n, cs, v, w)
    ensures Reach(n, cs, u, w)
  {
    var p :| IsPath(n, cs, p) && p[0] == u && p[|p| - 1] == v;
    var q :| IsPath(n, cs, q) && q[0] == v && q[|q| - 1] == w;
    var r := p + q[1..];
    forall i | 0 <= i < |r| - 1 ensures Linked(n, cs, r[i], r[i + 1]) {
      if i < |p| - 1 {
        assert r[i] == p[i] && r[i + 1] == p[i + 1];
      } else {
        assert r[i] == q[i - |p| + 1] && r[i + 1] == q[i - |p| + 2];
      }
    }
    assert IsPath(n, cs, r);
  }

  lemma ReachSym(n: nat, cs: seq<Connection>, u: nat, v: nat)
    requires Reach(n, cs, u, v)
    ensures Reach(n, cs, v, u)
  {
    var p :| IsPath(n, cs, p) && p[0] == u && p[|p| - 1] == v;
    var r := seq(|p|, i requires 0 <= i < |p| => p[|p| - 1 - i]);
    forall i | 0 <= i < |r| - 1 ensures Linked(n, cs, r[i], r[i + 1]) {
      var j := |p| - 2 - i;
      assert Linked(n, cs, p[j], p[j + 1]);
      var k :| 0 <= k < |cs| && InRange(cs[k], n) && Joins(cs[k], p[j], p[j + 1]);
      assert Joins(cs[k], r[i], r[i + 1]);
    }
    assert IsPath(n, cs, r);
  }

  /** Two vertices have the same component exactly when they reach each other. */
  lemma ClassIffReach(n: nat, cs: seq<Connection>, u: nat, v: nat)
    requires u < n && v < n
    ensures Class(n, cs, u) == Class(n, cs, v) <==> Reach(n, cs, u, v)
  {
    VerticesFacts(n);
    if Class(n, cs, u) == Class(n, cs, v) {
      ReachRefl(n, cs, v);
      assert v in Class(n, cs, v);
    }
    if Reach(n, cs, u, v) {
      forall w | w in Class(n, cs, v) ensures w in Class(n, cs, u) {
        ReachTrans(n, cs, u, v, w);
      }
      forall w | w in Class(n, cs, u) ensures w in Class(n, cs, v) {
        ReachSym(n, cs, u, v);
        ReachTrans(n, cs, v, u, w);
      }
    }
  }

  // ---------------------------------------------------------------------------
  // Adding one connection: the union-find step.
  // ---------------------------------------------------------------------------

  /** What reaching looks like after connection c is appended to cs. */
  ghost predicate ReachWith(n: nat, cs: seq<Connection>, c: Connection, u: nat, v: nat) {
    || Reach(n, cs, u, v)
    || (InRange(c, n)
        && ((Reach(n, cs, u, c.source) && Reach(n, cs, c.target, v))
            || (Reach(n, cs, u, c.target) && Reach(n, cs, c.source, v))))
  }

  lemma {:induction false} PathWith(n: nat, cs: seq<Connection>, c: Connection, p: seq<nat>)
    requires IsPath(n, cs + [c], p)
    ensures ReachWith(n, cs, c, p[0], p[|p| - 1])
    decreases |p|
  {
    var u, w := p[0], p[|p| - 1];
    if |p| == 1 {
      ReachRefl(n, cs, u);
    } else {
      var q := p[..|p| - 1];
      assert IsPath(n, cs + [c], q);
      PathWith(n, cs, c, q);
      var w' := q[|q| - 1];
      assert Linked(n, cs + [c], w', w);
      var k :| 0 <= k < |cs + [c]| && InRange((cs + [c])[k], n) && Joins((cs + [c])[k], w', w);
      if k < |cs| {
        assert Linked(n, cs, w', w) by { assert (cs + [c])[k] == cs[k]; }
        ReachStep(n, cs, w', w);
        if Reach(n, cs, u, w') {
          ReachTrans(n, cs, u, w', w);
        } else if Reach(n, cs, u, c.source) && Reach(n, cs, c.target, w') {
          ReachTrans(n, cs, c.target, w', w);
        } else {
          ReachTrans(n, cs, c.source, w', w);
        }
      } else {
        assert Joins(c, w', w);
        ReachRefl(n, cs, w);
        if w' == c.source && w == c.target {
          if Reach(n, cs, u, c.target) && Reach(n, cs, c.source, w') {
            assert Reach(n, cs, u, w);
          }
        } else {
          if Reach(n, cs, u, c.source) && Reach(n, cs, c.target, w') {
            assert Reach(n, cs, u, w);
          }
        }
      }
    }
  }

  /** Appending a connection never loses a path. */
  lemma ReachGrows(n: nat, cs: seq<Connection>, c: Connection, u: nat, v: nat)
    requires Reach(n, cs, u, v)
    ensures Reach(n, cs + [c], u, v)
  {
    var p :| IsPath(n, cs, p) && p[0] == u && p[|p| - 1] == v;
    forall i | 0 <= i < |p| - 1 ensures Linked(n, cs + [c], p[i], p[i + 1]) {
      assert Linked(n, cs, p[i], p[i + 1]);
      var k :| 0 <= k < |cs| && InRange(cs[k], n) && Joins(cs[k], p[i], p[i + 1]);
      assert (cs + [c])[k] == cs[k];
    }
    assert IsPath(n, cs + [c], p);
  }

  /** Reaching after appending c: either it was possible before, or it uses c. */
  lemma ReachAppend(n: nat, cs: seq<Connection>, c: Connection, u: nat, v: nat)
    ensures Reach(n, cs + [c], u, v) <==> ReachWith(n, cs, c, u, v)
  {
    if Reach(n, cs + [c], u, v) {
      var p :| IsPath(n, cs + [c], p) && p[0] == u && p[|p| - 1] == v;
      PathWith(n, cs, c, p);
    }
    if ReachWith(n, cs, c, u, v) {
      if Reach(n, cs, u, v) {
        ReachGrows(n, cs, c, u, v);
      } else {
        var cs' := cs + [c];
        assert Linked(n, cs', c.source, c.target) by {
          assert cs'[|cs|] == c && Joins(c, c.source, c.target);
        }
        ReachStep(n, cs', c.source, c.target);
        ReachSym(n, cs', c.source, c.target);
        if Reach(n, cs, u, c.source) && Reach(n, cs, c.target, v) {
          ReachGrows(n, cs, c, u, c.source);
          ReachGrows(n, cs, c, c.target, v);
          ReachTrans(n, cs', u, c.source, c.target);
          ReachTrans(n, cs', u, c.target, v);
        } else {
          ReachGrows(n, cs, c, u, c.target);
          ReachGrows(n, cs, c, c.source, v);
          ReachTrans(n, cs', u, c.target, c.source);
          ReachTrans(n, cs', u, c.source, v);
        }
      }
    }
  }

  // ---------------------------------------------------------------------------
  // Counting images of a set.
  // ---------------------------------------------------------------------------

  ghost function Image<A, B>(d: set<A>, f: A -> B): set<B> {
    set x | x in d :: f(x)
  }

  /** Two maps with the same kernel on d have images of the same size. */
  lemma {:induction false} SameKernelSameImageSize<A, B, C>(d: set<A>, f: A -> B, g: A -> C)
    requires forall x, y | x in d && y in d :: f(x) == f(y) <==> g(x) == g(y)
    ensures |Image(d, f)| == |Image(d, g)|
    decreases |d|
  {
    if d != {} {
      var x :| x in d;
      var d' := d - {x};
      SameKernelSameImageSize(d', f, g);
      var fd', gd' := Image(d', f), Image(d', g);
      var fd, gd := Image(d, f), Image(d, g);
      assert fd == fd' + {f(x)};
      assert gd == gd' + {g(x)};
      if f(x) in fd' {
        var y :| y in d' && f(y) == f(x);
        assert g(x) in gd';
        assert fd == fd' && gd == gd';
      } else {
        assert |fd| == |fd'| + 1 && |gd| == |gd'| + 1;
      }
    }
  }

  /** An image is no larger than its domain. */
  lemma {:induction false} ImageNoLarger<A, B>(d: set<A>, f: A -> B)
    ensures |Image(d, f)| <= |d|
    decreases |d|
  {
    if d != {} {
      var x :| x in d;
      var d' := d - {x};
      ImageNoLarger(d', f);
      assert Image(d, f) == Image(d', f) + {f(x)};
    }
  }

  // ---------------------------------------------------------------------------
  // beta_0.
  // ---------------------------------------------------------------------------

  /** No vertices, no components; otherwise between one and n of them. */
  lemma ComponentsBounds(n: nat, cs: seq<Connection>)
    ensures n == 0 ==> |Components(n, cs)| == 0
    ensures n > 0 ==> 1 <= |Components(n, cs)| <= n
  {
    VerticesFacts(n);
    if n > 0 {
      assert Class(n, cs, 0) in Components(n, cs);
      var cl := v => Class(n, cs, v);
      ImageNoLarger(Vertices(n), cl);
      assert Components(n, cs) == Image(Vertices(n), cl);
    }
  }

  /** A path with a step uses some connection inside the vertex range. */
  lemma PathUsesEdge(n: nat, cs: seq<Connection>, p: seq<nat>)
    requires IsPath(n, cs, p) && |p| > 1
    ensures exists k :: 0 <= k < |cs| && InRange(cs[k], n)
  {
    assert Linked(n, cs, p[0], p[1]);
  }

  /** Without a connection inside the vertex range nothing reaches anything else. */
  lemma ReachWithoutEdges(n: nat, cs: seq<Connection>, u: nat, v: nat)
    requires forall k | 0 <= k < |cs| :: !InRange(cs[k], n)
    requires Reach(n, cs, u, v)
    ensures u == v
  {
    var p :| IsPath(n, cs, p) && p[0] == u && p[|p| - 1] == v;
    if |p| > 1 {
      PathUsesEdge(n, cs, p);
    }
  }

  /** Without a connection inside the vertex range every resident is its own component. */
  lemma ComponentsWithoutEdges(n: nat, cs: seq<Connection>)
    requires forall k | 0 <= k < |cs| :: !InRange(cs[k], n)
    ensures |Components(n, cs)| == n
  {
    VerticesFacts(n);
    var id := (v: nat) => v;
    var cl := v => Class(n, cs, v);
    forall u, v | u in Vertices(n) && v in Vertices(n)
      ensures id(u) == id(v) <==> cl(u) == cl(v)
    {
      ClassIffReach(n, cs, u, v);
      if u == v {
        ReachRefl(n, cs, u);
      } else if Reach(n, cs, u, v) {
        ReachWithoutEdges(n, cs, u, v);
      }
    }
    SameKernelSameImageSize(Vertices(n), id, cl);
    assert Image(Vertices(n), id) == Vertices(n);
    assert Components(n, cs) == Image(Vertices(n), cl);
  }

  /** Reaching depends only on which connections are present, not on their order. */
  lemma ReachOrderFree(n: nat, cs1: seq<Connection>, cs2: seq<Connection>, u: nat, v: nat)
    requires forall c :: c in cs1 ==> c in cs2
    requires Reach(n, cs1, u, v)
    ensures Reach(n, cs2, u, v)
  {
    var p :| IsPath(n, cs1, p) && p[0] == u && p[|p| - 1] == v;
    forall i | 0 <= i < |p| - 1 ensures Linked(n, cs2, p[i], p[i + 1]) {
      var k :| 0 <= k < |cs1| && InRange(cs1[k], n) && Joins(cs1[k], p[i], p[i + 1]);
      assert cs1[k] in cs2;
      var k2 :| 0 <= k2 < |cs2| && cs2[k2] == cs1[k];
    }
    assert IsPath(n, cs2, p);
  }

  /** beta_0 does not depend on the order (or repetition) of the connections. */
  lemma ComponentsOrderFree(n: nat, cs1: seq<Connection>, cs2: seq<Connection>)
    requires forall c :: c in cs1 <==> c in cs2
    ensures Components(n, cs1) == Components(n, cs2)
  {
    forall v ensures Class(n, cs1, v) == Class(n, cs2, v) {
      forall u | u in Class(n, cs1, v) ensures u in Class(n, cs2, v) {
        ReachOrderFree(n, cs1, cs2, v, u);
      }
      forall u | u in Class(n, cs2, v) ensures u in Class(n, cs1, v) {
        ReachOrderFree(n, cs2, cs1, v, u);
      }
    }
  }
}
