/**
 * The union-find that h0 and the persistence filtration run over a parent
 * array indexed by position (community_homology_engine.hpp:341-362, 620-643,
 * 1011-1047). find follows parent pointers to the root; path compression only
 * shortens those paths and does not change any root, so it is not modelled.
 */
module UnionFind {
  import opened Entities
  import opened Connectivity

  /**
   * Parent pointers stay inside the array, and a ghost rank rises strictly
   * toward the root and stays below bound, so following parents terminates.
   */
  ghost predicate Forest(p: seq<nat>, rank: seq<nat>, bound: nat) {
    && |rank| == |p|
    && (forall x | 0 <= x < |p| :: p[x] < |p| && rank[x] < bound)
    && (forall x | 0 <= x < |p| && p[x] != x :: rank[x] < rank[p[x]])
  }

  /** The root reached from x by following parent pointers. */
  ghost function Root(p: seq<nat>, rank: seq<nat>, bound: nat, x: nat): (r: nat)
    requires Forest(p, rank, bound) && x < |p|
    ensures r < |p| && p[r] == r
    decreases bound - rank[x]
  {
    if p[x] == x then x else Root(p, rank, bound, p[x])
  }

  /** The roots of the forest: one per tree. */
  ghost function Roots(p: seq<nat>): set<nat> {
    set x | x in Vertices(|p|) && x < |p| && p[x] == x
  }

  /** The forest represents the components of cs: same root exactly when connected. */
  ghost predicate Represents(p: seq<nat>, rank: seq<nat>, bound: nat, n: nat, cs: seq<Connection>) {
    && |p| == n
    && Forest(p, rank, bound)
    && (forall u: nat, v: nat | u < n && v < n ::
          Root(p, rank, bound, u) == Root(p, rank, bound, v) <==> Reach(n, cs, u, v))
  }

  /** find: a loop up the parent pointers. */
  method Find(parent: array<nat>, ghost rank: seq<nat>, ghost bound: nat, x: nat) returns (r: nat)
    requires Forest(parent[..], rank, bound) && x < parent.Length
    ensures r == Root(parent[..], rank, bound, x)
  {
    r := x;
    while parent[r] != r
      invariant r < parent.Length
      invariant Root(parent[..], rank, bound, r) == Root(parent[..], rank, bound, x)
      decreases bound - rank[r]
    {
      r := parent[r];
    }
  }

  // ---------------------------------------------------------------------------
  // Linking two roots.
  // ---------------------------------------------------------------------------

  lemma {:induction false} LinkRootAt(p: seq<nat>, rank: seq<nat>, bound: nat, a: nat, b: nat, x: nat)
    requires Forest(p, rank, bound) && a < |p| && b < |p| && p[a] == a && p[b] == b && a != b
    requires Forest(p[a := b], rank[b := bound], bound + 1)
    requires x < |p|
    ensures Root(p[a := b], rank[b := bound], bound + 1, x)
         == if Root(p, rank, bound, x) == a then b else Root(p, rank, bound, x)
    decreases bound - rank[x]
  {
    if p[x] != x {
      LinkRootAt(p, rank, bound, a, b, p[x]);
    }
  }

  /** Hanging root a under root b keeps a forest and sends exactly a's tree to b. */
  lemma LinkRoots(p: seq<nat>, rank: seq<nat>, bound: nat, a: nat, b: nat)
    requires Forest(p, rank, bound) && a < |p| && b < |p| && p[a] == a && p[b] == b && a != b
    ensures Forest(p[a := b], rank[b := bound], bound + 1)
    ensures forall x | 0 <= x < |p| ::
      Root(p[a := b], rank[b := bound], bound + 1, x)
        == if Root(p, rank, bound, x) == a then b else Root(p, rank, bound, x)
    ensures Roots(p[a := b]) == Roots(p) - {a}
  {
    var p', rank' := p[a := b], rank[b := bound];
    forall x | 0 <= x < |p'| && p'[x] != x ensures rank'[x] < rank'[p'[x]] {
      if x == a {
        assert rank'[x] == rank[a] < bound == rank'[b];
      } else if p[x] == b {
        assert rank'[x] == rank[x] < rank[b] < bound == rank'[b];
      } else {
        assert rank'[x] == rank[x] && rank'[p'[x]] == rank[p[x]];
      }
    }
    forall x | 0 <= x < |p| ensures
      Root(p', rank', bound + 1, x) == if Root(p, rank, bound, x) == a then b else Root(p, rank, bound, x)
    {
      LinkRootAt(p, rank, bound, a, b, x);
    }
  }

  /** With no connections every vertex is its own root and its own component. */
  lemma RepresentsStart(n: nat)
    ensures Represents(seq(n, i => i), seq(n, i => 0), 1, n, [])
    ensures Roots(seq(n, i => i)) == Vertices(n)
  {
    var p, rank := seq(n, i => i), seq(n, i => 0);
    assert Forest(p, rank, 1);
    forall u: nat, v: nat | u < n && v < n
      ensures Root(p, rank, 1, u) == Root(p, rank, 1, v) <==> Reach(n, [], u, v)
    {
      assert Root(p, rank, 1, u) == u && Root(p, rank, 1, v) == v;
      if u == v {
        ReachRefl(n, [], u);
      } else if Reach(n, [], u, v) {
        ReachWithoutEdges(n, [], u, v);
      }
    }
    VerticesFacts(n);
    assert Roots(p) == Vertices(n);
  }

  /** A connection whose endpoints are already connected (or out of range) changes nothing. */
  lemma RepresentsKeep(p: seq<nat>, rank: seq<nat>, bound: nat, n: nat, cs: seq<Connection>, c: Connection)
    requires Represents(p, rank, bound, n, cs)
    requires InRange(c, n) ==> Root(p, rank, bound, c.source) == Root(p, rank, bound, c.target)
    ensures Represents(p, rank, bound, n, cs + [c])
  {
    forall u: nat, v: nat | u < n && v < n
      ensures Root(p, rank, bound, u) == Root(p, rank, bound, v) <==> Reach(n, cs + [c], u, v)
    {
      ReachAppend(n, cs, c, u, v);
      if InRange(c, n) {
        if Reach(n, cs, u, c.source) && Reach(n, cs, c.target, v) {
          ReachTrans(n, cs, u, c.source, c.target);
          ReachTrans(n, cs, u, c.target, v);
        } else if Reach(n, cs, u, c.target) && Reach(n, cs, c.source, v) {
          ReachSym(n, cs, c.source, c.target);
          ReachTrans(n, cs, u, c.target, c.source);
          ReachTrans(n, cs, u, c.source, v);
        }
      }
    }
  }

  /** Linking the two roots of a new connection represents the grown list. */
  lemma RepresentsLink(p: seq<nat>, rank: seq<nat>, bound: nat, n: nat, cs: seq<Connection>, c: Connection)
    requires Represents(p, rank, bound, n, cs) && InRange(c, n)
    requires Root(p, rank, bound, c.source) != Root(p, rank, bound, c.target)
    ensures var a, b := Root(p, rank, bound, c.source), Root(p, rank, bound, c.target);
      Represents(p[a := b], rank[b := bound], bound + 1, n, cs + [c])
  {
    var a, b := Root(p, rank, bound, c.source), Root(p, rank, bound, c.target);
    LinkRoots(p, rank, bound, a, b);
    var p', rank' := p[a := b], rank[b := bound];
    forall u: nat, v: nat | u < n && v < n
      ensures Root(p', rank', bound + 1, u) == Root(p', rank', bound + 1, v) <==> Reach(n, cs + [c], u, v)
    {
      ReachAppend(n, cs, c, u, v);
      ReachRefl(n, cs, c.source);
      ReachRefl(n, cs, c.target);
      var ru, rv := Root(p, rank, bound, u), Root(p, rank, bound, v);
      // Root(x) == a exactly when x reaches the source, == b exactly when it reaches the target.
      assert ru == a <==> Reach(n, cs, u, c.source);
      assert ru == b <==> Reach(n, cs, u, c.target);
      assert rv == a <==> Reach(n, cs, v, c.source);
      assert rv == b <==> Reach(n, cs, v, c.target);
      if Reach(n, cs, v, c.source) {
        ReachSym(n, cs, v, c.source);
      }
      if Reach(n, cs, v, c.target) {
        ReachSym(n, cs, v, c.target);
      }
      if Reach(n, cs, c.source, v) {
        ReachSym(n, cs, c.source, v);
      }
      if Reach(n, cs, c.target, v) {
        ReachSym(n, cs, c.target, v);
      }
    }
  }

  /** The root of every vertex (0 beyond the array, where it is never asked). */
  ghost function RootOf(p: seq<nat>, rank: seq<nat>, bound: nat): nat -> nat
    requires Forest(p, rank, bound)
  {
    (x: nat) => if x < |p| then Root(p, rank, bound, x) else 0
  }

  /** In a forest the roots are exactly the roots reached from the vertices. */
  lemma RootsAreImage(p: seq<nat>, rank: seq<nat>, bound: nat)
    requires Forest(p, rank, bound)
    ensures Image(Vertices(|p|), RootOf(p, rank, bound)) == Roots(p)
  {
    VerticesFacts(|p|);
    var f := RootOf(p, rank, bound);
    forall r | r in Roots(p) ensures r in Image(Vertices(|p|), f) {
      assert f(r) == r;
    }
  }

  /** When the forest represents cs, its distinct roots are as many as the components. */
  lemma RootsCountComponents(p: seq<nat>, rank: seq<nat>, bound: nat, n: nat, cs: seq<Connection>)
    requires Represents(p, rank, bound, n, cs)
    ensures |Image(Vertices(n), RootOf(p, rank, bound))| == |Components(n, cs)|
  {
    VerticesFacts(n);
    var rootOf := RootOf(p, rank, bound);
    var classOf := v => Class(n, cs, v);
    forall u, v | u in Vertices(n) && v in Vertices(n)
      ensures rootOf(u) == rootOf(v) <==> classOf(u) == classOf(v)
    {
      ClassIffReach(n, cs, u, v);
    }
    SameKernelSameImageSize(Vertices(n), rootOf, classOf);
    assert Components(n, cs) == Image(Vertices(n), classOf);
  }

  // ---------------------------------------------------------------------------
  // beta_0 by union-find.
  // ---------------------------------------------------------------------------

  /** The effect of one connection on the forest, with a and b the roots of its endpoints. */
  lemma UniteStep(p: seq<nat>, rank: seq<nat>, bound: nat, n: nat, cs: seq<Connection>, c: Connection, a: nat, b: nat)
    requires Represents(p, rank, bound, n, cs) && InRange(c, n)
    requires a == Root(p, rank, bound, c.source) && b == Root(p, rank, bound, c.target)
    ensures a != b ==> Represents(p[a := b], rank[b := bound], bound + 1, n, cs + [c])
    ensures a != b ==> |Roots(p[a := b])| + 1 == |Roots(p)|
    ensures a == b ==> Represents(p, rank, bound, n, cs + [c])
  {
    if a != b {
      RepresentsLink(p, rank, bound, n, cs, c);
      LinkRoots(p, rank, bound, a, b);
      VerticesFacts(n);
      assert a in Roots(p);
    } else {
      RepresentsKeep(p, rank, bound, n, cs, c);
    }
  }

  /**
   * One step of the h0 loop: parent[find(source)] = find(target) for a
   * connection inside the vertex range. linked says whether two trees merged,
   * which removes exactly one root.
   */
  method Unite(parent: array<nat>, ghost rank: seq<nat>, ghost bound: nat, ghost cs: seq<Connection>, c: Connection)
    returns (ghost rank': seq<nat>, ghost bound': nat, ghost linked: bool)
    requires Represents(parent[..], rank, bound, parent.Length, cs)
    modifies parent
    ensures Represents(parent[..], rank', bound', parent.Length, cs + [c])
    ensures |Roots(parent[..])| + (if linked then 1 else 0) == |Roots(old(parent[..]))|
  {
    rank', bound', linked := rank, bound, false;
    ghost var p := parent[..];
    var n := parent.Length;
    if c.source < n && c.target < n {
      var rt := Find(parent, rank, bound, c.target);
      var rs := Find(parent, rank, bound, c.source);
      UniteStep(p, rank, bound, n, cs, c, rs, rt);
      parent[rs] := rt;
      assert parent[..] == p[rs := rt];
      if rs != rt {
        rank', bound', linked := rank[rt := bound], bound + 1, true;
        assert Represents(p[rs := rt], rank', bound', n, cs + [c]);
        assert |Roots(p[rs := rt])| + 1 == |Roots(p)|;
        return;
      } else {
        assert p[rs := rt] == p;
        return;
      }
    } else {
      RepresentsKeep(p, rank, bound, n, cs, c);
    }
  }

  /** Adding vertex i adds its image. */
  lemma ImageStep(i: nat, f: nat -> nat)
    ensures Image(Vertices(i + 1), f) == Image(Vertices(i), f) + {f(i)}
  {
    VerticesFacts(i);
    VerticesFacts(i + 1);
    assert Vertices(i + 1) == Vertices(i) + {i};
  }

  /** The second loop of h0: the number of distinct roots of the vertices. */
  method CountRoots(parent: array<nat>, ghost rank: seq<nat>, ghost bound: nat) returns (count: nat)
    requires Forest(parent[..], rank, bound)
    ensures count == |Image(Vertices(parent.Length), RootOf(parent[..], rank, bound))|
  {
    var roots: set<nat> := {};
    var i := 0;
    ghost var rootOf := RootOf(parent[..], rank, bound);
    while i < parent.Length
      invariant i <= parent.Length
      invariant roots == Image(Vertices(i), rootOf)
    {
      var r := Find(parent, rank, bound, i);
      ImageStep(i, rootOf);
      roots := roots + {r};
      i := i + 1;
    }
    count := |roots|;
  }

  /** The initial forest of h0 and of the filtration: every vertex its own root. */
  method NewForest(n: nat) returns (parent: array<nat>, ghost rank: seq<nat>, ghost bound: nat)
    ensures fresh(parent) && parent.Length == n
    ensures Represents(parent[..], rank, bound, n, [])
    ensures |Roots(parent[..])| == n
  {
    parent := new nat[n](i => i);
    rank, bound := seq(n, i => 0), 1;
    assert parent[..] == seq(n, i => i);
    RepresentsStart(n);
    VerticesFacts(n);
  }

  /** The prefix of length next is the prefix of length k and one more element. */
  lemma PrefixStep<T>(s: seq<T>, k: nat, next: nat)
    requires k < |s| && next == k + 1
    ensures s[..next] == s[..k] + [s[k]]
  {
  }

  /**
   * The union-find count of h0: one link per connection joining two trees, then
   * the number of distinct roots. It equals the number of components, and each
   * connection removes at most one, so count + |cs| >= n.
   */
  method CountComponents(n: nat, cs: seq<Connection>) returns (count: nat)
    ensures count == |Components(n, cs)|
    ensures count + |cs| >= n
  {
    if n == 0 {
      ComponentsBounds(n, cs);
      return 0;
    }
    var parent, rank, bound := NewForest(n);
    ghost var links := 0;
    var k := 0;
    while k < |cs|
      invariant k <= |cs|
      invariant Represents(parent[..], rank, bound, n, cs[..k])
      invariant |Roots(parent[..])| + links == n && links <= k
    {
      var next := k + 1;
      PrefixStep(cs, k, next);
      ghost var linked;
      rank, bound, linked := Unite(parent, rank, bound, cs[..k], cs[k]);
      if linked {
        links := links + 1;
      }
      k := next;
    }
    assert cs[..k] == cs;
    count := CountRoots(parent, rank, bound);
    RootsAreImage(parent[..], rank, bound);
    RootsCountComponents(parent[..], rank, bound, n, cs);
  }
}
