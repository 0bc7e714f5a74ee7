/**
 * find_cycles (community_homology_engine.hpp:374-418): a depth-first search that
 * records each vertex's DFS parent and depth, and on a back edge from v to a
 * shallower visited vertex u (other than v's parent) walks the parent pointers
 * from v up to u, which gives one cycle.
 *
 * The search keeps a ghost stack, the current DFS path. With a symmetric
 * adjacency, a visited neighbour shallower than v is always on that path, so the
 * parent walk reaches u and the cycle it lists is a genuine cycle.
 */
module Cycles {
  import opened Entities
  import opened Adjacency
  import opened Connectivity

  /** The parent recorded for a DFS root: UINT32_MAX. */
  const NoParent: nat := 0xFFFF_FFFF

  /**
   * A cycle as find_cycles lists it: three or more distinct vertices, each a
   * neighbour of the next (a tree edge, child first) and the last a neighbour
   * of the first (the back edge).
   */
  ghost predicate IsCycle(adj: AdjMap, c: seq<nat>) {
    && |c| >= 3
    && (forall i, j | 0 <= i < j < |c| :: c[i] != c[j])
    && (forall i | 0 <= i < |c| - 1 :: c[i] in Neighbors(adj, c[i + 1]))
    && c[|c| - 1] in Neighbors(adj, c[0])
  }

  /** The DFS path from its top down to position j: what the parent walk lists. */
  ghost function Climb(stack: seq<nat>, j: nat): seq<nat>
    requires j <= |stack|
  {
    seq(|stack| - j, i requires 0 <= i < |stack| - j => stack[|stack| - 1 - i])
  }

  /**
   * The DFS path: every entry is visited with its position as depth, and each
   * entry after the first has the one before it as parent and is its neighbour.
   */
  ghost predicate StackOk(adj: AdjMap, visited: set<nat>, parent: map<nat, nat>, depth: map<nat, nat>, stack: seq<nat>) {
    && (forall i | 0 <= i < |stack| :: stack[i] in visited && stack[i] in depth && depth[stack[i]] == i)
    && (forall i | 0 < i < |stack| :: stack[i] in parent && parent[stack[i]] == stack[i - 1] && stack[i] in Neighbors(adj, stack[i - 1]))
  }

  /**
   * A finished vertex (visited, off the path) has only visited neighbours, and
   * those still on the path are shallower than it.
   */
  ghost predicate FinishedOk(adj: AdjMap, visited: set<nat>, depth: map<nat, nat>, stack: seq<nat>) {
    forall x, y {:trigger y in Neighbors(adj, x)} | x in visited && x !in stack && y in Neighbors(adj, x) ::
      y in visited && (y in stack ==> y in depth && x in depth && depth[y] < depth[x])
  }

  /** The search state: visited vertices are below n and have a parent and a depth. */
  ghost predicate Searching(adj: AdjMap, n: nat, visited: set<nat>, parent: map<nat, nat>, depth: map<nat, nat>, stack: seq<nat>) {
    && (forall x | x in visited :: x < n && x in parent && x in depth)
    && StackOk(adj, visited, parent, depth, stack)
    && FinishedOk(adj, visited, depth, stack)
  }

  /** The maps of an earlier state are kept on the vertices visited then. */
  ghost predicate Extends(visited0: set<nat>, parent0: map<nat, nat>, depth0: map<nat, nat>, parent: map<nat, nat>, depth: map<nat, nat>) {
    forall x | x in visited0 :: x in parent0 && x in depth0 && x in parent && x in depth && parent[x] == parent0[x] && depth[x] == depth0[x]
  }

  /** Every vertex with a parent is a root or one level deeper than its parent. */
  ghost predicate Forest(parent: map<nat, nat>, depth: map<nat, nat>) {
    forall x {:trigger parent[x]} | x in parent ::
      x in depth && (parent[x] == NoParent || (parent[x] in depth && depth[x] == depth[parent[x]] + 1))
  }

  /** x and y are joined in the search forest: one is the other's parent. */
  ghost predicate TreeEdge(parent: map<nat, nat>, x: nat, y: nat) {
    (x in parent && parent[x] == y) || (y in parent && parent[y] == x)
  }

  /** The search only ever appends cycles: cycles0 is a prefix of cycles. */
  ghost predicate Grows(cycles0: seq<seq<nat>>, cycles: seq<seq<nat>>) {
    |cycles0| <= |cycles| && forall k | 0 <= k < |cycles0| :: cycles[k] == cycles0[k]
  }

  lemma GrowsTrans(cycles0: seq<seq<nat>>, cycles1: seq<seq<nat>>, cycles2: seq<seq<nat>>)
    requires Grows(cycles0, cycles1) && Grows(cycles1, cycles2)
    ensures Grows(cycles0, cycles2)
  {
  }

  /** c is a non-empty list that starts at x and ends at y. */
  ghost predicate Ends(c: seq<nat>, x: nat, y: nat) {
    |c| > 0 && c[0] == x && c[|c| - 1] == y
  }

  /** A reported cycle starts at one of x, y and ends at the other: the edge x-y is its back edge. */
  ghost predicate Closes(cycles: seq<seq<nat>>, x: nat, y: nat) {
    exists k | 0 <= k < |cycles| :: Ends(cycles[k], x, y) || Ends(cycles[k], y, x)
  }

  /** The edge x-y is accounted for: a tree edge or the back edge of a reported cycle. */
  ghost predicate Covered(parent: map<nat, nat>, cycles: seq<seq<nat>>, x: nat, y: nat) {
    TreeEdge(parent, x, y) || Closes(cycles, x, y)
  }

  /** Every edge at a vertex the search is done with is accounted for. */
  ghost predicate DoneCovered(adj: AdjMap, done: set<nat>, parent: map<nat, nat>, cycles: seq<seq<nat>>) {
    forall x, y {:trigger Covered(parent, cycles, x, y)} | x in done && y in Neighbors(adj, x) && y != x ::
      Covered(parent, cycles, x, y)
  }

  /** A visited vertex the search is not done with is on the path, at the position of its depth. */
  ghost predicate PathOrDone(visited: set<nat>, done: set<nat>, depth: map<nat, nat>, stack: seq<nat>) {
    forall x | x in visited && x !in done :: x in depth && depth[x] < |stack| && stack[depth[x]] == x
  }

  lemma ExtendsTrans(visited0: set<nat>, parent0: map<nat, nat>, depth0: map<nat, nat>,
                     visited1: set<nat>, parent1: map<nat, nat>, depth1: map<nat, nat>, parent2: map<nat, nat>, depth2: map<nat, nat>)
    requires visited0 <= visited1
    requires Extends(visited0, parent0, depth0, parent1, depth1) && Extends(visited1, parent1, depth1, parent2, depth2)
    ensures Extends(visited0, parent0, depth0, parent2, depth2)
  {
  }

  // ---------------------------------------------------------------------------
  // The facts the search relies on.
  // ---------------------------------------------------------------------------

  /** Entering v: the path grows by v, and finished vertices stay finished. */
  lemma Enter(adj: AdjMap, n: nat, visited: set<nat>, parent: map<nat, nat>, depth: map<nat, nat>, stack: seq<nat>, v: nat, p: nat)
    requires Searching(adj, n, visited, parent, depth, stack)
    requires v < n && v !in visited && (stack != [] ==> p == stack[|stack| - 1] && v in Neighbors(adj, p))
    ensures Searching(adj, n, visited + {v}, parent[v := p], depth[v := |stack|], stack + [v])
    ensures Extends(visited, parent, depth, parent[v := p], depth[v := |stack|])
  {
    EnterPath(adj, visited, parent, depth, stack, v, p);
    EnterFinished(adj, visited, depth, stack, v);
  }

  lemma EnterPath(adj: AdjMap, visited: set<nat>, parent: map<nat, nat>, depth: map<nat, nat>, stack: seq<nat>, v: nat, p: nat)
    requires StackOk(adj, visited, parent, depth, stack)
    requires v !in visited && (stack != [] ==> p == stack[|stack| - 1] && v in Neighbors(adj, p))
    ensures StackOk(adj, visited + {v}, parent[v := p], depth[v := |stack|], stack + [v])
  {
  }

  lemma EnterFinished(adj: AdjMap, visited: set<nat>, depth: map<nat, nat>, stack: seq<nat>, v: nat)
    requires FinishedOk(adj, visited, depth, stack)
    requires forall x | x in visited :: x in depth
    requires v !in visited
    ensures FinishedOk(adj, visited + {v}, depth[v := |stack|], stack + [v])
  {
    var visited', depth', stack' := visited + {v}, depth[v := |stack|], stack + [v];
    forall x, y | x in visited' && x !in stack' && y in Neighbors(adj, x)
      ensures y in visited' && (y in stack' ==> y in depth' && x in depth' && depth'[y] < depth'[x])
    {
      assert x in visited && x !in stack;
      if y in stack' {
        assert y != v;
        assert y in stack;
      }
    }
  }

  /** Leaving v once all its neighbours are visited: v becomes finished. */
  lemma Leave(adj: AdjMap, n: nat, visited: set<nat>, parent: map<nat, nat>, depth: map<nat, nat>, stack: seq<nat>, v: nat)
    requires Searching(adj, n, visited, parent, depth, stack + [v])
    requires forall y | y in Neighbors(adj, v) :: y in visited
    ensures Searching(adj, n, visited, parent, depth, stack)
  {
    var full := stack + [v];
    assert forall i | 0 <= i < |stack| :: stack[i] == full[i];
    LeaveFinished(adj, visited, depth, stack, v);
  }

  lemma LeaveFinished(adj: AdjMap, visited: set<nat>, depth: map<nat, nat>, stack: seq<nat>, v: nat)
    requires FinishedOk(adj, visited, depth, stack + [v])
    requires forall i | 0 <= i < |stack| + 1 :: (stack + [v])[i] in depth && depth[(stack + [v])[i]] == i
    requires forall y | y in Neighbors(adj, v) :: y in visited
    ensures FinishedOk(adj, visited, depth, stack)
  {
    var full := stack + [v];
    forall x, y | x in visited && x !in stack && y in Neighbors(adj, x)
      ensures y in visited && (y in stack ==> y in depth && x in depth && depth[y] < depth[x])
    {
      if x == v {
        if y in stack {
          var i :| 0 <= i < |stack| && stack[i] == y;
          assert full[i] == y && full[|stack|] == v;
        }
      } else {
        assert x !in full;
      }
    }
  }

  /**
   * A back edge: a visited neighbour u of the path's top v, shallower than v,
   * is on the path, at the position of its depth.
   */
  lemma BackEdgeOnPath(adj: AdjMap, visited: set<nat>, parent: map<nat, nat>, depth: map<nat, nat>, stack: seq<nat>, u: nat)
    requires Symmetric(adj)
    requires StackOk(adj, visited, parent, depth, stack) && FinishedOk(adj, visited, depth, stack)
    requires stack != [] && u in visited && u in Neighbors(adj, stack[|stack| - 1])
    requires u in depth && depth[u] < |stack| - 1
    ensures stack[depth[u]] == u
  {
    var v := stack[|stack| - 1];
    assert v in Neighbors(adj, u);
    assert v in stack && depth[v] == |stack| - 1;
    assert u in stack;
    var i :| 0 <= i < |stack| && stack[i] == u;
  }

  /** The walk from the top of the path down to a back-edge target is a cycle. */
  lemma ClimbIsCycle(adj: AdjMap, visited: set<nat>, parent: map<nat, nat>, depth: map<nat, nat>, stack: seq<nat>, j: nat)
    requires StackOk(adj, visited, parent, depth, stack)
    requires j + 2 < |stack| && stack[j] in Neighbors(adj, stack[|stack| - 1])
    ensures IsCycle(adj, Climb(stack, j))
  {
    var c := Climb(stack, j);
    forall a, b | 0 <= a < b < |c| ensures c[a] != c[b] {
      var x, y := |stack| - 1 - a, |stack| - 1 - b;
      assert depth[stack[x]] == x && depth[stack[y]] == y;
    }
    forall i | 0 <= i < |c| - 1 ensures c[i] in Neighbors(adj, c[i + 1]) {
      var x := |stack| - 1 - i;
      assert c[i] == stack[x] && c[i + 1] == stack[x - 1];
    }
  }

  /** The end of the walk: Climb(stack, j) is the entry at j after Climb(stack, j + 1). */
  lemma ClimbStep(stack: seq<nat>, j: nat)
    requires j < |stack|
    ensures Climb(stack, j) == Climb(stack, j + 1) + [stack[j]]
  {
  }

  /** An accounted edge stays accounted for as the search goes on. */
  lemma CoveredGrows(visited0: set<nat>, parent0: map<nat, nat>, depth0: map<nat, nat>, cycles0: seq<seq<nat>>,
                     parent: map<nat, nat>, depth: map<nat, nat>, cycles: seq<seq<nat>>, x: nat, y: nat)
    requires Extends(visited0, parent0, depth0, parent, depth) && Grows(cycles0, cycles)
    requires x in visited0 && y in visited0 && Covered(parent0, cycles0, x, y)
    ensures Covered(parent, cycles, x, y)
  {
    if !TreeEdge(parent0, x, y) {
      var k :| 0 <= k < |cycles0| && (Ends(cycles0[k], x, y) || Ends(cycles0[k], y, x));
      assert cycles[k] == cycles0[k];
    }
  }

  /** Entering v keeps the forest: v hangs one level below the top of the path, or is a root. */
  lemma EnterForest(visited: set<nat>, parent: map<nat, nat>, depth: map<nat, nat>, stack: seq<nat>, v: nat, p: nat)
    requires Forest(parent, depth) && (forall x | x in parent :: x in visited) && (forall x | x in depth :: x in visited)
    requires forall i | 0 <= i < |stack| :: stack[i] in visited && stack[i] in depth && depth[stack[i]] == i
    requires v !in visited && (stack == [] ==> p == NoParent) && (stack != [] ==> p == stack[|stack| - 1])
    ensures Forest(parent[v := p], depth[v := |stack|])
  {
  }

  /** Entering v: the path grows by v, which the search is not done with. */
  lemma EnterPathOrDone(visited: set<nat>, done: set<nat>, depth: map<nat, nat>, stack: seq<nat>, v: nat)
    requires PathOrDone(visited, done, depth, stack) && done <= visited && v !in visited
    ensures PathOrDone(visited + {v}, done, depth[v := |stack|], stack + [v])
  {
    var visited', depth', stack' := visited + {v}, depth[v := |stack|], stack + [v];
    forall x | x in visited' && x !in done ensures x in depth' && depth'[x] < |stack'| && stack'[depth'[x]] == x {
      if x != v {
        assert stack'[depth[x]] == stack[depth[x]];
      }
    }
  }

  /** Entering v adds a parent for v alone, so every accounted edge stays accounted for. */
  lemma EnterCovered(adj: AdjMap, done: set<nat>, parent: map<nat, nat>, cycles: seq<seq<nat>>, v: nat, p: nat)
    requires DoneCovered(adj, done, parent, cycles) && v !in done && v !in parent
    ensures DoneCovered(adj, done, parent[v := p], cycles)
  {
    forall x, y | x in done && y in Neighbors(adj, x) && y != x
      ensures Covered(parent[v := p], cycles, x, y)
    {
      assert Covered(parent, cycles, x, y);
    }
  }

  /** Leaving v, the top of the path: the search is done with v. */
  lemma LeavePathOrDone(visited: set<nat>, done: set<nat>, depth: map<nat, nat>, stack: seq<nat>, v: nat)
    requires PathOrDone(visited, done, depth, stack + [v])
    requires forall i | 0 <= i < |stack| + 1 :: (stack + [v])[i] in depth && depth[(stack + [v])[i]] == i
    ensures PathOrDone(visited, done + {v}, depth, stack)
  {
    var full := stack + [v];
    forall x | x in visited && x !in done + {v} ensures x in depth && depth[x] < |stack| && stack[depth[x]] == x {
      assert full[depth[x]] == x;
      assert full[|stack|] == v;
    }
  }

  /** Leaving v with every edge at v accounted for. */
  lemma LeaveCovered(adj: AdjMap, done: set<nat>, parent: map<nat, nat>, cycles: seq<seq<nat>>, v: nat)
    requires DoneCovered(adj, done, parent, cycles)
    requires forall y | y in Neighbors(adj, v) && y != v :: Covered(parent, cycles, v, y)
    ensures DoneCovered(adj, done + {v}, parent, cycles)
  {
    forall x, y | x in done + {v} && y in Neighbors(adj, x) && y != x
      ensures Covered(parent, cycles, x, y)
    {
    }
  }

  /** One more cycle keeps every accounted edge accounted for. */
  lemma DoneCoveredGrows(adj: AdjMap, done: set<nat>, parent: map<nat, nat>, cycles: seq<seq<nat>>, c: seq<nat>)
    requires DoneCovered(adj, done, parent, cycles)
    ensures DoneCovered(adj, done, parent, cycles + [c])
  {
    forall x, y | x in done && y in Neighbors(adj, x) && y != x
      ensures Covered(parent, cycles + [c], x, y)
    {
      if !TreeEdge(parent, x, y) {
        assert Covered(parent, cycles, x, y);
        var k :| 0 <= k < |cycles| && (Ends(cycles[k], x, y) || Ends(cycles[k], y, x));
        assert (cycles + [c])[k] == cycles[k];
      }
    }
  }

  /** Edges are undirected: accounting for x-y accounts for y-x. */
  lemma CoveredSymmetric(parent: map<nat, nat>, cycles: seq<seq<nat>>, x: nat, y: nat)
    requires Covered(parent, cycles, x, y)
    ensures Covered(parent, cycles, y, x)
  {
  }

  /**
   * Three vertices joined pairwise are never all joined by tree edges: each
   * has one parent, and depth grows by one from parent to child.
   */
  lemma NoTreeTriangle(parent: map<nat, nat>, depth: map<nat, nat>, x: nat, y: nat, z: nat)
    requires Forest(parent, depth) && x != y && y != z && x != z
    requires x < NoParent && y < NoParent && z < NoParent
    ensures !(TreeEdge(parent, x, y) && TreeEdge(parent, y, z) && TreeEdge(parent, x, z))
  {
    // The parents would go round x, y, z one way or the other, and depth cannot fall by one three times.
    if x in parent && parent[x] == y {
      if TreeEdge(parent, y, z) && TreeEdge(parent, x, z) {
        assert false;
      }
    } else if y in parent && parent[y] == x {
      if TreeEdge(parent, y, z) && TreeEdge(parent, x, z) {
        assert false;
      }
    }
  }

  /**
   * The invariant of the search: the path and the finished vertices are as
   * Searching says, the parents form a forest, every reported list is a
   * cycle, and every edge at a vertex the search is done with is accounted for.
   */
  ghost predicate Invariant(adj: AdjMap, n: nat, visited: set<nat>, parent: map<nat, nat>, depth: map<nat, nat>,
                            cycles: seq<seq<nat>>, stack: seq<nat>, done: set<nat>) {
    && Symmetric(adj) && NeighborsBelow(adj, n) && n <= NoParent
    && Searching(adj, n, visited, parent, depth, stack)
    && (forall x | x in parent :: x in visited) && (forall x | x in depth :: x in visited) && Forest(parent, depth)
    && (forall c | c in cycles :: IsCycle(adj, c))
    && done <= visited && PathOrDone(visited, done, depth, stack) && DoneCovered(adj, done, parent, cycles)
  }

  /** Entering an unvisited v below the top of the path keeps the invariant. */
  lemma EnterInvariant(adj: AdjMap, n: nat, visited: set<nat>, parent: map<nat, nat>, depth: map<nat, nat>,
                       cycles: seq<seq<nat>>, stack: seq<nat>, done: set<nat>, v: nat, p: nat)
    requires Invariant(adj, n, visited, parent, depth, cycles, stack, done)
    requires v < n && v !in visited
    requires stack == [] ==> p == NoParent
    requires stack != [] ==> p == stack[|stack| - 1] && v in Neighbors(adj, p)
    ensures Invariant(adj, n, visited + {v}, parent[v := p], depth[v := |stack|], cycles, stack + [v], done)
    ensures Extends(visited, parent, depth, parent[v := p], depth[v := |stack|])
  {
    Enter(adj, n, visited, parent, depth, stack, v, p);
    EnterForest(visited, parent, depth, stack, v, p);
    EnterPathOrDone(visited, done, depth, stack, v);
    EnterCovered(adj, done, parent, cycles, v, p);
  }

  /** Reporting the cycle a back edge from the top of the path closes keeps the invariant. */
  lemma BackEdgeInvariant(adj: AdjMap, n: nat, visited: set<nat>, parent: map<nat, nat>, depth: map<nat, nat>,
                          cycles: seq<seq<nat>>, stack: seq<nat>, done: set<nat>, u: nat)
    requires Invariant(adj, n, visited, parent, depth, cycles, stack, done)
    requires stack != [] && u in Neighbors(adj, stack[|stack| - 1]) && u in visited
    requires u in depth && depth[u] < |stack| - 1 && (|stack| > 1 ==> u != stack[|stack| - 2])
    ensures stack[depth[u]] == u && depth[u] + 2 < |stack|
    ensures Invariant(adj, n, visited, parent, depth, cycles + [Climb(stack, depth[u])], stack, done)
  {
    BackEdgeOnPath(adj, visited, parent, depth, stack, u);
    ClimbIsCycle(adj, visited, parent, depth, stack, depth[u]);
    DoneCoveredGrows(adj, done, parent, cycles, Climb(stack, depth[u]));
  }

  /** Leaving v, the top of the path, with every edge at v accounted for keeps the invariant. */
  lemma LeaveInvariant(adj: AdjMap, n: nat, visited: set<nat>, parent: map<nat, nat>, depth: map<nat, nat>,
                       cycles: seq<seq<nat>>, stack: seq<nat>, done: set<nat>, v: nat)
    requires Invariant(adj, n, visited, parent, depth, cycles, stack, done)
    requires stack != [] && v == stack[|stack| - 1]
    requires forall y | y in Neighbors(adj, v) :: y in visited && (y != v ==> Covered(parent, cycles, v, y))
    ensures Invariant(adj, n, visited, parent, depth, cycles, stack[..|stack| - 1], done + {v})
  {
    var rest := stack[..|stack| - 1];
    assert stack == rest + [v];
    LeaveTop(adj, n, visited, parent, depth, cycles, rest, done, v);
  }

  lemma LeaveTop(adj: AdjMap, n: nat, visited: set<nat>, parent: map<nat, nat>, depth: map<nat, nat>,
                 cycles: seq<seq<nat>>, rest: seq<nat>, done: set<nat>, v: nat)
    requires Invariant(adj, n, visited, parent, depth, cycles, rest + [v], done)
    requires forall y | y in Neighbors(adj, v) :: y in visited && (y != v ==> Covered(parent, cycles, v, y))
    ensures Invariant(adj, n, visited, parent, depth, cycles, rest, done + {v})
  {
    assert (rest + [v])[|rest|] == v;
    Leave(adj, n, visited, parent, depth, rest, v);
    LeavePathOrDone(visited, done, depth, rest, v);
    LeaveCovered(adj, done, parent, cycles, v);
  }

  // ---------------------------------------------------------------------------
  // The search.
  // ---------------------------------------------------------------------------

  /** The state the dfs closure of find_cycles captures. */
  class CycleSearch {
    const adj: AdjMap
    const n: nat
    var visited: set<nat>
    var parent: map<nat, nat>
    var depth: map<nat, nat>
    var cycles: seq<seq<nat>>
    ghost var stack: seq<nat>
    ghost var done: set<nat>

    ghost predicate Valid()
      reads this
    {
      Invariant(adj, n, visited, parent, depth, cycles, stack, done)
    }

    constructor(adj: AdjMap, n: nat)
      requires Symmetric(adj) && NeighborsBelow(adj, n) && n <= NoParent
      ensures this.adj == adj && this.n == n
      ensures visited == {} && parent == map[] && depth == map[] && cycles == [] && stack == [] && done == {}
      ensures Valid()
    {
      this.adj := adj;
      this.n := n;
      visited, parent, depth, cycles := {}, map[], map[], [];
      stack, done := [], {};
    }

    /**
     * dfs(v, p, d): mark v, record its parent and depth, and go through its
     * neighbours in adjacency order.
     */
    method Dfs(v: nat, p: nat, d: nat)
      requires Valid() && v < n && v !in visited && d == |stack|
      requires stack == [] ==> p == NoParent
      requires stack != [] ==> p == stack[|stack| - 1] && v in Neighbors(adj, p)
      modifies this
      ensures Valid() && stack == old(stack)
      ensures old(visited) + {v} <= visited
      ensures Extends(old(visited), old(parent), old(depth), parent, depth)
      ensures v in parent && parent[v] == p
      ensures Grows(old(cycles), cycles) && old(done) + {v} <= done
      decreases Vertices(n) - visited, 0
    {
      ghost var visited0, parent0, depth0, stack0 := visited, parent, depth, stack;
      VerticesFacts(n);
      Push(v, p, d);
      ghost var visited1, parent1, depth1 := visited, parent, depth;
      ExploreAll(v, p, d);
      ExtendsTrans(visited0, parent0, depth0, visited1, parent1, depth1, parent, depth);
      assert v in visited1 && parent[v] == parent1[v] == p;
      Pop(v);
      assert stack == stack0;
    }

    /** The entry step of dfs: mark v and record its parent and depth; v tops the path. */
    method Push(v: nat, p: nat, d: nat)
      requires Valid() && v < n && v !in visited && d == |stack|
      requires stack == [] ==> p == NoParent
      requires stack != [] ==> p == stack[|stack| - 1] && v in Neighbors(adj, p)
      modifies this
      ensures Valid()
      ensures visited == old(visited) + {v} && parent == old(parent)[v := p] && depth == old(depth)[v := d]
      ensures stack == old(stack) + [v] && cycles == old(cycles) && done == old(done)
      ensures Extends(old(visited), old(parent), old(depth), parent, depth)
    {
      EnterInvariant(adj, n, visited, parent, depth, cycles, stack, done, v, p);
      visited, parent, depth, stack := visited + {v}, parent[v := p], depth[v := d], stack + [v];
    }

    /** The search is done with v, the top of the path, once every edge at v is accounted for. */
    method Pop(v: nat)
      requires Valid() && stack != [] && v == stack[|stack| - 1]
      requires forall y | y in Neighbors(adj, v) :: y in visited && (y != v ==> Covered(parent, cycles, v, y))
      modifies this
      ensures Valid()
      ensures stack == old(stack)[..|old(stack)| - 1] && done == old(done) + {v}
      ensures visited == old(visited) && parent == old(parent) && depth == old(depth) && cycles == old(cycles)
    {
      LeaveInvariant(adj, n, visited, parent, depth, cycles, stack, done, v);
      stack, done := stack[..|stack| - 1], done + {v};
    }

    /** The loop of dfs over the neighbours of v, the top of the path at depth d. */
    method ExploreAll(v: nat, p: nat, d: nat)
      requires Valid() && d + 1 == |stack| && v == stack[d]
      requires d == 0 ==> p == NoParent
      requires d > 0 ==> p == stack[d - 1]
      modifies this
      ensures Valid() && stack == old(stack)
      ensures old(visited) <= visited
      ensures Extends(old(visited), old(parent), old(depth), parent, depth)
      ensures forall y | y in Neighbors(adj, v) :: y in visited && (y != v ==> Covered(parent, cycles, v, y))
      ensures Grows(old(cycles), cycles) && old(done) <= done
      decreases Vertices(n) - visited, 3
    {
      var nbs := Neighbors(adj, v);
      var k := 0;
      while k < |nbs|
        invariant k <= |nbs|
        invariant Valid() && stack == old(stack)
        invariant old(visited) <= visited
        invariant Extends(old(visited), old(parent), old(depth), parent, depth)
        invariant Grows(old(cycles), cycles) && old(done) <= done
        invariant forall i | 0 <= i < k :: nbs[i] in visited && (nbs[i] != v ==> Covered(parent, cycles, v, nbs[i]))
      {
        ghost var visited1, parent1, depth1, cycles1 := visited, parent, depth, cycles;
        ExploreNext(v, p, d, nbs, k);
        ExtendsTrans(old(visited), old(parent), old(depth), visited1, parent1, depth1, parent, depth);
        GrowsTrans(old(cycles), cycles1, cycles);
        k := k + 1;
      }
      forall y | y in nbs ensures y in visited && (y != v ==> Covered(parent, cycles, v, y)) {
        var i :| 0 <= i < |nbs| && nbs[i] == y;
      }
    }

    /** One round of the loop: explore nbs[k]; the neighbours before it stay accounted for. */
    method ExploreNext(v: nat, p: nat, d: nat, nbs: seq<nat>, k: nat)
      requires Valid() && d + 1 == |stack| && v == stack[d]
      requires d == 0 ==> p == NoParent
      requires d > 0 ==> p == stack[d - 1]
      requires nbs == Neighbors(adj, v) && k < |nbs|
      requires forall i | 0 <= i < k :: nbs[i] in visited && (nbs[i] != v ==> Covered(parent, cycles, v, nbs[i]))
      modifies this
      ensures Valid() && stack == old(stack)
      ensures old(visited) <= visited
      ensures Extends(old(visited), old(parent), old(depth), parent, depth)
      ensures Grows(old(cycles), cycles) && old(done) <= done
      ensures forall i | 0 <= i < k + 1 :: nbs[i] in visited && (nbs[i] != v ==> Covered(parent, cycles, v, nbs[i]))
      decreases Vertices(n) - visited, 2
    {
      ghost var visited0, parent0, depth0, cycles0 := visited, parent, depth, cycles;
      Explore(v, p, d, nbs[k]);
      forall i | 0 <= i < k + 1 ensures nbs[i] in visited && (nbs[i] != v ==> Covered(parent, cycles, v, nbs[i])) {
        if i < k && nbs[i] != v {
          CoveredGrows(visited0, parent0, depth0, cycles0, parent, depth, cycles, v, nbs[i]);
        }
      }
    }

    /**
     * One neighbour u of v, the top of the path at depth d, whose DFS parent is p: skip
     * the parent, record a cycle for a shallower visited neighbour, search an
     * unvisited one from v.
     */
    method Explore(v: nat, p: nat, d: nat, u: nat)
      requires Valid() && d + 1 == |stack| && v == stack[d] && u in Neighbors(adj, v)
      requires d == 0 ==> p == NoParent
      requires d > 0 ==> p == stack[d - 1]
      modifies this
      ensures Valid() && stack == old(stack)
      ensures old(visited) + {u} <= visited
      ensures Extends(old(visited), old(parent), old(depth), parent, depth)
      ensures u != v ==> Covered(parent, cycles, v, u)
      ensures Grows(old(cycles), cycles) && old(done) <= done
      decreases Vertices(n) - visited, 1
    {
      if u == p {
        return;
      }
      if u in visited {
        if depth[u] < d {
          RecordBackEdge(v, d, u);
        } else if u != v {
          FinishedNeighbor(v, d, u);
        }
        return;
      }
      VerticesFacts(n);
      Dfs(u, v, d + 1);
    }

    /** A back edge from v, at depth d on top of the path, to the shallower u: one more cycle. */
    method RecordBackEdge(v: nat, d: nat, u: nat)
      requires Valid() && d + 1 == |stack| && v == stack[d] && u in Neighbors(adj, v)
      requires u in visited && depth[u] < d && (d > 0 ==> u != stack[d - 1])
      modifies this
      ensures Valid()
      ensures visited == old(visited) && parent == old(parent) && depth == old(depth) && stack == old(stack)
      ensures done == old(done) && Grows(old(cycles), cycles) && Closes(cycles, v, u)
    {
      BackEdgeInvariant(adj, n, visited, parent, depth, cycles, stack, done, u);
      var cycle := WalkBack(u, v);
      cycles := cycles + [cycle];
      assert Ends(cycles[|cycles| - 1], v, u);
    }

    /**
     * A visited neighbour u of v, the top of the path at depth d, no shallower
     * than v and other than v: the search is done with u, so the edge is
     * already accounted for.
     */
    lemma FinishedNeighbor(v: nat, d: nat, u: nat)
      requires Valid() && d + 1 == |stack| && v == stack[d] && u in Neighbors(adj, v)
      requires u in visited && depth[u] >= d && u != v
      ensures Covered(parent, cycles, v, u)
    {
      assert u in done;
      assert v in Neighbors(adj, u);
      CoveredSymmetric(parent, cycles, u, v);
    }

    /** The parent walk of a back edge: v, parent[v], ... until u, then u. */
    method WalkBack(u: nat, v: nat) returns (cycle: seq<nat>)
      requires Valid() && stack != [] && v == stack[|stack| - 1]
      requires u in depth && depth[u] < |stack| - 1 && stack[depth[u]] == u
      ensures cycle == Climb(stack, depth[u])
    {
      cycle := [];
      var curr := v;
      ghost var i := |stack| - 1;
      while curr != u
        invariant depth[u] <= i < |stack| && curr == stack[i]
        invariant cycle == Climb(stack, i + 1)
        decreases i
      {
        ClimbStep(stack, i);
        cycle := cycle + [curr];
        curr := parent[curr];
        i := i - 1;
      }
      ClimbStep(stack, i);
      assert depth[stack[i]] == i;
      cycle := cycle + [u];
    }
  }

  /** Every vertex on a cycle of adj is below n. */
  lemma CycleVerticesBelow(adj: AdjMap, n: nat, c: seq<nat>, x: nat)
    requires NeighborsBelow(adj, n) && IsCycle(adj, c) && x in c
    ensures x < n
  {
    var i :| 0 <= i < |c| && c[i] == x;
    if i + 1 < |c| {
      assert c[i] in Neighbors(adj, c[i + 1]);
    } else {
      assert c[i] in Neighbors(adj, c[0]);
    }
  }

  /**
   * The outer loop of find_cycles: a search from every resident not yet
   * visited. Every cycle found is a cycle of adj, and the search is complete:
   * with parent and depth the search forest it builds, every edge at a
   * searched vertex is a tree edge or the back edge of a reported cycle.
   */
  method FindCycles(adj: AdjMap, n: nat, ids: seq<nat>)
    returns (cycles: seq<seq<nat>>, ghost parent: map<nat, nat>, ghost depth: map<nat, nat>)
    requires Symmetric(adj) && NeighborsBelow(adj, n) && n <= NoParent
    requires forall i | 0 <= i < |ids| :: ids[i] < n
    ensures forall c | c in cycles :: IsCycle(adj, c)
    ensures Forest(parent, depth) && forall i | 0 <= i < |ids| :: ids[i] in parent
    ensures forall i, y | 0 <= i < |ids| && y in Neighbors(adj, ids[i]) && y != ids[i] :: Covered(parent, cycles, ids[i], y)
  {
    var search := new CycleSearch(adj, n);
    var i := 0;
    while i < |ids|
      invariant i <= |ids|
      invariant search.Valid() && search.stack == [] && search.adj == adj && search.n == n
      invariant forall j | 0 <= j < i :: ids[j] in search.done
      modifies search
    {
      ghost var done := search.done;
      if ids[i] !in search.visited {
        search.Dfs(ids[i], NoParent, 0);
      }
      forall j | 0 <= j < i + 1 ensures ids[j] in search.done {
        assert j < i ==> ids[j] in done;
      }
      i := i + 1;
    }
    cycles, parent, depth := search.cycles, search.parent, search.depth;
  }

  /**
   * A consequence of completeness: three searched vertices joined pairwise
   * make the search report at least one cycle.
   */
  lemma TriangleReported(parent: map<nat, nat>, depth: map<nat, nat>, cycles: seq<seq<nat>>, x: nat, y: nat, z: nat)
    requires Forest(parent, depth) && x != y && y != z && x != z
    requires x < NoParent && y < NoParent && z < NoParent
    requires Covered(parent, cycles, x, y) && Covered(parent, cycles, y, z) && Covered(parent, cycles, x, z)
    ensures cycles != []
  {
    NoTreeTriangle(parent, depth, x, y, z);
  }
}
