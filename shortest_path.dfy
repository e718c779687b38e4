/**
 * Dijkstra's algorithm as the link-state calculation runs it: an exchange
 * sort of the queue by total cost and a membership scan of the unexplored
 * part of the queue, relaxation over the non-negative cells of the matrix,
 * and the walk up the parent pointers that finds the first hop.
 *
 * Paths are sequences of router indices; only cells with a non-negative
 * cost count as edges.  Costs are reals; INF_DISTANCE is a plain constant,
 * so the initial cost of an unreached router, INF_DISTANCE + INF_DISTANCE,
 * is not equal to it.
 */
module ShortestPath {

  const EMPTY_PARENT: int := -12345
  const INF_DISTANCE: real := 2147483647.0
  const NO_NEXT_HOP: int := -12345

  /** The link part and the service-function part of a path cost. */
  datatype PathCost = PathCost(linkCost: real, functionCost: real)
  {
    function TotalCost(): real { linkCost + functionCost }
  }

  /** The cost every router but the source starts with. */
  const Unreached: PathCost := PathCost(INF_DISTANCE, INF_DISTANCE)

  datatype DijkstraResult = DijkstraResult(parent: seq<int>, costs: seq<PathCost>)

  // ---------------------------------------------------------------------
  // Matrices and paths
  // ---------------------------------------------------------------------

  /** The matrix as a sequence of rows. */
  function Rows(m: array2<real>): (rows: seq<seq<real>>)
    reads m
    ensures |rows| == m.Length0
    ensures forall i :: 0 <= i < m.Length0 ==> |rows[i]| == m.Length1
    ensures forall i, j :: 0 <= i < m.Length0 && 0 <= j < m.Length1 ==> rows[i][j] == m[i, j]
  {
    seq(m.Length0, i reads m requires 0 <= i < m.Length0 =>
      seq(m.Length1, j reads m requires 0 <= j < m.Length1 => m[i, j]))
  }

  predicate Square(mat: seq<seq<real>>)
  {
    forall i :: 0 <= i < |mat| ==> |mat[i]| == |mat|
  }

  /** A cell that counts as an edge: in range and non-negative. */
  predicate Edge(mat: seq<seq<real>>, a: int, b: int)
  {
    0 <= a < |mat| && 0 <= b < |mat[a]| && mat[a][b] >= 0.0
  }

  predicate IsPath(mat: seq<seq<real>>, p: seq<int>)
  {
    && |p| >= 1
    && (forall k :: 0 <= k < |p| ==> 0 <= p[k] < |mat|)
    && (forall k :: 0 <= k < |p| - 1 ==> Edge(mat, p[k], p[k + 1]))
  }

  /** The sum of the path's edge costs. */
  function Weight(mat: seq<seq<real>>, p: seq<int>): real
    requires IsPath(mat, p)
    decreases |p|
  {
    if |p| == 1 then 0.0
    else
      PrefixIsPath(mat, p, |p| - 1);
      Weight(mat, p[..|p| - 1]) + mat[p[|p| - 2]][p[|p| - 1]]
  }

  lemma {:induction false} WeightNonNegative(mat: seq<seq<real>>, p: seq<int>)
    requires IsPath(mat, p)
    ensures Weight(mat, p) >= 0.0
    decreases |p|
  {
    if |p| > 1 {
      PrefixIsPath(mat, p, |p| - 1);
      WeightNonNegative(mat, p[..|p| - 1]);
      assert Edge(mat, p[|p| - 2], p[|p| - 1]);
    }
  }

  lemma PrefixIsPath(mat: seq<seq<real>>, p: seq<int>, k: nat)
    requires IsPath(mat, p) && 1 <= k <= |p|
    ensures IsPath(mat, p[..k])
  {
    forall j | 0 <= j < k - 1 ensures Edge(mat, p[..k][j], p[..k][j + 1]) {
      assert p[..k][j] == p[j] && p[..k][j + 1] == p[j + 1];
    }
  }

  /** Extending a prefix by one node adds that edge's cost. */
  lemma {:induction false} WeightExtend(mat: seq<seq<real>>, p: seq<int>, k: nat)
    requires IsPath(mat, p) && 1 <= k < |p|
    ensures IsPath(mat, p[..k]) && IsPath(mat, p[..k + 1])
    ensures Weight(mat, p[..k + 1]) == Weight(mat, p[..k]) + mat[p[k - 1]][p[k]]
  {
    PrefixIsPath(mat, p, k);
    PrefixIsPath(mat, p, k + 1);
    assert p[..k + 1][..k] == p[..k];
  }

  /** A prefix of a path weighs no more than the path. */
  lemma {:induction false} WeightPrefix(mat: seq<seq<real>>, p: seq<int>, k: nat)
    requires IsPath(mat, p) && 1 <= k <= |p|
    ensures IsPath(mat, p[..k]) && Weight(mat, p[..k]) <= Weight(mat, p)
    decreases |p| - k
  {
    PrefixIsPath(mat, p, k);
    if k < |p| {
      WeightExtend(mat, p, k);
      WeightPrefix(mat, p, k + 1);
      assert Edge(mat, p[k - 1], p[k]);
      if k + 1 == |p| {
        assert p[..k + 1] == p;
      }
    } else {
      assert p[..k] == p;
    }
  }

  // ---------------------------------------------------------------------
  // The queue
  // ---------------------------------------------------------------------

  /** The total cost of router x, the sort key of the queue. */
  function Key(costs: seq<PathCost>, x: int): real
    requires 0 <= x < |costs|
  {
    costs[x].TotalCost()
  }

  predicate KeysInRange(s: seq<int>, costs: seq<PathCost>, start: nat)
  {
    forall k :: start <= k < |s| ==> 0 <= s[k] < |costs|
  }

  /** Every position of s[start..i] holds a key no larger than any later position. */
  predicate SortedBelow(s: seq<int>, costs: seq<PathCost>, start: nat, i: nat)
    requires KeysInRange(s, costs, start)
  {
    forall a, b :: start <= a < b < |s| && a < i ==> Key(costs, s[a]) <= Key(costs, s[b])
  }

  /** Position i holds the least key of s[i..j]. */
  predicate LeastSoFar(s: seq<int>, costs: seq<PathCost>, start: nat, i: nat, j: nat)
    requires KeysInRange(s, costs, start) && start <= i < |s|
  {
    forall b :: i < b < j && b < |s| ==> Key(costs, s[i]) <= Key(costs, s[b])
  }

  /** One exchange of the sort keeps everything the loops know and extends LeastSoFar. */
  lemma SwapStep(s: seq<int>, costs: seq<PathCost>, start: nat, i: nat, j: nat)
    requires start <= i < j < |s| && KeysInRange(s, costs, start)
    requires SortedBelow(s, costs, start, i) && LeastSoFar(s, costs, start, i, j)
    requires Key(costs, s[j]) < Key(costs, s[i])
    ensures var t := s[i := s[j]][j := s[i]];
            && KeysInRange(t, costs, start)
            && SortedBelow(t, costs, start, i) && LeastSoFar(t, costs, start, i, j + 1)
            && t[..start] == s[..start] && multiset(t[start..]) == multiset(s[start..])
  {
    var t := s[i := s[j]][j := s[i]];
    assert t[start..] == s[start..][i - start := s[j]][j - start := s[i]];
  }

  /** A finished inner loop extends the sorted part by one position. */
  lemma InnerDone(s: seq<int>, costs: seq<PathCost>, start: nat, i: nat)
    requires start <= i < |s| && KeysInRange(s, costs, start)
    requires SortedBelow(s, costs, start, i) && LeastSoFar(s, costs, start, i, |s|)
    ensures SortedBelow(s, costs, start, i + 1)
  {
  }

  /** std::swap of two queue slots. */
  method Exchange(q: array<int>, i: nat, j: nat)
    requires i < q.Length && j < q.Length
    modifies q
    ensures q[..] == old(q[..])[i := old(q[j])][j := old(q[i])]
  {
    q[i], q[j] := q[j], q[i];
  }

  /**
   * The inner loop of sortQueueByDistance: exchanges bring the least key of
   * q[i..] to position i, which extends the sorted part by one.
   */
  method PlaceLeast(q: array<int>, costs: seq<PathCost>, start: nat, i: nat)
    requires start <= i < q.Length
    requires KeysInRange(q[..], costs, start) && SortedBelow(q[..], costs, start, i)
    modifies q
    ensures q[..start] == old(q[..start]) && multiset(q[start..]) == multiset(old(q[start..]))
    ensures KeysInRange(q[..], costs, start) && SortedBelow(q[..], costs, start, i + 1)
  {
    ghost var pre := q[..start];
    ghost var bag := multiset(q[start..]);
    var j := i + 1;
    while j < q.Length
      invariant i < j <= q.Length
      invariant q[..start] == pre && multiset(q[start..]) == bag
      invariant KeysInRange(q[..], costs, start)
      invariant SortedBelow(q[..], costs, start, i)
      invariant LeastSoFar(q[..], costs, start, i, j)
    {
      if costs[q[j]].TotalCost() < costs[q[i]].TotalCost() {
        SwapStep(q[..], costs, start, i, j);
        Exchange(q, i, j);
        assert q[..][start..] == q[start..];
      }
      j := j + 1;
    }
    InnerDone(q[..], costs, start, i);
  }

  /**
   * sortQueueByDistance: an exchange sort of q[start..] by total cost.  The
   * queue stays a permutation of itself, the explored part q[..start] is
   * untouched, and the rest ends up in non-decreasing order of cost.
   */
  method SortQueueByDistance(q: array<int>, costs: seq<PathCost>, start: nat)
    requires KeysInRange(q[..], costs, start)
    modifies q
    ensures forall k :: 0 <= k < q.Length && k < start ==> q[k] == old(q[k])
    ensures start <= q.Length ==> multiset(q[start..]) == multiset(old(q[start..]))
    ensures KeysInRange(q[..], costs, start)
    ensures forall a, b :: start <= a < b < q.Length ==> Key(costs, q[a]) <= Key(costs, q[b])
  {
    if q.Length <= start {
      return;
    }
    ghost var pre := q[..start];
    ghost var bag := multiset(q[start..]);
    var i := start;
    while i < q.Length
      invariant start <= i <= q.Length
      invariant q[..start] == pre && multiset(q[start..]) == bag
      invariant KeysInRange(q[..], costs, start)
      invariant SortedBelow(q[..], costs, start, i)
    {
      PlaceLeast(q, costs, start, i);
      i := i + 1;
    }
    assert SortedBelow(q[..], costs, start, q.Length);
    assert forall k :: 0 <= k < start ==> q[k] == q[..start][k];
  }

  /** isNotExplored: whether u occurs in q[start..]. */
  method IsNotExplored(q: array<int>, u: int, start: nat) returns (found: bool)
    ensures found <==> exists k :: start <= k < q.Length && q[k] == u
  {
    var i := start;
    while i < q.Length
      invariant start <= i
      invariant forall k :: start <= k < i && k < q.Length ==> q[k] != u
    {
      if q[i] == u {
        return true;
      }
      i := i + 1;
    }
    return false;
  }

  // ---------------------------------------------------------------------
  // Invariants of the main loop
  // ---------------------------------------------------------------------

  /** The cost of w once u has relaxed its edges into the unexplored set unexplored. */
  predicate Relaxes(mat: seq<seq<real>>, c: seq<PathCost>, unexplored: set<int>, u: int, w: int)
    requires 0 <= u < |c| && 0 <= w < |c|
  {
    Edge(mat, u, w) && w in unexplored
    && PathCost(mat[u][w], 0.0).TotalCost() + c[u].TotalCost() < c[w].TotalCost()
  }

  function RelaxedCost(mat: seq<seq<real>>, c: seq<PathCost>, unexplored: set<int>, u: int, w: int): PathCost
    requires 0 <= u < |c| && 0 <= w < |c|
  {
    if Relaxes(mat, c, unexplored, u, w) then PathCost(mat[u][w] + c[u].linkCost, 0.0 + c[u].functionCost)
    else c[w]
  }

  function RelaxedParent(mat: seq<seq<real>>, c: seq<PathCost>, par: seq<int>, unexplored: set<int>, u: int, w: int): int
    requires 0 <= u < |c| && 0 <= w < |c| && |par| == |c|
  {
    if Relaxes(mat, c, unexplored, u, w) then u else par[w]
  }

  /** c' and par' are c and par after u has relaxed its edges into rest. */
  predicate RelaxedAll(mat: seq<seq<real>>, c: seq<PathCost>, par: seq<int>, rest: set<int>, u: int,
                       c': seq<PathCost>, par': seq<int>)
    requires 0 <= u < |c| && |par| == |c|
  {
    && |c'| == |c| && |par'| == |c|
    && (forall w :: 0 <= w < |c| ==> c'[w] == RelaxedCost(mat, c, rest, u, w))
    && (forall w :: 0 <= w < |c| ==> par'[w] == RelaxedParent(mat, c, par, rest, u, w))
  }

  /** Sizes and the source's own entry. */
  predicate Shape(mat: seq<seq<real>>, s: int, c: seq<PathCost>, par: seq<int>, rank: seq<nat>)
  {
    && Square(mat) && 0 <= s < |mat|
    && |c| == |mat| && |par| == |mat| && |rank| == |mat|
    && c[s] == PathCost(0.0, 0.0) && par[s] == EMPTY_PARENT
  }

  /** The tree edge into v, if v has a parent. */
  predicate TreeEdge(mat: seq<seq<real>>, c: seq<PathCost>, par: seq<int>, rank: seq<nat>, v: int)
    requires |c| == |mat| && |par| == |mat| && |rank| == |mat| && 0 <= v < |mat|
  {
    var p := par[v];
    p != EMPTY_PARENT ==>
      && 0 <= p < |mat| && Edge(mat, p, v)
      && c[v] == PathCost(c[p].linkCost + mat[p][v], c[p].functionCost)
      && rank[p] < rank[v]
  }

  /**
   * The shape of what the algorithm returns: the source costs nothing and
   * has no parent, a router without a parent still has the initial cost,
   * every cost is non-negative, and every parent pointer is an edge whose
   * cost the child's cost adds to the parent's, with ranks decreasing
   * towards the root.
   */
  predicate ShortestPathTree(mat: seq<seq<real>>, s: int, dr: DijkstraResult, rank: seq<nat>)
  {
    && Shape(mat, s, dr.costs, dr.parent, rank)
    && (forall v :: 0 <= v < |mat| && v != s && dr.parent[v] == EMPTY_PARENT ==> dr.costs[v] == Unreached)
    && (forall v :: 0 <= v < |mat| ==> dr.costs[v].TotalCost() >= 0.0)
    && (forall v :: 0 <= v < |mat| ==> TreeEdge(mat, dr.costs, dr.parent, rank, v))
  }

  /** Every edge out of an explored router into an unexplored one has been relaxed. */
  predicate Relaxed(mat: seq<seq<real>>, c: seq<PathCost>, unexplored: set<int>)
    requires |c| == |mat|
  {
    forall x, y {:trigger Key(c, x), Key(c, y)} ::
      0 <= x < |mat| && 0 <= y < |mat| && x !in unexplored && y in unexplored && Edge(mat, x, y) ==>
        Key(c, y) <= Key(c, x) + mat[x][y]
  }

  /** Explored routers cost no more than unexplored ones. */
  predicate Ordered(c: seq<PathCost>, unexplored: set<int>)
  {
    forall x, y {:trigger Key(c, x), Key(c, y)} ::
      0 <= x < |c| && 0 <= y < |c| && x !in unexplored && y in unexplored ==> Key(c, x) <= Key(c, y)
  }

  /** Facts about the explored routers (those outside unexplored). */
  predicate Frontier(mat: seq<seq<real>>, s: int, c: seq<PathCost>, par: seq<int>, rank: seq<nat>,
                     unexplored: set<int>, start: nat)
    requires Shape(mat, s, c, par, rank)
  {
    && (forall v :: v in unexplored ==> 0 <= v < |mat|)
    && |unexplored| + start == |mat|
    && (forall v :: 0 <= v < |mat| && par[v] != EMPTY_PARENT ==> par[v] !in unexplored)
    && (forall v :: 0 <= v < |mat| ==> if v in unexplored then rank[v] == |mat| else rank[v] < start)
    && Relaxed(mat, c, unexplored)
    && Ordered(c, unexplored)
  }

  /** Explored routers cost no more than any path to them. */
  ghost predicate ExploredOptimal(mat: seq<seq<real>>, s: int, c: seq<PathCost>, unexplored: set<int>)
    requires |c| == |mat|
  {
    forall p :: IsPath(mat, p) && p[0] == s && p[|p| - 1] !in unexplored ==> c[p[|p| - 1]].TotalCost() <= Weight(mat, p)
  }

  ghost predicate LoopInv(mat: seq<seq<real>>, s: int, c: seq<PathCost>, par: seq<int>, rank: seq<nat>,
                          unexplored: set<int>, start: nat)
  {
    && ShortestPathTree(mat, s, DijkstraResult(par, c), rank)
    && Frontier(mat, s, c, par, rank, unexplored, start)
    && ExploredOptimal(mat, s, c, unexplored)
  }

  /**
   * A path from the source to an unexplored router passes a first
   * unexplored router, which costs no more than the whole path.
   */
  lemma SomeUnexploredBelow(mat: seq<seq<real>>, s: int, c: seq<PathCost>, unexplored: set<int>, p: seq<int>)
    returns (y: int)
    requires |c| == |mat| && 0 <= s < |mat| && c[s] == PathCost(0.0, 0.0)
    requires forall v :: v in unexplored ==> 0 <= v < |mat|
    requires Relaxed(mat, c, unexplored) && ExploredOptimal(mat, s, c, unexplored)
    requires IsPath(mat, p) && p[0] == s && p[|p| - 1] in unexplored
    ensures y in unexplored && c[y].TotalCost() <= Weight(mat, p)
  {
    if s in unexplored {
      WeightNonNegative(mat, p);
      return s;
    }
    var k := 1;
    while p[k] !in unexplored
      invariant 1 <= k < |p|
      invariant forall j :: 0 <= j < k ==> p[j] !in unexplored
      decreases |p| - k
    {
      k := k + 1;
    }
    y := p[k];
    WeightExtend(mat, p, k);
    WeightPrefix(mat, p, k + 1);
    assert Edge(mat, p[k - 1], p[k]);
    assert p[..k][k - 1] == p[k - 1];
    assert Key(c, p[k]) <= Key(c, p[k - 1]) + mat[p[k - 1]][p[k]];
  }

  // ---------------------------------------------------------------------
  // One round of the main loop
  // ---------------------------------------------------------------------

  /** The tree edge into v after u has relaxed its edges and taken rank start. */
  lemma TreeEdgeStep(mat: seq<seq<real>>, c: seq<PathCost>, par: seq<int>, rank: seq<nat>,
                     rest: set<int>, start: nat, u: int, c': seq<PathCost>, par': seq<int>, v: int)
    requires |c| == |mat| && |par| == |mat| && |rank| == |mat| && |c'| == |mat| && |par'| == |mat|
    requires 0 <= u < |mat| && 0 <= v < |mat| && u !in rest
    requires TreeEdge(mat, c, par, rank, v)
    requires par[v] != EMPTY_PARENT ==> 0 <= par[v] < |mat| && par[v] !in rest && par[v] != u && rank[par[v]] < start
    requires v in rest ==> start < rank[v]
    requires c'[u] == c[u] && c'[v] == RelaxedCost(mat, c, rest, u, v) && par'[v] == RelaxedParent(mat, c, par, rest, u, v)
    requires par[v] != EMPTY_PARENT ==> c'[par[v]] == c[par[v]]
    ensures TreeEdge(mat, c', par', rank[u := start], v)
  {
  }

  /** After relaxation every tree edge is as before or points at u. */
  lemma ExploreStepEdges(mat: seq<seq<real>>, s: int, c: seq<PathCost>, par: seq<int>, rank: seq<nat>,
                         unexplored: set<int>, start: nat, u: int, c': seq<PathCost>, par': seq<int>,
                         rank': seq<nat>)
    requires Shape(mat, s, c, par, rank) && u in unexplored && 0 <= u < |mat| && rank' == rank[u := start]
    requires forall v :: 0 <= v < |mat| ==> TreeEdge(mat, c, par, rank, v)
    requires forall v :: 0 <= v < |mat| && par[v] != EMPTY_PARENT ==> par[v] !in unexplored
    requires forall v :: 0 <= v < |mat| ==> if v in unexplored then rank[v] == |mat| else rank[v] < start
    requires start < |mat|
    requires |c'| == |mat| && |par'| == |mat|
    requires forall w :: 0 <= w < |mat| ==> c'[w] == RelaxedCost(mat, c, unexplored - {u}, u, w)
    requires forall w :: 0 <= w < |mat| ==> par'[w] == RelaxedParent(mat, c, par, unexplored - {u}, u, w)
    ensures forall v :: 0 <= v < |mat| ==> TreeEdge(mat, c', par', rank', v)
  {
    var rest := unexplored - {u};
    assert c'[u] == c[u];
    forall v | 0 <= v < |mat|
      ensures TreeEdge(mat, c', par', rank', v)
    {
      assert TreeEdge(mat, c, par, rank, v);
      if par[v] != EMPTY_PARENT {
        assert par[v] !in unexplored;
        assert c'[par[v]] == c[par[v]];
      }
      TreeEdgeStep(mat, c, par, rank, rest, start, u, c', par', v);
    }
  }

  /** After relaxation, the source, parents and tree edges are as before or point at u. */
  lemma ExploreStepTree(mat: seq<seq<real>>, s: int, c: seq<PathCost>, par: seq<int>, rank: seq<nat>,
                        unexplored: set<int>, start: nat, u: int, c': seq<PathCost>, par': seq<int>)
    requires ShortestPathTree(mat, s, DijkstraResult(par, c), rank)
    requires Frontier(mat, s, c, par, rank, unexplored, start)
    requires u in unexplored
    requires |c'| == |mat| && |par'| == |mat|
    requires forall w :: 0 <= w < |mat| ==> c'[w] == RelaxedCost(mat, c, unexplored - {u}, u, w)
    requires forall w :: 0 <= w < |mat| ==> par'[w] == RelaxedParent(mat, c, par, unexplored - {u}, u, w)
    ensures ShortestPathTree(mat, s, DijkstraResult(par', c'), rank[u := start])
  {
    var rest := unexplored - {u};
    assert c[u].TotalCost() >= 0.0;
    assert !Relaxes(mat, c, rest, u, s);
    assert start < |mat| by {
      assert |unexplored| >= 1;
    }
    ExploreStepEdges(mat, s, c, par, rank, unexplored, start, u, c', par', rank[u := start]);
    forall v | 0 <= v < |mat| ensures c'[v].TotalCost() >= 0.0 {
      assert c[v].TotalCost() >= 0.0;
    }
  }

  /** After relaxation, the edges out of u and out of the explored routers are relaxed. */
  lemma StepRelaxed(mat: seq<seq<real>>, c: seq<PathCost>, unexplored: set<int>, u: int, c': seq<PathCost>)
    requires |c| == |mat| && |c'| == |mat| && 0 <= u < |mat| && u in unexplored
    requires Relaxed(mat, c, unexplored)
    requires forall w :: 0 <= w < |mat| ==> c'[w] == RelaxedCost(mat, c, unexplored - {u}, u, w)
    ensures Relaxed(mat, c', unexplored - {u})
  {
    var rest := unexplored - {u};
    forall x, y | 0 <= x < |mat| && 0 <= y < |mat| && x !in rest && y in rest && Edge(mat, x, y)
      ensures Key(c', y) <= Key(c', x) + mat[x][y]
    {
      assert c'[x] == c[x] && c'[y] == RelaxedCost(mat, c, rest, u, y);
      if x != u {
        assert Key(c, y) <= Key(c, x) + mat[x][y];
      }
    }
  }

  /** After relaxation from the cheapest unexplored router u, the order still holds. */
  lemma StepOrdered(mat: seq<seq<real>>, c: seq<PathCost>, unexplored: set<int>, u: int, c': seq<PathCost>)
    requires |c| == |mat| && |c'| == |mat| && 0 <= u < |mat| && u in unexplored
    requires Ordered(c, unexplored)
    requires forall y :: 0 <= y < |c| && y in unexplored ==> c[u].TotalCost() <= c[y].TotalCost()
    requires forall w :: 0 <= w < |mat| ==> c'[w] == RelaxedCost(mat, c, unexplored - {u}, u, w)
    ensures Ordered(c', unexplored - {u})
  {
    var rest := unexplored - {u};
    forall x, y | 0 <= x < |mat| && 0 <= y < |mat| && x !in rest && y in rest
      ensures Key(c', x) <= Key(c', y)
    {
      assert c'[x] == c[x] && c'[y] == RelaxedCost(mat, c, rest, u, y);
      if x != u {
        assert Key(c, x) <= Key(c, u);
      }
      if Relaxes(mat, c, rest, u, y) {
        assert mat[u][y] >= 0.0;
      }
    }
  }

  /** After relaxation, the frontier facts hold for the explored routers plus u. */
  lemma ExploreStepFrontier(mat: seq<seq<real>>, s: int, c: seq<PathCost>, par: seq<int>, rank: seq<nat>,
                            unexplored: set<int>, start: nat, u: int, c': seq<PathCost>, par': seq<int>)
    requires Shape(mat, s, c, par, rank) && Frontier(mat, s, c, par, rank, unexplored, start)
    requires u in unexplored && forall y :: y in unexplored ==> c[u].TotalCost() <= c[y].TotalCost()
    requires |c'| == |mat| && |par'| == |mat|
    requires forall w :: 0 <= w < |mat| ==> c'[w] == RelaxedCost(mat, c, unexplored - {u}, u, w)
    requires forall w :: 0 <= w < |mat| ==> par'[w] == RelaxedParent(mat, c, par, unexplored - {u}, u, w)
    requires Shape(mat, s, c', par', rank[u := start])
    ensures Frontier(mat, s, c', par', rank[u := start], unexplored - {u}, start + 1)
  {
    var rest := unexplored - {u};
    var rank' := rank[u := start];
    StepRelaxed(mat, c, unexplored, u, c');
    StepOrdered(mat, c, unexplored, u, c');
    forall v | 0 <= v < |mat| && par'[v] != EMPTY_PARENT ensures par'[v] !in rest {
      assert par'[v] == RelaxedParent(mat, c, par, rest, u, v);
    }
    forall v | 0 <= v < |mat| ensures if v in rest then rank'[v] == |mat| else rank'[v] < start + 1 {
      if v != u {
        assert rank'[v] == rank[v];
      }
    }
  }

  /** After relaxation, u joins the explored routers and costs no more than any path to it. */
  lemma ExploreStepOptimal(mat: seq<seq<real>>, s: int, c: seq<PathCost>, unexplored: set<int>, u: int,
                           c': seq<PathCost>)
    requires |c| == |mat| && 0 <= s < |mat| && c[s] == PathCost(0.0, 0.0)
    requires forall v :: v in unexplored ==> 0 <= v < |mat|
    requires Relaxed(mat, c, unexplored) && ExploredOptimal(mat, s, c, unexplored)
    requires u in unexplored && forall y :: y in unexplored ==> c[u].TotalCost() <= c[y].TotalCost()
    requires |c'| == |mat|
    requires forall w :: 0 <= w < |mat| ==> w !in unexplored || w == u ==> c'[w] == c[w]
    ensures ExploredOptimal(mat, s, c', unexplored - {u})
  {
    forall p | IsPath(mat, p) && p[0] == s && p[|p| - 1] !in unexplored - {u}
      ensures c'[p[|p| - 1]].TotalCost() <= Weight(mat, p)
    {
      if p[|p| - 1] == u {
        var y := SomeUnexploredBelow(mat, s, c, unexplored, p);
      }
    }
  }

  /** The removal of u from the unexplored part of the queue. */
  lemma PopQueue(q: seq<int>, start: nat, unexplored: set<int>)
    requires start < |q| && multiset(q[start..]) == multiset(unexplored)
    ensures q[start] in unexplored
    ensures multiset(q[start + 1..]) == multiset(unexplored - {q[start]})
  {
    var u := q[start];
    assert q[start..] == [u] + q[start + 1..];
    assert u in multiset(q[start..]);
    forall x ensures multiset(q[start + 1..])[x] == multiset(unexplored - {u})[x] {
      assert multiset(q[start..])[x] == multiset{u}[x] + multiset(q[start + 1..])[x];
      assert multiset(unexplored)[x] == if x in unexplored then 1 else 0;
      assert multiset(unexplored - {u})[x] == if x in unexplored && x != u then 1 else 0;
    }
  }

  /** Membership in the unexplored part of the queue is membership in unexplored. */
  lemma QueueMembership(q: seq<int>, from: nat, unexplored: set<int>, v: int)
    requires from <= |q| && multiset(q[from..]) == multiset(unexplored)
    ensures (exists k :: from <= k < |q| && q[k] == v) <==> v in unexplored
  {
    if exists k :: from <= k < |q| && q[k] == v {
      var k :| from <= k < |q| && q[k] == v;
      assert q[from..][k - from] == v;
      assert v in multiset(q[from..]);
    }
    if v in unexplored {
      assert v in multiset(q[from..]);
      assert v in q[from..];
      var k :| 0 <= k < |q[from..]| && q[from..][k] == v;
      assert q[from + k] == v;
    }
  }

  /** After the sort, the head of the unexplored part is a cheapest unexplored router. */
  lemma HeadIsLeast(q: seq<int>, c: seq<PathCost>, start: nat, unexplored: set<int>)
    requires start < |q| && KeysInRange(q, c, start)
    requires multiset(q[start..]) == multiset(unexplored)
    requires forall a, b :: start <= a < b < |q| ==> Key(c, q[a]) <= Key(c, q[b])
    ensures q[start] in unexplored && 0 <= q[start] < |c|
    ensures multiset(q[start + 1..]) == multiset(unexplored - {q[start]})
    ensures forall y :: y in unexplored ==> 0 <= y < |c| && c[q[start]].TotalCost() <= c[y].TotalCost()
  {
    PopQueue(q, start, unexplored);
    forall y | y in unexplored ensures 0 <= y < |c| && c[q[start]].TotalCost() <= c[y].TotalCost() {
      QueueMembership(q, start, unexplored, y);
      var k :| start <= k < |q| && q[k] == y;
      if k > start {
        assert Key(c, q[start]) <= Key(c, q[k]);
      }
    }
  }

  /** One round of the main loop keeps the loop invariant. */
  lemma ExploreStep(mat: seq<seq<real>>, s: int, c: seq<PathCost>, par: seq<int>, rank: seq<nat>,
                    unexplored: set<int>, start: nat, u: int, c': seq<PathCost>, par': seq<int>)
    requires LoopInv(mat, s, c, par, rank, unexplored, start)
    requires u in unexplored && forall y :: y in unexplored ==> 0 <= y < |c| && c[u].TotalCost() <= c[y].TotalCost()
    requires 0 <= u < |c| && |par| == |c| && RelaxedAll(mat, c, par, unexplored - {u}, u, c', par')
    ensures LoopInv(mat, s, c', par', rank[u := start], unexplored - {u}, start + 1)
  {
    ExploreStepTree(mat, s, c, par, rank, unexplored, start, u, c', par');
    ExploreStepFrontier(mat, s, c, par, rank, unexplored, start, u, c', par');
    ExploreStepOptimal(mat, s, c, unexplored, u, c');
  }

  predicate NoSentinel(costs: seq<PathCost>)
  {
    forall v :: 0 <= v < |costs| ==> costs[v].TotalCost() != INF_DISTANCE
  }

  /**
   * When the loop stops, every path from the source lighter than
   * INF_DISTANCE, or any path at all when no cost is INF_DISTANCE, ends at
   * a router whose cost is no more than the path's weight.
   */
  lemma {:induction false} LoopExit(mat: seq<seq<real>>, s: int, c: seq<PathCost>, par: seq<int>, rank: seq<nat>,
                 unexplored: set<int>, start: nat)
    requires LoopInv(mat, s, c, par, rank, unexplored, start)
    requires unexplored == {} || !NoSentinel(c)
    requires forall y :: y in unexplored ==> 0 <= y < |c| && c[y].TotalCost() >= INF_DISTANCE
    ensures forall p :: IsPath(mat, p) && p[0] == s && (Weight(mat, p) < INF_DISTANCE || NoSentinel(c)) ==>
              c[p[|p| - 1]].TotalCost() <= Weight(mat, p)
  {
    forall p | IsPath(mat, p) && p[0] == s && (Weight(mat, p) < INF_DISTANCE || NoSentinel(c))
      ensures c[p[|p| - 1]].TotalCost() <= Weight(mat, p)
    {
      if p[|p| - 1] in unexplored {
        if NoSentinel(c) {
          assert false;
        } else {
          var y := SomeUnexploredBelow(mat, s, c, unexplored, p);
          assert false;
        }
      }
    }
  }

  /** The inner loop of calculateDijkstraPath: u relaxes its edges into the routers of q[from..]. */
  method RelaxNeighbors(matrix: seq<seq<real>>, q: array<int>, from: nat, u: int,
                        costs: array<PathCost>, parent: array<int>,
                        ghost c0: seq<PathCost>, ghost p0: seq<int>, ghost rest: set<int>)
    requires Square(matrix) && |matrix| == costs.Length == parent.Length
    requires c0 == costs[..] && p0 == parent[..]
    requires 0 <= u < costs.Length && from <= q.Length && q != parent
    requires multiset(q[from..]) == multiset(rest)
    modifies costs, parent
    ensures RelaxedAll(matrix, c0, p0, rest, u, costs[..], parent[..])
  {
    var n := costs.Length;
    for v := 0 to n
      invariant forall w :: 0 <= w < n ==> costs[w] == if w < v then RelaxedCost(matrix, c0, rest, u, w) else c0[w]
      invariant forall w :: 0 <= w < n ==> parent[w] == if w < v then RelaxedParent(matrix, c0, p0, rest, u, w) else p0[w]
    {
      assert costs[u] == c0[u];
      if matrix[u][v] >= 0.0 {
        var notExplored := IsNotExplored(q, v, from);
        QueueMembership(q[..], from, rest, v);
        if notExplored {
          var newCost := PathCost(matrix[u][v], 0.0);
          if newCost.TotalCost() + costs[u].TotalCost() < costs[v].TotalCost() {
            costs[v] := PathCost(newCost.linkCost + costs[u].linkCost, newCost.functionCost + costs[u].functionCost);
            parent[v] := u;
          }
        }
      }
    }
    assert RelaxedAll(matrix, c0, p0, rest, u, costs[..], parent[..]);
  }

  /** The queue before the main loop: every router, in index order. */
  method InitQueue(n: nat) returns (q: array<int>, ghost all: set<int>)
    ensures fresh(q) && q.Length == n
    ensures forall k :: 0 <= k < n ==> q[k] == k
    ensures (forall k :: k in all <==> 0 <= k < n) && |all| == n
    ensures multiset(q[..]) == multiset(all)
  {
    q := new int[n];
    all := {};
    for i := 0 to n
      invariant forall k :: 0 <= k < i ==> q[k] == k
      invariant forall k :: k in all <==> 0 <= k < i
      invariant multiset(q[..i]) == multiset(all)
      invariant |all| == i
    {
      q[i] := i;
      assert q[..i + 1] == q[..i] + [i];
      assert i !in all;
      all := all + {i};
    }
    assert q[..] == q[..n];
  }

  /** Before the first round only the source has a cost and nothing is explored. */
  lemma InitialInv(mat: seq<seq<real>>, s: int, c: seq<PathCost>, par: seq<int>, rank: seq<nat>, all: set<int>)
    requires Square(mat) && 0 <= s < |mat|
    requires |c| == |mat| && forall v :: 0 <= v < |mat| ==> c[v] == if v == s then PathCost(0.0, 0.0) else Unreached
    requires |par| == |mat| && forall v :: 0 <= v < |mat| ==> par[v] == EMPTY_PARENT
    requires |rank| == |mat| && forall v :: 0 <= v < |mat| ==> rank[v] == |mat|
    requires (forall k :: k in all <==> 0 <= k < |mat|) && |all| == |mat|
    ensures LoopInv(mat, s, c, par, rank, all, 0)
  {
  }

  /**
   * One round of the main loop: sort the unexplored part of the queue, take
   * its head u, and unless u costs INF_DISTANCE let u relax its edges.
   */
  method ExploreRound(mat: seq<seq<real>>, q: array<int>, costs: array<PathCost>, parent: array<int>, start: nat,
                      ghost s: int, ghost cs: seq<PathCost>, ghost ps: seq<int>, ghost rank: seq<nat>,
                      ghost unexplored: set<int>)
    returns (u: int, stop: bool, ghost cs': seq<PathCost>, ghost ps': seq<int>, ghost rank': seq<nat>,
             ghost unexplored': set<int>)
    requires q != parent && q.Length == |mat| && start < |mat|
    requires costs[..] == cs && parent[..] == ps
    requires KeysInRange(q[..], cs, start) && multiset(q[start..]) == multiset(unexplored)
    requires LoopInv(mat, s, cs, ps, rank, unexplored, start)
    modifies q, costs, parent
    ensures u in unexplored && KeysInRange(q[..], cs, start + 1) && multiset(q[start + 1..]) == multiset(unexplored - {u})
    ensures stop ==> cs' == cs && ps' == ps && rank' == rank && unexplored' == unexplored
    ensures stop ==> costs[..] == cs && parent[..] == ps && !NoSentinel(cs)
    ensures stop ==> forall y :: y in unexplored ==> 0 <= y < |mat| && cs[y].TotalCost() >= INF_DISTANCE
    ensures !stop ==> costs[..] == cs' && parent[..] == ps' && KeysInRange(q[..], cs', start + 1)
    ensures !stop ==> multiset(q[start + 1..]) == multiset(unexplored')
    ensures !stop ==> LoopInv(mat, s, cs', ps', rank', unexplored', start + 1)
  {
    SortQueueByDistance(q, costs[..], start);
    assert costs[..] == cs && parent[..] == ps;
    u := q[start];
    HeadIsLeast(q[..], cs, start, unexplored);
    if costs[u].TotalCost() == INF_DISTANCE {
      return u, true, cs, ps, rank, unexplored;
    }
    RelaxNeighbors(mat, q, start + 1, u, costs, parent, cs, ps, unexplored - {u});
    ExploreStep(mat, s, cs, ps, rank, unexplored, start, u, costs[..], parent[..]);
    stop, cs', ps', rank', unexplored' := false, costs[..], parent[..], rank[u := start], unexplored - {u};
  }

  /**
   * The main loop of calculateDijkstraPath: rounds until the queue is empty
   * or its cheapest unexplored router costs INF_DISTANCE.
   */
  method ExploreAll(mat: seq<seq<real>>, q: array<int>, costs: array<PathCost>, parent: array<int>,
                    ghost s: int, ghost cs: seq<PathCost>, ghost ps: seq<int>, ghost rank: seq<nat>,
                    ghost unexplored: set<int>)
    returns (ghost cs': seq<PathCost>, ghost ps': seq<int>, ghost rank': seq<nat>, ghost unexplored': set<int>,
             ghost start: nat)
    requires Square(mat) && 0 <= s < |mat| && q != parent && q.Length == |mat|
    requires costs[..] == cs && parent[..] == ps
    requires |cs| == |mat| && forall v :: 0 <= v < |mat| ==> cs[v] == if v == s then PathCost(0.0, 0.0) else Unreached
    requires |ps| == |mat| && forall v :: 0 <= v < |mat| ==> ps[v] == EMPTY_PARENT
    requires |rank| == |mat| && forall v :: 0 <= v < |mat| ==> rank[v] == |mat|
    requires (forall k :: k in unexplored <==> 0 <= k < |mat|) && |unexplored| == |mat|
    requires KeysInRange(q[..], cs, 0) && multiset(q[0..]) == multiset(unexplored)
    modifies q, costs, parent
    ensures costs[..] == cs' && parent[..] == ps'
    ensures ShortestPathTree(mat, s, DijkstraResult(ps', cs'), rank')
    ensures forall p :: IsPath(mat, p) && p[0] == s && (Weight(mat, p) < INF_DISTANCE || NoSentinel(cs')) ==>
              cs'[p[|p| - 1]].TotalCost() <= Weight(mat, p)
  {
    InitialInv(mat, s, cs, ps, rank, unexplored);
    cs', ps', rank', unexplored' := cs, ps, rank, unexplored;
    var i := 0;
    while i < q.Length
      invariant i <= q.Length
      invariant costs[..] == cs' && parent[..] == ps'
      invariant KeysInRange(q[..], cs', i) && multiset(q[i..]) == multiset(unexplored')
      invariant LoopInv(mat, s, cs', ps', rank', unexplored', i)
    {
      var u, stop;
      u, stop, cs', ps', rank', unexplored' := ExploreRound(mat, q, costs, parent, i, s, cs', ps', rank', unexplored');
      if stop {
        LoopExit(mat, s, cs', ps', rank', unexplored', i);
        return cs', ps', rank', unexplored', i;
      }
      i := i + 1;
    }
    assert |unexplored'| == 0;
    LoopExit(mat, s, cs', ps', rank', unexplored', i);
    start := i;
  }

  /**
   * calculateDijkstraPath.  The result is a shortest-path tree over the
   * non-negative cells: no path from the source lighter than INF_DISTANCE
   * is lighter than its end's cost, and when no router's cost is exactly
   * INF_DISTANCE (the value the early exit tests for) no path at all is.
   */
  method CalculateDijkstraPath(mat: seq<seq<real>>, source: nat) returns (dr: DijkstraResult, ghost rank: seq<nat>)
    requires Square(mat) && source < |mat|
    ensures ShortestPathTree(mat, source, dr, rank)
    ensures forall p :: IsPath(mat, p) && p[0] == source && (Weight(mat, p) < INF_DISTANCE || NoSentinel(dr.costs)) ==>
              dr.costs[p[|p| - 1]].TotalCost() <= Weight(mat, p)
  {
    var n := |mat|;
    var parent := new int[n](_ => EMPTY_PARENT);
    var costs := new PathCost[n](_ => Unreached);
    costs[source] := PathCost(0.0, 0.0);
    var q;
    ghost var unexplored;
    q, unexplored := InitQueue(n);
    rank := seq(n, _ => n);
    ghost var cs := costs[..];
    ghost var ps := parent[..];
    ghost var unexplored', start;
    cs, ps, rank, unexplored', start := ExploreAll(mat, q, costs, parent, source, cs, ps, rank, unexplored);
    dr := DijkstraResult(parent[..], costs[..]);
    assert dr == DijkstraResult(ps, cs);
  }

  // ---------------------------------------------------------------------
  // Parent chains and the first hop
  // ---------------------------------------------------------------------

  /** Every parent pointer is in range and lowers the rank, so parent chains end. */
  predicate Ranked(par: seq<int>, rank: seq<nat>)
  {
    && |rank| == |par|
    && forall v :: 0 <= v < |par| && par[v] != EMPTY_PARENT ==> 0 <= par[v] < |par| && rank[par[v]] < rank[v]
  }

  lemma TreeIsRanked(mat: seq<seq<real>>, s: int, dr: DijkstraResult, rank: seq<nat>)
    requires ShortestPathTree(mat, s, dr, rank)
    ensures Ranked(dr.parent, rank)
  {
    forall v | 0 <= v < |dr.parent| && dr.parent[v] != EMPTY_PARENT
      ensures 0 <= dr.parent[v] < |dr.parent| && rank[dr.parent[v]] < rank[v]
    {
      assert TreeEdge(mat, dr.costs, dr.parent, rank, v);
    }
  }

  /** The tree path from the root of u's parent chain down to u. */
  ghost function TreePath(par: seq<int>, rank: seq<nat>, u: int): (path: seq<int>)
    requires Ranked(par, rank) && 0 <= u < |par|
    ensures |path| >= 1 && path[|path| - 1] == u
    ensures forall k :: 0 <= k < |path| ==> 0 <= path[k] < |par|
    decreases rank[u]
  {
    if par[u] == EMPTY_PARENT then [u] else TreePath(par, rank, par[u]) + [u]
  }

  /** The first hop towards dest: the router on dest's parent chain whose parent is source. */
  ghost function NextHopOf(par: seq<int>, rank: seq<nat>, source: nat, u: int): int
    requires Ranked(par, rank) && 0 <= u < |par|
    decreases rank[u]
  {
    if par[u] == source then u
    else if par[u] == EMPTY_PARENT then NO_NEXT_HOP
    else NextHopOf(par, rank, source, par[u])
  }

  /**
   * When the source has no parent, the first hop towards u is the second
   * router of u's tree path if that path starts at the source, and
   * NO_NEXT_HOP otherwise (in particular for u == source).
   */
  lemma {:induction false} NextHopOnTreePath(par: seq<int>, rank: seq<nat>, source: nat, u: int)
    requires Ranked(par, rank) && 0 <= u < |par| && source < |par| && par[source] == EMPTY_PARENT
    ensures var path := TreePath(par, rank, u);
            NextHopOf(par, rank, source, u) == if path[0] == source && |path| >= 2 then path[1] else NO_NEXT_HOP
    decreases rank[u]
  {
    var path := TreePath(par, rank, u);
    if par[u] != EMPTY_PARENT && par[u] != source {
      NextHopOnTreePath(par, rank, source, par[u]);
      var up := TreePath(par, rank, par[u]);
      assert path == up + [u];
      if up[0] == source {
        assert |up| >= 2;
      }
    }
  }

  /**
   * getNextHop: walk up the parent pointers from dest until the parent is
   * the source, giving up at a router without a parent.
   */
  method GetNextHop(dr: DijkstraResult, dest: int, source: nat, ghost rank: seq<nat>) returns (hop: int)
    requires Ranked(dr.parent, rank) && 0 <= dest < |dr.parent|
    ensures hop == NextHopOf(dr.parent, rank, source, dest)
  {
    var u := dest;
    while dr.parent[u] != source
      invariant 0 <= u < |dr.parent|
      invariant NextHopOf(dr.parent, rank, source, u) == NextHopOf(dr.parent, rank, source, dest)
      decreases rank[u]
    {
      if dr.parent[u] == EMPTY_PARENT {
        return NO_NEXT_HOP;
      }
      u := dr.parent[u];
    }
    return u;
  }

  /** Appending an edge to a path adds that edge's cost. */
  lemma {:induction false} PathAppend(mat: seq<seq<real>>, p: seq<int>, v: int)
    requires IsPath(mat, p) && Edge(mat, p[|p| - 1], v) && v < |mat|
    ensures IsPath(mat, p + [v]) && Weight(mat, p + [v]) == Weight(mat, p) + mat[p[|p| - 1]][v]
  {
    var q := p + [v];
    forall k | 0 <= k < |q| ensures 0 <= q[k] < |mat| {
      if k < |p| {
        assert q[k] == p[k];
      }
    }
    forall k | 0 <= k < |q| - 1 ensures Edge(mat, q[k], q[k + 1]) {
      if k < |p| - 1 {
        assert q[k] == p[k] && q[k + 1] == p[k + 1];
      } else {
        assert q[k] == p[|p| - 1] && q[k + 1] == v;
      }
    }
    assert IsPath(mat, q);
    assert q[..|q| - 1] == p && q[|q| - 2] == p[|p| - 1] && q[|q| - 1] == v;
  }

  /**
   * Along a tree path the service-function part of the cost stays that of
   * the root and the link part grows by the weight of the path.
   */
  lemma {:induction false} TreePathWeight(mat: seq<seq<real>>, dr: DijkstraResult, rank: seq<nat>, u: int)
    requires |dr.costs| == |mat| && |dr.parent| == |mat| && |rank| == |mat| && Ranked(dr.parent, rank)
    requires forall v :: 0 <= v < |mat| ==> TreeEdge(mat, dr.costs, dr.parent, rank, v)
    requires 0 <= u < |mat|
    ensures var path := TreePath(dr.parent, rank, u);
            && IsPath(mat, path)
            && dr.costs[u].linkCost == dr.costs[path[0]].linkCost + Weight(mat, path)
            && dr.costs[u].functionCost == dr.costs[path[0]].functionCost
    decreases rank[u]
  {
    var par := dr.parent;
    if par[u] != EMPTY_PARENT {
      var p := par[u];
      assert TreeEdge(mat, dr.costs, par, rank, u);
      TreePathWeight(mat, dr, rank, p);
      var up := TreePath(par, rank, p);
      PathAppend(mat, up, u);
      assert TreePath(par, rank, u) == up + [u];
    }
  }

  /**
   * The cost of a router whose tree path starts at the source is exactly
   * the weight of that path: the cost is attained by a real path.
   */
  lemma {:induction false} CostIsTreePathWeight(mat: seq<seq<real>>, s: int, dr: DijkstraResult, rank: seq<nat>, u: int)
    requires Shape(mat, s, dr.costs, dr.parent, rank) && 0 <= u < |mat|
    requires forall v :: 0 <= v < |mat| ==> TreeEdge(mat, dr.costs, dr.parent, rank, v)
    requires Ranked(dr.parent, rank) && TreePath(dr.parent, rank, u)[0] == s
    ensures IsPath(mat, TreePath(dr.parent, rank, u))
    ensures dr.costs[u].functionCost == 0.0
    ensures dr.costs[u].TotalCost() == Weight(mat, TreePath(dr.parent, rank, u))
  {
    TreePathWeight(mat, dr, rank, u);
    var path := TreePath(dr.parent, rank, u);
    assert dr.costs[path[0]] == PathCost(0.0, 0.0);
    assert dr.costs[u].linkCost == Weight(mat, path);
  }
}
