/**
 * The link-state routing calculation: from the adjacency advertisements to
 * next hops in the routing table, in the single-path mode (one Dijkstra run
 * from the own router) and in the multipath mode (one run per neighbour,
 * with the own router's row masked down to that neighbour).
 *
 * The routing table is a map from destination router to its set of next
 * hops; adding a next hop inserts it into the destination's set, creating
 * the entry when it is missing.
 */
module LinkState {

  import opened Ndn
  import opened AdjMatrix
  import opened ShortestPath

  type RoutingTable = map<Name, NexthopList>

  /** The configuration the calculation reads. */
  datatype ConfParameter = ConfParameter(routerPrefix: Name, maxFacesPerPrefix: nat, adjacencies: seq<Adjacent>)

  /** What the table learns for one destination: its name and the next hop towards it. */
  datatype Route = Route(dest: Name, hop: NextHop)

  /** The mapping numbers a name map hands out are its matrix indices. */
  predicate WellFormed(nm: NameMap)
  {
    forall n :: n in nm.mappingNo ==> nm.mappingNo[n] < nm.size
  }

  /** The router name of a mapping number, if there is one. */
  function RouterName(nm: NameMap, i: int): (r: Option<Name>)
    ensures r.Some? <==> 0 <= i && i as nat in nm.routerName
    ensures r.Some? ==> r.value == nm.routerName[i as nat]
  {
    if 0 <= i && i as nat in nm.routerName then Some(nm.routerName[i as nat]) else None
  }

  /** The position of the first adjacency with the given neighbour name. */
  function FindAdjacent(adjs: seq<Adjacent>, name: Name): (r: Option<nat>)
    ensures r.Some? ==> r.value < |adjs| && adjs[r.value].name == name
    ensures r.Some? ==> forall k :: 0 <= k < r.value ==> adjs[k].name != name
    ensures r.None? ==> forall k :: 0 <= k < |adjs| ==> adjs[k].name != name
  {
    if |adjs| == 0 then None
    else if adjs[0].name == name then Some(0)
    else match FindAdjacent(adjs[1..], name)
      case None => None
      case Some(k) => Some(k + 1)
  }

  /** addNextHop: insert the hop into the destination's next-hop set. */
  function AddNextHop(rt: RoutingTable, dest: Name, nh: NextHop): (rt': RoutingTable)
    ensures rt'.Keys == rt.Keys + {dest}
    ensures rt'[dest] == (if dest in rt then rt[dest] else {}) + {nh}
    ensures forall d :: d in rt && d != dest ==> rt'[d] == rt[d]
  {
    rt[dest := (if dest in rt then rt[dest] else {}) + {nh}]
  }

  // ---------------------------------------------------------------------
  // addNextHopsToRoutingTable
  // ---------------------------------------------------------------------

  /** A Dijkstra result over the routers of the name map, with its ranks. */
  predicate Fits(nm: NameMap, dr: DijkstraResult, rank: seq<nat>)
  {
    |dr.parent| == nm.size && |dr.costs| == nm.size && Ranked(dr.parent, rank)
  }

  /**
   * The route the table learns for destination i, or None when i is the
   * source, has no first hop, the first hop or i has no name, or the first
   * hop is not a configured adjacency.
   */
  ghost function RouteFor(nm: NameMap, source: nat, adjs: seq<Adjacent>, dr: DijkstraResult, rank: seq<nat>, i: nat): Option<Route>
    requires Fits(nm, dr, rank) && i < nm.size
  {
    if i == source then None
    else
      var hop := NextHopOf(dr.parent, rank, source, i);
      if hop == NO_NEXT_HOP then None
      else match RouterName(nm, hop)
        case None => None
        case Some(hopName) =>
          match RouterName(nm, i)
            case None => None
            case Some(destName) =>
              match FindAdjacent(adjs, hopName)
                case None => None
                case Some(a) => Some(Route(destName, NextHop(adjs[a].faceUri, dr.costs[i].TotalCost())))
  }

  /** The routes learnt for every destination, by mapping number. */
  ghost function Routes(nm: NameMap, source: nat, adjs: seq<Adjacent>, dr: DijkstraResult, rank: seq<nat>): (routes: seq<Option<Route>>)
    requires Fits(nm, dr, rank)
    ensures |routes| == nm.size
    ensures forall i :: 0 <= i < nm.size ==> routes[i] == RouteFor(nm, source, adjs, dr, rank, i)
  {
    seq(nm.size, i requires 0 <= i < nm.size => RouteFor(nm, source, adjs, dr, rank, i))
  }

  /** The table after adding the given routes in order. */
  function AddAll(rt: RoutingTable, routes: seq<Option<Route>>): RoutingTable
  {
    if |routes| == 0 then rt
    else
      var t := AddAll(rt, routes[..|routes| - 1]);
      match routes[|routes| - 1]
        case None => t
        case Some(r) => AddNextHop(t, r.dest, r.hop)
  }

  /** Adding one more route: the table grows by that route's next hop, if any. */
  lemma AddAllStep(rt: RoutingTable, routes: seq<Option<Route>>, i: nat)
    requires i < |routes|
    ensures AddAll(rt, routes[..i + 1]) == match routes[i]
              case None => AddAll(rt, routes[..i])
              case Some(r) => AddNextHop(AddAll(rt, routes[..i]), r.dest, r.hop)
  {
    assert routes[..i + 1][..i] == routes[..i];
  }

  /** Some route leads to d. */
  predicate HasDest(routes: seq<Option<Route>>, d: Name)
  {
    exists i :: 0 <= i < |routes| && routes[i].Some? && routes[i].value.dest == d
  }

  /** Some route leads to d via nh. */
  predicate HasRoute(routes: seq<Option<Route>>, d: Name, nh: NextHop)
  {
    exists i :: 0 <= i < |routes| && routes[i] == Some(Route(d, nh))
  }

  /**
   * Adding routes keeps every entry and next hop the table had, and gains
   * exactly the destinations and hops of the routes.
   */
  lemma {:induction false} AddAllContents(rt: RoutingTable, routes: seq<Option<Route>>)
    ensures forall d :: d in AddAll(rt, routes) <==> d in rt || HasDest(routes, d)
    ensures forall d, nh :: d in AddAll(rt, routes) && nh in AddAll(rt, routes)[d] <==>
              (d in rt && nh in rt[d]) || HasRoute(routes, d, nh)
  {
    if |routes| > 0 {
      var init := routes[..|routes| - 1];
      AddAllContents(rt, init);
      forall d ensures HasDest(routes, d) <==> HasDest(init, d) || (routes[|init|].Some? && routes[|init|].value.dest == d)
      {
        if HasDest(routes, d) {
          var i :| 0 <= i < |routes| && routes[i].Some? && routes[i].value.dest == d;
          if i < |init| {
            assert init[i] == routes[i];
          }
        }
        if HasDest(init, d) {
          var i :| 0 <= i < |init| && init[i].Some? && init[i].value.dest == d;
          assert routes[i] == init[i];
        }
      }
      forall d, nh ensures HasRoute(routes, d, nh) <==> HasRoute(init, d, nh) || routes[|init|] == Some(Route(d, nh))
      {
        if HasRoute(routes, d, nh) {
          var i :| 0 <= i < |routes| && routes[i] == Some(Route(d, nh));
          if i < |init| {
            assert init[i] == routes[i];
          }
        }
        if HasRoute(init, d, nh) {
          var i :| 0 <= i < |init| && init[i] == Some(Route(d, nh));
          assert routes[i] == init[i];
        }
      }
    }
  }

  /**
   * addNextHopsToRoutingTable: for each destination other than the source,
   * find its first hop and add that hop's face with the destination's
   * cost, skipping destinations whose first hop, names or adjacency are
   * missing.
   */
  method AddNextHopsToRoutingTable(rt: RoutingTable, nm: NameMap, source: nat, adjs: seq<Adjacent>, dr: DijkstraResult, ghost rank: seq<nat>)
    returns (rt': RoutingTable)
    requires Fits(nm, dr, rank)
    ensures rt' == AddAll(rt, Routes(nm, source, adjs, dr, rank))
  {
    ghost var routes := Routes(nm, source, adjs, dr, rank);
    rt' := rt;
    var i := 0;
    while i < nm.size
      invariant i <= nm.size
      invariant rt' == AddAll(rt, routes[..i])
    {
      AddAllStep(rt, routes, i);
      if i != source {
        var nextHopRouter := GetNextHop(dr, i, source, rank);
        if nextHopRouter != NO_NEXT_HOP {
          var routeCost := dr.costs[i].TotalCost();
          var nextHopRouterName := RouterName(nm, nextHopRouter);
          if nextHopRouterName.Some? {
            var destRouterName := RouterName(nm, i);
            if destRouterName.Some? {
              var adj := FindAdjacent(adjs, nextHopRouterName.value);
              if adj.Some? {
                rt' := AddNextHop(rt', destRouterName.value, NextHop(adjs[adj.value].faceUri, routeCost));
              }
            }
          }
        }
      }
      i := i + 1;
    }
    assert routes[..nm.size] == routes;
  }

  // ---------------------------------------------------------------------
  // What a learnt route means
  // ---------------------------------------------------------------------

  /** Dijkstra's optimality promise for a result computed from source s. */
  ghost predicate Optimal(mat: seq<seq<real>>, s: nat, dr: DijkstraResult)
    requires |dr.costs| == |mat|
  {
    forall p :: IsPath(mat, p) && p[0] == s && (Weight(mat, p) < INF_DISTANCE || NoSentinel(dr.costs)) ==>
      dr.costs[p[|p| - 1]].TotalCost() <= Weight(mat, p)
  }

  /**
   * On a shortest-path tree, destination i gets a route exactly when it is
   * reached from the source through at least one more router, both i and
   * that first router have names, and the first router is a configured
   * adjacency. The route then goes to i's name, over the face of the first
   * adjacency with the first router's name, at the weight of the tree path,
   * which is no more than the weight of any other path to i.
   */
  lemma RouteFollowsTree(nm: NameMap, s: nat, adjs: seq<Adjacent>, mat: seq<seq<real>>, dr: DijkstraResult, rank: seq<nat>, i: nat)
    requires ShortestPathTree(mat, s, dr, rank) && Fits(nm, dr, rank) && i < nm.size
    ensures var path := TreePath(dr.parent, rank, i);
            RouteFor(nm, s, adjs, dr, rank, i).Some? <==>
              && i != s && path[0] == s && |path| >= 2
              && i in nm.routerName && path[1] as nat in nm.routerName
              && exists a :: 0 <= a < |adjs| && adjs[a].name == nm.routerName[path[1] as nat]
    ensures var path := TreePath(dr.parent, rank, i);
            var r := RouteFor(nm, s, adjs, dr, rank, i);
            r.Some? ==>
              && |path| >= 2 && path[1] as nat in nm.routerName && i in nm.routerName
              && r.value.dest == nm.routerName[i]
              && FindAdjacent(adjs, nm.routerName[path[1] as nat]).Some?
              && r.value.hop.face == adjs[FindAdjacent(adjs, nm.routerName[path[1] as nat]).value].faceUri
              && IsPath(mat, path) && r.value.hop.routeCost == Weight(mat, path)
    ensures var r := RouteFor(nm, s, adjs, dr, rank, i);
            r.Some? && Optimal(mat, s, dr) ==>
              forall p :: IsPath(mat, p) && p[0] == s && p[|p| - 1] == i && (Weight(mat, p) < INF_DISTANCE || NoSentinel(dr.costs)) ==>
                r.value.hop.routeCost <= Weight(mat, p)
  {
    assert Shape(mat, s, dr.costs, dr.parent, rank);
    NextHopOnTreePath(dr.parent, rank, s, i);
    var path := TreePath(dr.parent, rank, i);
    if path[0] == s {
      assert forall v :: 0 <= v < |mat| ==> TreeEdge(mat, dr.costs, dr.parent, rank, v);
      CostIsTreePathWeight(mat, s, dr, rank, i);
    }
  }

  // ---------------------------------------------------------------------
  // calculateLinkStateRoutingPath
  // ---------------------------------------------------------------------

  /** One Dijkstra run: the matrix it ran on, its result and the ranks of its tree. */
  datatype Run = Run(mat: seq<seq<real>>, dr: DijkstraResult, rank: seq<nat>)

  /** A run from s over the routers of the name map that kept Dijkstra's promises. */
  ghost predicate Computed(nm: NameMap, s: nat, run: Run)
  {
    && Square(run.mat) && |run.mat| == nm.size && s < nm.size
    && ShortestPathTree(run.mat, s, run.dr, run.rank) && Fits(nm, run.dr, run.rank)
    && Optimal(run.mat, s, run.dr)
  }

  /** Every run's result fits the name map. */
  predicate AllFit(nm: NameMap, runs: seq<Run>)
  {
    forall k :: 0 <= k < |runs| ==> Fits(nm, runs[k].dr, runs[k].rank)
  }

  /** Every run kept Dijkstra's promises. */
  ghost predicate AllComputed(nm: NameMap, s: nat, runs: seq<Run>)
  {
    AllFit(nm, runs) && forall k :: 0 <= k < |runs| ==> Computed(nm, s, runs[k])
  }

  /** The table after adding the routes of each run in turn. */
  ghost function AddRuns(rt: RoutingTable, nm: NameMap, s: nat, adjs: seq<Adjacent>, runs: seq<Run>): RoutingTable
    requires AllFit(nm, runs)
  {
    if |runs| == 0 then rt
    else
      var last := runs[|runs| - 1];
      assert AllFit(nm, runs[..|runs| - 1]) by {
        assert forall k :: 0 <= k < |runs| - 1 ==> runs[..|runs| - 1][k] == runs[k];
      }
      AddAll(AddRuns(rt, nm, s, adjs, runs[..|runs| - 1]), Routes(nm, s, adjs, last.dr, last.rank))
  }

  /** The matrix the advertisements give, after the symmetry correction. */
  ghost predicate IsAdjMatrix(nm: NameMap, lsdb: seq<AdjLsa>, mat: seq<seq<real>>)
  {
    && |mat| == nm.size && (forall i :: 0 <= i < nm.size ==> |mat[i]| == nm.size)
    && forall i, j :: 0 <= i < nm.size && 0 <= j < nm.size ==> mat[i][j] == AdjCost(nm, lsdb, i, j)
  }

  /** That matrix with the source's row masked down to the one link. */
  ghost predicate MaskedTo(nm: NameMap, lsdb: seq<AdjLsa>, s: nat, link: Link, mat: seq<seq<real>>)
  {
    && |mat| == nm.size && (forall i :: 0 <= i < nm.size ==> |mat[i]| == nm.size)
    && forall i, j :: 0 <= i < nm.size && 0 <= j < nm.size ==>
         mat[i][j] == if i != s then AdjCost(nm, lsdb, i, j)
                      else if j == link.index then link.cost
                      else NON_ADJACENT_COST
  }

  /** The links of s in that matrix: every other router at a non-negative cost, in index order. */
  ghost predicate SourceLinks(nm: NameMap, lsdb: seq<AdjLsa>, s: nat, links: seq<Link>)
  {
    && (forall k :: 0 <= k < |links| ==>
          && links[k].index < nm.size && links[k].index != s
          && links[k].cost == AdjCost(nm, lsdb, s, links[k].index) && links[k].cost >= 0.0)
    && (forall k, l :: 0 <= k < l < |links| ==> links[k].index < links[l].index)
    && (forall i :: 0 <= i < nm.size && i != s && AdjCost(nm, lsdb, s, i) >= 0.0 ==>
          exists k :: 0 <= k < |links| && links[k].index == i)
  }

  /** The first runs ran on the matrix masked down to the links of the same position. */
  ghost predicate AllMasked(nm: NameMap, lsdb: seq<AdjLsa>, s: nat, links: seq<Link>, runs: seq<Run>)
  {
    |runs| <= |links| && forall k :: 0 <= k < |runs| ==> MaskedTo(nm, lsdb, s, links[k], runs[k].mat)
  }

  /** The face of the first configured adjacency named after router j, if j has a name and such an adjacency exists. */
  function LinkFace(nm: NameMap, adjs: seq<Adjacent>, j: nat): Option<FaceUri>
  {
    if j !in nm.routerName then None
    else match FindAdjacent(adjs, nm.routerName[j])
      case None => None
      case Some(a) => Some(adjs[a].faceUri)
  }

  /**
   * A run on the matrix masked down to one link reaches every routed
   * destination through that link: the tree path leaves the source towards
   * the link's router, so the route uses the face of that router's
   * adjacency. Every other cell of the source's row is NON_ADJACENT_COST,
   * which is no edge.
   */
  lemma MaskedRouteUsesLink(nm: NameMap, lsdb: seq<AdjLsa>, s: nat, adjs: seq<Adjacent>, link: Link, run: Run, i: nat)
    requires Computed(nm, s, run) && MaskedTo(nm, lsdb, s, link, run.mat) && i < nm.size
    ensures var r := RouteFor(nm, s, adjs, run.dr, run.rank, i);
            var path := TreePath(run.dr.parent, run.rank, i);
            r.Some? ==> |path| >= 2 && path[0] == s && path[1] == link.index && LinkFace(nm, adjs, link.index) == Some(r.value.hop.face)
  {
    RouteFollowsTree(nm, s, adjs, run.mat, run.dr, run.rank, i);
    var path := TreePath(run.dr.parent, run.rank, i);
    if RouteFor(nm, s, adjs, run.dr, run.rank, i).Some? {
      assert Edge(run.mat, path[0], path[1]);
      var j: nat := path[1];
      assert run.mat[s][j] >= 0.0;
    }
  }

  /** Every next hop in the table after the runs was there before or is the route of some run to some destination. */
  lemma {:induction false} AddRunsContents(rt: RoutingTable, nm: NameMap, s: nat, adjs: seq<Adjacent>, runs: seq<Run>)
    requires AllFit(nm, runs)
    ensures forall d, nh :: d in AddRuns(rt, nm, s, adjs, runs) && nh in AddRuns(rt, nm, s, adjs, runs)[d] ==>
              (d in rt && nh in rt[d])
              || exists k, i :: 0 <= k < |runs| && 0 <= i < nm.size && RouteFor(nm, s, adjs, runs[k].dr, runs[k].rank, i) == Some(Route(d, nh))
  {
    if |runs| > 0 {
      var init, last := runs[..|runs| - 1], runs[|runs| - 1];
      assert AllFit(nm, init) by {
        assert forall k :: 0 <= k < |init| ==> init[k] == runs[k];
      }
      AddRunsContents(rt, nm, s, adjs, init);
      var before := AddRuns(rt, nm, s, adjs, init);
      var routes := Routes(nm, s, adjs, last.dr, last.rank);
      AddAllContents(before, routes);
      forall d, nh | d in AddRuns(rt, nm, s, adjs, runs) && nh in AddRuns(rt, nm, s, adjs, runs)[d]
        ensures (d in rt && nh in rt[d])
                || exists k, i :: 0 <= k < |runs| && 0 <= i < nm.size && RouteFor(nm, s, adjs, runs[k].dr, runs[k].rank, i) == Some(Route(d, nh))
      {
        if HasRoute(routes, d, nh) {
          var i :| 0 <= i < |routes| && routes[i] == Some(Route(d, nh));
          assert RouteFor(nm, s, adjs, runs[|runs| - 1].dr, runs[|runs| - 1].rank, i) == Some(Route(d, nh));
        } else if !(d in rt && nh in rt[d]) {
          assert d in before && nh in before[d];
          var k, i :| 0 <= k < |init| && 0 <= i < nm.size && RouteFor(nm, s, adjs, init[k].dr, init[k].rank, i) == Some(Route(d, nh));
          assert init[k] == runs[k];
        }
      }
    }
  }

  /** Every next hop of rt' was in rt or goes over the face of one of the links. */
  predicate LinkFacesOnly(rt: RoutingTable, rt': RoutingTable, nm: NameMap, adjs: seq<Adjacent>, links: seq<Link>)
  {
    forall d, nh :: d in rt' && nh in rt'[d] ==>
      (d in rt && nh in rt[d]) || exists k :: 0 <= k < |links| && LinkFace(nm, adjs, links[k].index) == Some(nh.face)
  }

  /**
   * The multipath mode: run k, masked down to link k, routes every
   * destination over the face of link k's adjacency, so each link of the
   * source contributes at most one face per destination, and every next hop
   * the runs add uses the face of one gathered link.
   */
  lemma MultipathFaces(rt: RoutingTable, nm: NameMap, lsdb: seq<AdjLsa>, s: nat, adjs: seq<Adjacent>, links: seq<Link>, runs: seq<Run>)
    requires AllComputed(nm, s, runs) && AllMasked(nm, lsdb, s, links, runs)
    ensures forall k, i :: 0 <= k < |runs| && 0 <= i < nm.size && RouteFor(nm, s, adjs, runs[k].dr, runs[k].rank, i).Some? ==>
              LinkFace(nm, adjs, links[k].index) == Some(RouteFor(nm, s, adjs, runs[k].dr, runs[k].rank, i).value.hop.face)
    ensures LinkFacesOnly(rt, AddRuns(rt, nm, s, adjs, runs), nm, adjs, links)
  {
    forall k, i | 0 <= k < |runs| && 0 <= i < nm.size && RouteFor(nm, s, adjs, runs[k].dr, runs[k].rank, i).Some?
      ensures LinkFace(nm, adjs, links[k].index) == Some(RouteFor(nm, s, adjs, runs[k].dr, runs[k].rank, i).value.hop.face)
    {
      MaskedRouteUsesLink(nm, lsdb, s, adjs, links[k], runs[k], i);
    }
    AddRunsContents(rt, nm, s, adjs, runs);
  }

  /** Appending a run that kept Dijkstra's promises keeps AllComputed. */
  lemma ComputedAppended(nm: NameMap, s: nat, runs: seq<Run>, run: Run)
    requires AllComputed(nm, s, runs) && Computed(nm, s, run)
    ensures AllComputed(nm, s, runs + [run])
  {
    var runs' := runs + [run];
    forall k | 0 <= k < |runs'| ensures Fits(nm, runs'[k].dr, runs'[k].rank) && Computed(nm, s, runs'[k]) {
      if k < |runs| {
        assert runs'[k] == runs[k];
      }
    }
  }

  /** Appending a run on the next link's masked matrix keeps AllMasked. */
  lemma MaskedAppended(nm: NameMap, lsdb: seq<AdjLsa>, s: nat, links: seq<Link>, runs: seq<Run>, run: Run)
    requires AllMasked(nm, lsdb, s, links, runs) && |runs| < |links| && MaskedTo(nm, lsdb, s, links[|runs|], run.mat)
    ensures AllMasked(nm, lsdb, s, links, runs + [run])
  {
    var runs' := runs + [run];
    forall k | 0 <= k < |runs'| ensures MaskedTo(nm, lsdb, s, links[k], runs'[k].mat) {
      if k < |runs| {
        assert runs'[k] == runs[k];
      }
    }
  }

  /** The routes of an appended run are added last. */
  lemma AddRunsAppended(rt: RoutingTable, nm: NameMap, s: nat, adjs: seq<Adjacent>, runs: seq<Run>, run: Run)
    requires AllFit(nm, runs) && Fits(nm, run.dr, run.rank)
    ensures AllFit(nm, runs + [run])
    ensures AddRuns(rt, nm, s, adjs, runs + [run]) == AddAll(AddRuns(rt, nm, s, adjs, runs), Routes(nm, s, adjs, run.dr, run.rank))
  {
    assert forall k :: 0 <= k < |runs| ==> (runs + [run])[k] == runs[k];
    assert (runs + [run])[..|runs|] == runs;
  }

  /** The loop invariants of the multipath mode survive one more run. */
  lemma RunAppended(rt: RoutingTable, nm: NameMap, lsdb: seq<AdjLsa>, s: nat, adjs: seq<Adjacent>,
                    links: seq<Link>, runs: seq<Run>, run: Run)
    requires AllComputed(nm, s, runs) && AllMasked(nm, lsdb, s, links, runs) && |runs| < |links|
    requires Computed(nm, s, run) && MaskedTo(nm, lsdb, s, links[|runs|], run.mat)
    ensures AllComputed(nm, s, runs + [run]) && AllMasked(nm, lsdb, s, links, runs + [run])
    ensures AddRuns(rt, nm, s, adjs, runs + [run]) == AddAll(AddRuns(rt, nm, s, adjs, runs), Routes(nm, s, adjs, run.dr, run.rank))
  {
    ComputedAppended(nm, s, runs, run);
    MaskedAppended(nm, lsdb, s, links, runs, run);
    AddRunsAppended(rt, nm, s, adjs, runs, run);
  }

  /**
   * One Dijkstra run from s over the current matrix, whose routes are then
   * added to the table.
   */
  method RunAndAdd(matrix: array2<real>, nm: NameMap, s: nat, rt: RoutingTable, adjs: seq<Adjacent>)
    returns (rt': RoutingTable, ghost run: Run)
    requires matrix.Length0 == nm.size && matrix.Length1 == nm.size && s < nm.size
    ensures Computed(nm, s, run) && run.mat == Rows(matrix)
    ensures rt' == AddAll(rt, Routes(nm, s, adjs, run.dr, run.rank))
  {
    var mat := Rows(matrix);
    var dr, rank := CalculateDijkstraPath(mat, s);
    TreeIsRanked(mat, s, dr, rank);
    rt' := AddNextHopsToRoutingTable(rt, nm, s, adjs, dr, rank);
    run := Run(mat, dr, rank);
  }

  /** One step of the multipath mode: the source's row masked down to one link, then a run. */
  method RunOnLink(matrix: array2<real>, nm: NameMap, s: nat, rt: RoutingTable, adjs: seq<Adjacent>, ghost lsdb: seq<AdjLsa>, link: Link)
    returns (rt': RoutingTable, ghost run: Run)
    requires matrix.Length0 == nm.size && matrix.Length1 == nm.size && s < nm.size
    requires forall i, j :: 0 <= i < nm.size && 0 <= j < nm.size && i != s ==> matrix[i, j] == AdjCost(nm, lsdb, i, j)
    modifies matrix
    ensures forall i, j :: 0 <= i < nm.size && 0 <= j < nm.size && i != s ==> matrix[i, j] == AdjCost(nm, lsdb, i, j)
    ensures Computed(nm, s, run) && MaskedTo(nm, lsdb, s, link, run.mat)
    ensures rt' == AddAll(rt, Routes(nm, s, adjs, run.dr, run.rank))
  {
    SimulateOneNeighbor(matrix, s, link);
    rt', run := RunAndAdd(matrix, nm, s, rt, adjs);
  }

  /** The multipath mode: one run per link of s, in link order. */
  method RunPerLink(matrix: array2<real>, nm: NameMap, s: nat, rt: RoutingTable, adjs: seq<Adjacent>, ghost lsdb: seq<AdjLsa>)
    returns (rt': RoutingTable, ghost runs: seq<Run>, links: seq<Link>)
    requires matrix.Length0 == nm.size && matrix.Length1 == nm.size && s < nm.size
    requires forall i, j :: 0 <= i < nm.size && 0 <= j < nm.size ==> matrix[i, j] == AdjCost(nm, lsdb, i, j)
    modifies matrix
    ensures AllComputed(nm, s, runs) && rt' == AddRuns(rt, nm, s, adjs, runs)
    ensures SourceLinks(nm, lsdb, s, links) && |runs| == |links| && AllMasked(nm, lsdb, s, links, runs)
    ensures LinkFacesOnly(rt, rt', nm, adjs, links)
  {
    links := GatherLinks(matrix, s);
    runs := [];
    rt' := rt;
    for k := 0 to |links|
      invariant forall i, j :: 0 <= i < nm.size && 0 <= j < nm.size && i != s ==> matrix[i, j] == AdjCost(nm, lsdb, i, j)
      invariant |runs| == k
      invariant AllComputed(nm, s, runs) && AllMasked(nm, lsdb, s, links, runs)
      invariant rt' == AddRuns(rt, nm, s, adjs, runs)
    {
      ghost var run;
      rt', run := RunOnLink(matrix, nm, s, rt', adjs, lsdb, links[k]);
      RunAppended(rt, nm, lsdb, s, adjs, links, runs, run);
      runs := runs + [run];
    }
    MultipathFaces(rt, nm, lsdb, s, adjs, links, runs);
  }

  /**
   * calculateLinkStateRoutingPath: nothing happens when the own router has
   * no mapping number. Otherwise, with one face per prefix, one Dijkstra
   * run over the advertised matrix adds its routes; with more, each link of
   * the own router in turn gets its own run over the matrix masked down to
   * that link, and the routes of every run are added in link order.
   */
  method CalculateLinkStateRoutingPath(nm: NameMap, rt: RoutingTable, conf: ConfParameter, lsdb: seq<AdjLsa>)
    returns (rt': RoutingTable, ghost runs: seq<Run>, links: seq<Link>)
    requires WellFormed(nm)
    ensures conf.routerPrefix !in nm.mappingNo ==> rt' == rt && runs == []
    ensures conf.routerPrefix in nm.mappingNo ==>
              var s := nm.mappingNo[conf.routerPrefix];
              && AllComputed(nm, s, runs) && rt' == AddRuns(rt, nm, s, conf.adjacencies, runs)
              && (conf.maxFacesPerPrefix == 1 ==> |runs| == 1 && IsAdjMatrix(nm, lsdb, runs[0].mat))
              && (conf.maxFacesPerPrefix != 1 ==>
                    SourceLinks(nm, lsdb, s, links) && |runs| == |links| && AllMasked(nm, lsdb, s, links, runs))
    ensures conf.routerPrefix in nm.mappingNo && conf.maxFacesPerPrefix != 1 ==> LinkFacesOnly(rt, rt', nm, conf.adjacencies, links)
  {
    if conf.routerPrefix !in nm.mappingNo {
      return rt, [], [];
    }
    var s := nm.mappingNo[conf.routerPrefix];
    var matrix := MakeAdjMatrix(nm, lsdb);
    if conf.maxFacesPerPrefix == 1 {
      ghost var run;
      rt', run := RunAndAdd(matrix, nm, s, rt, conf.adjacencies);
      ComputedAppended(nm, s, [], run);
      AddRunsAppended(rt, nm, s, conf.adjacencies, [], run);
      assert [] + [run] == [run];
      runs, links := [run], [];
    } else {
      rt', runs, links := RunPerLink(matrix, nm, s, rt, conf.adjacencies, lsdb);
    }
  }
}
