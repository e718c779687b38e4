/**
 * The name-prefix table: for every advertised prefix (and every known
 * router), the origins that contribute to it, the next hops merged from
 * those origins' routes, and the FIB entries pushed from them.
 *
 * Pool entries (one per origin router) are shared by every prefix that the
 * origin advertises; a pool entry keeps a use count and the names of the
 * prefixes that refer to it. Here the shared pointers become a map from
 * origin to pool entry, and a prefix entry's RteList becomes the set of
 * origins it refers to (it never holds the same pool entry twice).
 *
 * The FIB, the routing table and the LSDB are collaborators: the FIB is a
 * ghost map that records each update and remove, the routing table and the
 * Name LSAs of the LSDB are values passed in, and so is the current time.
 */
module PrefixTable {

  import opened Ndn
  import opened Ieee
  import opened NameLsaCodec
  import NameAdvertisement
  import LinkState

  /** The Name LSAs of the LSDB, by origin router. */
  type Lsdb = map<Name, NameAdvertisement.LsaState>

  /** DestNameKey: (origin router, prefix) to the cost the origin advertised for the prefix. */
  type CostTable = map<(Name, Name), real>

  datatype LsdbUpdate = Installed | Updated | Removed

  datatype LsaType = NameType | AdjacencyType | CoordinateType

  /** The parts of an LSA the table reads: its origin, its type and, for a Name LSA, its prefixes in list order. */
  datatype Lsa = Lsa(originRouter: Name, lsaType: LsaType, npl: seq<PrefixInfo>)

  /** The prefixes updateFromLsdb hands on from an installed or removed LSA: a Name LSA's, and none of any other. */
  function LsaPrefixes(lsa: Lsa): (ps: seq<PrefixInfo>)
    ensures lsa.lsaType != NameType ==> ps == []
  {
    if lsa.lsaType == NameType then lsa.npl else []
  }

  /** A NamePrefixTableEntry: its RteList as the set of origins, and its last merged next hops. */
  datatype TableEntry = TableEntry(rteList: set<Name>, nexthops: NexthopList)

  /**
   * A RoutingTablePoolEntry: the origin's next hops and the names of the
   * prefix entries that refer to it. Its use count is their number.
   */
  datatype PoolEntry = PoolEntry(nexthops: NexthopList, backRefs: set<Name>)
  {
    function UseCount(): nat { |backRefs| }
  }

  datatype RoutingTableEntry = RoutingTableEntry(destination: Name, nexthops: NexthopList)

  type Table = map<Name, TableEntry>

  type Pool = map<Name, PoolEntry>

  // ---------------------------------------------------------------------
  // The links between prefix entries and pool entries
  // ---------------------------------------------------------------------

  /**
   * Every pool entry is referred to, every prefix entry refers to some
   * origin, and a pool entry's back-references are exactly the prefix
   * entries whose RteList holds it.
   */
  predicate Linked(table: Table, pool: Pool)
  {
    && (forall o :: o in pool ==> pool[o].backRefs != {})
    && (forall n :: n in table ==> table[n].rteList != {})
    && (forall o, n :: o in pool && n in pool[o].backRefs ==> n in table && o in table[n].rteList)
    && (forall n, o :: n in table && o in table[n].rteList ==> o in pool && n in pool[o].backRefs)
  }

  /** A linked, synced entry: its origins are in the pool and its next hops are their merge. */
  lemma EntryInPool(table: Table, pool: Pool, n: Name)
    requires Linked(table, pool) && Synced(table, pool, {}) && n in table
    ensures forall o :: o in table[n].rteList ==> o in pool
    ensures table[n].nexthops == MergedHops(pool, table[n].rteList)
  {
    assert n !in {};
  }

  /** The prefixes that refer to origin o. */
  function Referrers(table: Table, o: Name): set<Name>
  {
    set n | n in table && o in table[n].rteList
  }

  /** The pool holds an origin exactly when some prefix entry refers to it. */
  lemma PoolIffReferenced(table: Table, pool: Pool, o: Name)
    requires Linked(table, pool)
    ensures o in pool <==> exists n :: n in table && o in table[n].rteList
  {
    if o in pool {
      var n :| n in pool[o].backRefs;
      assert n in table && o in table[n].rteList;
    }
  }

  /** A pool entry's use count is the number of prefix entries that refer to it. */
  lemma UseCountIsReferrers(table: Table, pool: Pool, o: Name)
    requires Linked(table, pool) && o in pool
    ensures pool[o].UseCount() == |Referrers(table, o)| > 0
  {
    assert pool[o].backRefs == Referrers(table, o);
  }

  /** generateNhlfromRteList: every next hop of every referred origin. */
  function MergedHops(pool: Pool, rtes: set<Name>): NexthopList
  {
    set o, nh | o in rtes && o in pool && nh in pool[o].nexthops :: nh
  }

  /** Two pools that agree on the next hops of the given origins merge them alike. */
  lemma MergedHopsFrame(pool: Pool, pool': Pool, rtes: set<Name>)
    requires forall o :: o in rtes ==> (o in pool <==> o in pool')
    requires forall o :: o in rtes && o in pool ==> pool[o].nexthops == pool'[o].nexthops
    ensures MergedHops(pool, rtes) == MergedHops(pool', rtes)
  {
    forall nh | nh in MergedHops(pool, rtes) ensures nh in MergedHops(pool', rtes) {
      var o :| o in rtes && o in pool && nh in pool[o].nexthops;
      assert o in pool' && nh in pool'[o].nexthops;
    }
    forall nh | nh in MergedHops(pool', rtes) ensures nh in MergedHops(pool, rtes) {
      var o :| o in rtes && o in pool' && nh in pool'[o].nexthops;
      assert o in pool && nh in pool[o].nexthops;
    }
  }

  /** Every prefix entry not in dirty holds the merge of its origins' current next hops. */
  predicate Synced(table: Table, pool: Pool, dirty: set<Name>)
  {
    forall n :: n in table && n !in dirty ==> table[n].nexthops == MergedHops(pool, table[n].rteList)
  }

  // ---------------------------------------------------------------------
  // addEntry and removeEntry on values
  // ---------------------------------------------------------------------

  /** The origins of name's entry after addEntry(name, r): the old ones, if any, and r. */
  function AttachedRtes(table: Table, name: Name, r: Name): set<Name>
  {
    (if name in table then table[name].rteList else {}) + {r}
  }

  /**
   * The pool after addEntry(name, r): r's entry is found, or created from
   * the routing table's route to r (no next hops without one), and name
   * becomes one of its back-references.
   */
  function AttachedPool(pool: Pool, table: Table, name: Name, r: Name, rt: LinkState.RoutingTable): Pool
  {
    if r in pool then pool[r := pool[r].(backRefs := pool[r].backRefs + {name})]
    else pool[r := PoolEntry(if r in rt then rt[r] else {}, {name})]
  }

  /** The table after addEntry(name, r): name's entry, found or created, refers to r and holds the merged next hops. */
  function AttachedTable(pool: Pool, table: Table, name: Name, r: Name, rt: LinkState.RoutingTable): Table
  {
    var rtes := AttachedRtes(table, name, r);
    table[name := TableEntry(rtes, MergedHops(AttachedPool(pool, table, name, r, rt), rtes))]
  }

  /** Adding an element grows a set's size by one exactly when it was not there. */
  lemma CountWith(s: set<Name>, x: Name)
    ensures |s + {x}| == |s| + (if x in s then 0 else 1)
  {
    if x in s {
      assert s + {x} == s;
    }
  }

  /** Giving name an entry that refers to the origins AttachedRtes names keeps the links with AttachedPool. */
  lemma AttachLinks(table: Table, pool: Pool, name: Name, r: Name, rt: LinkState.RoutingTable, e: TableEntry)
    requires Linked(table, pool) && e.rteList == AttachedRtes(table, name, r)
    ensures Linked(table[name := e], AttachedPool(pool, table, name, r, rt))
  {
    var pool' := AttachedPool(pool, table, name, r, rt);
    var table' := table[name := e];
    forall o, n | o in pool' && n in pool'[o].backRefs ensures n in table' && o in table'[n].rteList {
      if o != r {
        assert pool'[o] == pool[o];
      }
    }
    forall n, o | n in table' && o in table'[n].rteList ensures o in pool' && n in pool'[o].backRefs {
      if n != name {
        assert table'[n] == table[n];
      }
    }
  }

  /** addEntry grows r's use count exactly when name's entry did not refer to r yet. */
  lemma AttachUseCount(table: Table, pool: Pool, name: Name, r: Name, rt: LinkState.RoutingTable)
    requires Linked(table, pool)
    ensures AttachedPool(pool, table, name, r, rt)[r].UseCount()
            == (if r in pool then pool[r].UseCount() else 0) + (if name in table && r in table[name].rteList then 0 else 1)
  {
    var refs := if r in pool then pool[r].backRefs else {};
    assert AttachedPool(pool, table, name, r, rt)[r].backRefs == refs + {name};
    assert name in table && r in table[name].rteList <==> name in refs;
    CountWith(refs, name);
  }

  /**
   * addEntry keeps the links: afterwards there is one entry for name, it
   * refers to r, the pool holds r, and r's pool entry refers back to name.
   */
  lemma AttachLinked(table: Table, pool: Pool, name: Name, r: Name, rt: LinkState.RoutingTable)
    requires Linked(table, pool)
    ensures var pool' := AttachedPool(pool, table, name, r, rt);
            var table' := AttachedTable(pool, table, name, r, rt);
            && Linked(table', pool')
            && table'.Keys == table.Keys + {name} && r in table'[name].rteList
            && pool'.Keys == pool.Keys + {r} && name in pool'[r].backRefs
  {
    var pool' := AttachedPool(pool, table, name, r, rt);
    var table' := AttachedTable(pool, table, name, r, rt);
    AttachLinks(table, pool, name, r, rt, table'[name]);
  }

  /** addEntry leaves the other entries' merged next hops current and makes name's current. */
  lemma AttachSynced(table: Table, pool: Pool, name: Name, r: Name, rt: LinkState.RoutingTable, dirty: set<Name>)
    requires Linked(table, pool) && Synced(table, pool, dirty)
    ensures Synced(AttachedTable(pool, table, name, r, rt), AttachedPool(pool, table, name, r, rt), dirty - {name})
  {
    var pool' := AttachedPool(pool, table, name, r, rt);
    var table' := AttachedTable(pool, table, name, r, rt);
    forall n | n in table' && n !in dirty - {name}
      ensures table'[n].nexthops == MergedHops(pool', table'[n].rteList)
    {
      if n != name {
        assert table'[n] == table[n];
        MergedHopsFrame(pool, pool', table[n].rteList);
      }
    }
  }

  /**
   * The pool after removeEntry(name, r) when r is pooled and name has an
   * entry: if the entry refers to r, name stops being a back-reference of
   * r, and r leaves the pool when that leaves its use count at 0.
   */
  function DetachedPool(pool: Pool, table: Table, name: Name, r: Name): Pool
    requires r in pool && name in table
  {
    if r !in table[name].rteList then pool
    else if pool[r].backRefs - {name} == {} then pool - {r}
    else pool[r := pool[r].(backRefs := pool[r].backRefs - {name})]
  }

  /**
   * The pool's next hops after addEntry and removeEntry calls under one
   * routing table: an origin pooled before keeps its next hops, and a newly
   * pooled origin has its route's next hops, or none without a route.
   */
  predicate HopsFromRoutes(pool: Pool, pool': Pool, rt: LinkState.RoutingTable)
  {
    forall o :: o in pool' ==> pool'[o].nexthops == if o in pool then pool[o].nexthops else if o in rt then rt[o] else {}
  }

  /** The pool's next hops after removeEntry calls only: every origin still pooled was pooled, with the same next hops. */
  predicate HopsKept(pool: Pool, pool': Pool)
  {
    forall o :: o in pool' ==> o in pool && pool'[o].nexthops == pool[o].nexthops
  }

  /** addEntry keeps every pooled origin and its next hops, and a new origin takes its route's next hops or none. */
  lemma AttachHops(pool: Pool, table: Table, name: Name, r: Name, rt: LinkState.RoutingTable)
    ensures var pool' := AttachedPool(pool, table, name, r, rt);
            pool.Keys <= pool'.Keys && HopsFromRoutes(pool, pool', rt)
  {
  }

  /** removeEntry only drops pool entries: the others keep their next hops. */
  lemma DetachHops(pool: Pool, table: Table, name: Name, r: Name)
    requires r in pool && name in table
    ensures HopsKept(pool, DetachedPool(pool, table, name, r))
  {
  }

  /** Two runs of addEntry calls under the same routing table make one. */
  lemma HopsFromRoutesTrans(p0: Pool, p1: Pool, p2: Pool, rt: LinkState.RoutingTable)
    requires p0.Keys <= p1.Keys && HopsFromRoutes(p0, p1, rt) && HopsFromRoutes(p1, p2, rt)
    ensures HopsFromRoutes(p0, p2, rt)
  {
    forall o | o in p2
      ensures p2[o].nexthops == if o in p0 then p0[o].nexthops else if o in rt then rt[o] else {}
    {
      if o in p0 {
        assert o in p1;
      }
    }
  }

  /** Two runs of removeEntry calls make one. */
  lemma HopsKeptTrans(p0: Pool, p1: Pool, p2: Pool)
    requires HopsKept(p0, p1) && HopsKept(p1, p2)
    ensures HopsKept(p0, p2)
  {
  }

  /** Removals after additions: what survives still has the next hops the additions gave it. */
  lemma HopsKeptAfter(p0: Pool, p1: Pool, p2: Pool, rt: LinkState.RoutingTable)
    requires HopsFromRoutes(p0, p1, rt) && HopsKept(p1, p2)
    ensures HopsFromRoutes(p0, p2, rt)
  {
    forall o | o in p2
      ensures p2[o].nexthops == if o in p0 then p0[o].nexthops else if o in rt then rt[o] else {}
    {
      assert o in p1;
    }
  }

  /** The table after removeEntry(name, r): the entry goes when no origin is left, else it is regenerated. */
  function DetachedTable(pool: Pool, table: Table, name: Name, r: Name): Table
    requires r in pool && name in table
  {
    var rtes := table[name].rteList - {r};
    if rtes == {} then table - {name}
    else table[name := TableEntry(rtes, MergedHops(DetachedPool(pool, table, name, r), rtes))]
  }

  /**
   * removeEntry keeps the links: name's entry no longer refers to r (or is
   * gone, exactly when r was its only origin), and r stays pooled exactly
   * while some other prefix refers to it.
   */
  lemma DetachLinked(table: Table, pool: Pool, name: Name, r: Name)
    requires Linked(table, pool) && r in pool && name in table
    ensures var pool' := DetachedPool(pool, table, name, r);
            var table' := DetachedTable(pool, table, name, r);
            && Linked(table', pool')
            && (name in table' <==> table[name].rteList - {r} != {})
            && (name in table' ==> r !in table'[name].rteList)
            && (r in pool' <==> exists n :: n in table && n != name && r in table[n].rteList)
  {
    var pool' := DetachedPool(pool, table, name, r);
    var table' := DetachedTable(pool, table, name, r);
    var refs := pool[r].backRefs;
    if r in table[name].rteList {
      assert name in refs;
      if refs - {name} == {} {
        forall n | n in table && n != name ensures r !in table[n].rteList {
          assert n !in refs - {name};
        }
      } else {
        var x :| x in refs - {name};
        assert x in table && x != name && r in table[x].rteList;
      }
    } else {
      var x :| x in refs;
      assert x in table && x != name && r in table[x].rteList;
    }
    forall o, n | o in pool' && n in pool'[o].backRefs ensures n in table' && o in table'[n].rteList {
      if o != r {
        assert pool'[o] == pool[o];
      }
      if n == name && o != r {
        assert o in table[name].rteList;
      }
    }
    forall n, o | n in table' && o in table'[n].rteList ensures o in pool' && n in pool'[o].backRefs {
      if n != name {
        assert table'[n] == table[n];
        if o == r && r in table[name].rteList {
          assert n in refs - {name};
        }
      }
    }
  }

  /** removeEntry leaves the other entries' merged next hops current and makes name's current. */
  lemma DetachSynced(table: Table, pool: Pool, name: Name, r: Name, dirty: set<Name>)
    requires Linked(table, pool) && Synced(table, pool, dirty) && r in pool && name in table
    ensures Synced(DetachedTable(pool, table, name, r), DetachedPool(pool, table, name, r), dirty - {name})
  {
    var pool' := DetachedPool(pool, table, name, r);
    var table' := DetachedTable(pool, table, name, r);
    forall n | n in table' && n !in dirty - {name}
      ensures table'[n].nexthops == MergedHops(pool', table'[n].rteList)
    {
      if n != name {
        assert table'[n] == table[n];
        forall o | o in table[n].rteList ensures (o in pool <==> o in pool') {
          if o == r && r in table[name].rteList {
            assert n in pool[r].backRefs - {name};
          }
        }
        MergedHopsFrame(pool, pool', table[n].rteList);
      }
    }
  }

  /** removeEntry lowers r's use count by one when name's entry referred to r, and leaves it otherwise. */
  lemma DetachUseCount(table: Table, pool: Pool, name: Name, r: Name)
    requires Linked(table, pool) && r in pool && name in table
    ensures var pool' := DetachedPool(pool, table, name, r);
            r in pool' ==> pool'[r].UseCount() == pool[r].UseCount() - (if r in table[name].rteList then 1 else 0)
  {
    var refs := pool[r].backRefs;
    if r in table[name].rteList {
      assert name in refs;
      CountWith(refs - {name}, name);
      assert refs - {name} + {name} == refs;
    }
  }

  // ---------------------------------------------------------------------
  // The cost rule of adjustNexthopCosts
  // ---------------------------------------------------------------------

  /** What adjustNexthopCosts reads besides the entry: the cost table, the LSDB, the clock and the utilization window. */
  datatype Context = Context(costs: CostTable, lsdb: Lsdb, now: int, window: U32)

  /** Origin o's Name LSA lists prefix and flags it as a service function. */
  predicate MarksService(lsdb: Lsdb, o: Name, prefix: Name)
  {
    o in lsdb && prefix in lsdb[o].npl && lsdb[o].npl[prefix].isServiceFunction
  }

  /** Some contributing origin flags prefix as a service function. */
  predicate IsServicePrefix(lsdb: Lsdb, rtes: set<Name>, prefix: Name)
  {
    exists o :: o in rtes && MarksService(lsdb, o, prefix)
  }

  /**
   * The service test of adjustNexthopCosts: scans the origins, looks the
   * prefix up in each one's Name LSA, and stops at the first that flags it.
   */
  method IsServiceFunction(lsdb: Lsdb, rtes: set<Name>, prefix: Name) returns (b: bool)
    ensures b <==> IsServicePrefix(lsdb, rtes, prefix)
  {
    b := false;
    var todo := rtes;
    while todo != {} && !b
      invariant todo <= rtes
      invariant b ==> IsServicePrefix(lsdb, rtes, prefix)
      invariant !b ==> forall o :: o in rtes && o !in todo ==> !MarksService(lsdb, o, prefix)
      decreases todo
    {
      var o :| o in todo;
      if o in lsdb && prefix in lsdb[o].npl {
        b := lsdb[o].npl[prefix].isServiceFunction;
      }
      todo := todo - {o};
    }
  }

  /**
   * The record is stamped and older than twice the utilization window; the
   * doubled window is a uint32, so the doubling wraps modulo 2^32.
   */
  predicate Stale(info: ServiceFunctionInfo, now: int, window: U32)
  {
    info.lastUpdateTime != TIME_MIN && now - info.lastUpdateTime > (2 * window as int) % 0x1_0000_0000
  }

  /** processingTime > 0.0, load > 0.0 or usageCount > 0. */
  predicate HasMetrics(info: ServiceFunctionInfo)
  {
    Positive(info.processingTime) || Positive(info.load) || info.usageCount > 0
  }

  /** pt·pw + load·lw + uc·uw: non-negative when all six are. */
  function WeightedSum(pt: real, pw: real, ld: real, lw: real, uc: real, uw: real): (r: real)
    ensures pt >= 0.0 && pw >= 0.0 && ld >= 0.0 && lw >= 0.0 && uc >= 0.0 && uw >= 0.0 ==> r >= 0.0
  {
    pt * pw + ld * lw + uc * uw
  }

  /** pt·pw + load·lw + (usageCount/100)·uw, with the advertiser's weights. */
  function Weighted(info: ServiceFunctionInfo): real
  {
    WeightedSum(Value(info.processingTime), Value(info.processingWeight), Value(info.load), Value(info.loadWeight),
                info.usageCount as real / 100.0, Value(info.usageWeight))
  }

  /** The value-initialised record carries no telemetry. */
  lemma UnsetHasNoMetrics()
    ensures !HasMetrics(UNSET_INFO)
  {
    assert IsZero(ZERO);
  }

  /** functionCost for origin o: the weighted telemetry of o's record for prefix, when fresh and present. */
  function FunctionCost(lsdb: Lsdb, o: Name, prefix: Name, now: int, window: U32): (c: real)
    ensures o !in lsdb ==> c == 0.0
    ensures o in lsdb && prefix !in lsdb[o].services ==> c == 0.0
    ensures o in lsdb && prefix in lsdb[o].services && Stale(lsdb[o].services[prefix], now, window) ==> c == 0.0
    ensures o in lsdb && prefix in lsdb[o].services && !HasMetrics(lsdb[o].services[prefix]) ==> c == 0.0
  {
    if o !in lsdb then 0.0
    else
      var info := ServiceInfoFor(lsdb[o].services, prefix);
      UnsetHasNoMetrics();
      if !Stale(info, now, window) && HasMetrics(info) then Weighted(info) else 0.0
  }

  /** A double whose sign bit is clear stands for a number that is not negative. */
  lemma NotNegativeValue(x: Float64)
    requires !Negative(x)
    ensures Value(x) >= 0.0
  {
  }

  /** With non-negative telemetry and weights, the weighted sum is not negative. */
  lemma WeightedNonnegative(i: ServiceFunctionInfo)
    requires !Negative(i.processingTime) && !Negative(i.load)
    requires !Negative(i.processingWeight) && !Negative(i.loadWeight) && !Negative(i.usageWeight)
    ensures Weighted(i) >= 0.0
  {
    NotNegativeValue(i.processingTime);
    NotNegativeValue(i.load);
    NotNegativeValue(i.processingWeight);
    NotNegativeValue(i.loadWeight);
    NotNegativeValue(i.usageWeight);
  }

  /** With non-negative telemetry and weights, functionCost is not negative. */
  lemma FunctionCostNonnegative(lsdb: Lsdb, o: Name, prefix: Name, now: int, window: U32)
    requires o in lsdb && prefix in lsdb[o].services
    requires var i := lsdb[o].services[prefix];
             !Negative(i.processingTime) && !Negative(i.load)
             && !Negative(i.processingWeight) && !Negative(i.loadWeight) && !Negative(i.usageWeight)
    ensures FunctionCost(lsdb, o, prefix, now, window) >= 0.0
  {
    WeightedNonnegative(lsdb[o].services[prefix]);
  }

  /** m_nexthopCost[(o, prefix)] as read: the advertised cost, or 0 when none is recorded. */
  function AdvertisedCost(costs: CostTable, o: Name, prefix: Name): real
  {
    if (o, prefix) in costs then costs[(o, prefix)] else 0.0
  }

  /** What adjustNexthopCosts adds to every route cost through origin o. */
  function Extra(ctx: Context, o: Name, prefix: Name): real
  {
    AdvertisedCost(ctx.costs, o, prefix) + FunctionCost(ctx.lsdb, o, prefix, ctx.now, ctx.window)
  }

  /** nh with extra added to its route cost, on the same face. */
  function AdjustedHop(nh: NextHop, extra: real): NextHop
  {
    NextHop(nh.face, nh.routeCost + extra)
  }

  /** h is one of origin o's next hops on face, adjusted by extra. */
  predicate PicksWith(pool: Pool, o: Name, face: FaceUri, extra: real, h: NextHop)
  {
    o in pool && exists nh :: nh in pool[o].nexthops && nh.face == face && h == AdjustedHop(nh, extra)
  }

  /** h is one of origin o's next hops on face, adjusted by o's extra cost. */
  predicate Picks(pool: Pool, o: Name, face: FaceUri, ctx: Context, prefix: Name, h: NextHop)
  {
    PicksWith(pool, o, face, Extra(ctx, o, prefix), h)
  }

  /**
   * The map adjustNexthopCosts builds: keyed by (face, origin), one entry
   * for every next hop some origin contributes, each entry adjusted from a
   * hop of that origin on that face. The same face via two origins gives
   * two keys; a repeated pair keeps one hop.
   */
  predicate Resolved(keyed: map<(FaceUri, Name), NextHop>, pool: Pool, rtes: set<Name>, ctx: Context, prefix: Name)
  {
    && (forall k :: k in keyed ==> k.1 in rtes && Picks(pool, k.1, k.0, ctx, prefix, keyed[k]))
    && (forall o, nh :: o in rtes && o in pool && nh in pool[o].nexthops ==> (nh.face, o) in keyed)
  }

  /** The cost keys m_nexthopCost[(o, prefix)] creates: one per origin that contributes a next hop. */
  function LookedUp(pool: Pool, rtes: set<Name>, prefix: Name): set<(Name, Name)>
  {
    set o | o in rtes && o in pool && pool[o].nexthops != {} :: (o, prefix)
  }

  /** The cost table after operator[] read the given keys: missing ones hold 0. */
  function Touched(costs: CostTable, keys: set<(Name, Name)>): CostTable
  {
    map k | k in costs.Keys + keys :: if k in costs then costs[k] else 0.0
  }

  /** Reading through operator[] changes no cost that adjustNexthopCosts or a later read sees. */
  lemma TouchedReads(costs: CostTable, keys: set<(Name, Name)>, o: Name, prefix: Name)
    ensures AdvertisedCost(Touched(costs, keys), o, prefix) == AdvertisedCost(costs, o, prefix)
    ensures costs.Keys <= Touched(costs, keys).Keys
  {
  }

  /** One more read through operator[] touches one more key. */
  lemma TouchStep(costs: CostTable, keys: set<(Name, Name)>, o: Name, prefix: Name)
    ensures var t := Touched(costs, keys);
            t[(o, prefix) := AdvertisedCost(t, o, prefix)] == Touched(costs, keys + {(o, prefix)})
  {
  }

  /**
   * The inner loop of adjustNexthopCosts for origin o: enters every next hop
   * of o under (face, o), with o's advertised cost, read through operator[]
   * once per hop, and functionCost added to its route cost.
   */
  method ResolveOrigin(m: map<(FaceUri, Name), NextHop>, costs: CostTable, o: Name, functionCost: real,
                       pool: Pool, prefix: Name)
    returns (m': map<(FaceUri, Name), NextHop>, costs': CostTable)
    requires o in pool
    requires forall k :: k in m ==> k.1 != o
    ensures forall k :: k in m ==> k in m' && m'[k] == m[k]
    ensures forall k :: k in m' && k !in m ==>
              k.1 == o && PicksWith(pool, o, k.0, AdvertisedCost(costs, o, prefix) + functionCost, m'[k])
    ensures forall nh :: nh in pool[o].nexthops ==> (nh.face, o) in m'
    ensures costs' == if pool[o].nexthops == {} then costs else costs[(o, prefix) := AdvertisedCost(costs, o, prefix)]
  {
    m', costs' := m, costs;
    var hops := pool[o].nexthops;
    while hops != {}
      invariant hops <= pool[o].nexthops
      invariant forall k :: k in m ==> k in m' && m'[k] == m[k]
      invariant forall k :: k in m' && k !in m ==>
                  k.1 == o && PicksWith(pool, o, k.0, AdvertisedCost(costs, o, prefix) + functionCost, m'[k])
      invariant forall nh :: nh in pool[o].nexthops && nh !in hops ==> (nh.face, o) in m'
      invariant costs' == if hops == pool[o].nexthops then costs else costs[(o, prefix) := AdvertisedCost(costs, o, prefix)]
      decreases hops
    {
      var nh :| nh in hops;
      var nexthopCost := AdvertisedCost(costs', o, prefix);
      costs' := costs'[(o, prefix) := nexthopCost];
      assert AdjustedHop(nh, nexthopCost + functionCost) == NextHop(nh.face, nh.routeCost + nexthopCost + functionCost);
      m' := m'[(nh.face, o) := NextHop(nh.face, nh.routeCost + nexthopCost + functionCost)];
      hops := hops - {nh};
    }
  }

  /** Visiting one more origin adds its cost key when it contributes a next hop. */
  lemma LookedUpStep(pool: Pool, done: set<Name>, o: Name, prefix: Name)
    ensures LookedUp(pool, done + {o}, prefix)
            == LookedUp(pool, done, prefix) + (if o in pool && pool[o].nexthops != {} then {(o, prefix)} else {})
  {
  }

  /** The outer loop's invariant: the map and the cost table after visiting the origins in done. */
  predicate ResolvedSoFar(m: map<(FaceUri, Name), NextHop>, costs: CostTable, pool: Pool, done: set<Name>, ctx: Context, prefix: Name)
  {
    && (forall k :: k in m ==> k.1 in done && Picks(pool, k.1, k.0, ctx, prefix, m[k]))
    && (forall o, nh :: o in done && o in pool && nh in pool[o].nexthops ==> (nh.face, o) in m)
    && costs == Touched(ctx.costs, LookedUp(pool, done, prefix))
  }

  /** After o's round the cost table has touched o's key too, when o contributes a next hop. */
  lemma CostsNext(costs: CostTable, costs': CostTable, pool: Pool, done: set<Name>, o: Name, ctx: Context, prefix: Name)
    requires o in pool && costs == Touched(ctx.costs, LookedUp(pool, done, prefix))
    requires costs' == if pool[o].nexthops == {} then costs else costs[(o, prefix) := AdvertisedCost(costs, o, prefix)]
    ensures costs' == Touched(ctx.costs, LookedUp(pool, done + {o}, prefix))
  {
    LookedUpStep(pool, done, o, prefix);
    TouchStep(ctx.costs, LookedUp(pool, done, prefix), o, prefix);
  }

  /** After o's round the map holds a picked hop for every (face, o) pair as well. */
  lemma MapNext(m: map<(FaceUri, Name), NextHop>, m': map<(FaceUri, Name), NextHop>, pool: Pool, done: set<Name>, o: Name,
                ctx: Context, prefix: Name)
    requires forall k :: k in m ==> k.1 in done && Picks(pool, k.1, k.0, ctx, prefix, m[k])
    requires forall p, nh :: p in done && p in pool && nh in pool[p].nexthops ==> (nh.face, p) in m
    requires forall k :: k in m ==> k in m' && m'[k] == m[k]
    requires forall k :: k in m' && k !in m ==> k.1 == o && Picks(pool, o, k.0, ctx, prefix, m'[k])
    requires o in pool && forall nh :: nh in pool[o].nexthops ==> (nh.face, o) in m'
    ensures forall k :: k in m' ==> k.1 in done + {o} && Picks(pool, k.1, k.0, ctx, prefix, m'[k])
    ensures forall p, nh :: p in done + {o} && p in pool && nh in pool[p].nexthops ==> (nh.face, p) in m'
  {
  }

  /** One round of the outer loop of adjustNexthopCosts: computes o's functionCost and resolves o's next hops. */
  method ResolveNext(m: map<(FaceUri, Name), NextHop>, costs: CostTable, o: Name, pool: Pool, ctx: Context, prefix: Name,
                     ghost done: set<Name>)
    returns (m': map<(FaceUri, Name), NextHop>, costs': CostTable)
    requires ResolvedSoFar(m, costs, pool, done, ctx, prefix) && o !in done && o in pool
    ensures ResolvedSoFar(m', costs', pool, done + {o}, ctx, prefix)
  {
    var functionCost := FunctionCost(ctx.lsdb, o, prefix, ctx.now, ctx.window);
    TouchedReads(ctx.costs, LookedUp(pool, done, prefix), o, prefix);
    assert Extra(ctx, o, prefix) == AdvertisedCost(costs, o, prefix) + functionCost;
    m', costs' := ResolveOrigin(m, costs, o, functionCost, pool, prefix);
    CostsNext(costs, costs', pool, done, o, ctx, prefix);
    MapNext(m, m', pool, done, o, ctx, prefix);
  }

  /**
   * adjustNexthopCosts: a prefix no contributing origin flags as a service
   * function keeps its next hops. Otherwise every (face, origin) pair gets
   * one next hop whose cost is the route cost plus the origin's advertised
   * cost plus its functionCost; each cost read inserts 0 for a missing key.
   */
  method AdjustNexthopCosts(nhlist: NexthopList, prefix: Name, pool: Pool, rtes: set<Name>, ctx: Context)
    returns (r: NexthopList, costs: CostTable, ghost keyed: map<(FaceUri, Name), NextHop>)
    requires forall o :: o in rtes ==> o in pool
    ensures !IsServicePrefix(ctx.lsdb, rtes, prefix) ==> r == nhlist && costs == ctx.costs
    ensures IsServicePrefix(ctx.lsdb, rtes, prefix) ==>
              && Resolved(keyed, pool, rtes, ctx, prefix) && r == keyed.Values
              && costs == Touched(ctx.costs, LookedUp(pool, rtes, prefix))
  {
    var service := IsServiceFunction(ctx.lsdb, rtes, prefix);
    if !service {
      return nhlist, ctx.costs, map[];
    }
    var m: map<(FaceUri, Name), NextHop> := map[];
    costs := ctx.costs;
    var todo := rtes;
    assert LookedUp(pool, {}, prefix) == {};
    while todo != {}
      invariant todo <= rtes
      invariant ResolvedSoFar(m, costs, pool, rtes - todo, ctx, prefix)
      decreases todo
    {
      var o :| o in todo;
      m, costs := ResolveNext(m, costs, o, pool, ctx, prefix, rtes - todo);
      assert rtes - todo + {o} == rtes - (todo - {o});
      todo := todo - {o};
    }
    assert rtes - todo == rtes;
    r := m.Values;
    keyed := m;
  }

  /** The faces of a next-hop list. */
  function Faces(hops: NexthopList): set<FaceUri>
  {
    set nh | nh in hops :: nh.face
  }

  /** Adjusting keeps the faces: the result uses exactly the faces of the merged next hops. */
  lemma ResolvedFaces(keyed: map<(FaceUri, Name), NextHop>, pool: Pool, rtes: set<Name>, ctx: Context, prefix: Name)
    requires Resolved(keyed, pool, rtes, ctx, prefix)
    ensures Faces(keyed.Values) == Faces(MergedHops(pool, rtes))
  {
    forall f | f in Faces(keyed.Values) ensures f in Faces(MergedHops(pool, rtes)) {
      var h :| h in keyed.Values && h.face == f;
      var k :| k in keyed && keyed[k] == h;
      var nh :| nh in pool[k.1].nexthops && nh.face == k.0 && h == AdjustedHop(nh, Extra(ctx, k.1, prefix));
      assert nh in MergedHops(pool, rtes);
    }
    forall f | f in Faces(MergedHops(pool, rtes)) ensures f in Faces(keyed.Values) {
      var nh :| nh in MergedHops(pool, rtes) && nh.face == f;
      var o :| o in rtes && o in pool && nh in pool[o].nexthops;
      var h := keyed[(nh.face, o)];
      assert h in keyed.Values && h.face == f;
    }
  }

  /** A list with at most one next hop per face, as an origin's routing-table entry keeps it. */
  predicate OnePerFace(hops: NexthopList)
  {
    forall a, b :: a in hops && b in hops && a.face == b.face ==> a == b
  }

  /**
   * When each origin has at most one next hop per face, the adjusted list is
   * determined: the entry for every contributed hop's (face, origin) pair is
   * that hop with its origin's extra cost added.
   */
  lemma ResolvedUnique(keyed: map<(FaceUri, Name), NextHop>, pool: Pool, rtes: set<Name>, ctx: Context, prefix: Name)
    requires Resolved(keyed, pool, rtes, ctx, prefix)
    requires forall o :: o in rtes && o in pool ==> OnePerFace(pool[o].nexthops)
    ensures forall o, nh :: o in rtes && o in pool && nh in pool[o].nexthops ==>
              (nh.face, o) in keyed && keyed[(nh.face, o)] == AdjustedHop(nh, Extra(ctx, o, prefix))
  {
    forall o, nh | o in rtes && o in pool && nh in pool[o].nexthops
      ensures keyed[(nh.face, o)] == AdjustedHop(nh, Extra(ctx, o, prefix))
    {
      var nh' :| nh' in pool[o].nexthops && nh'.face == nh.face && keyed[(nh.face, o)] == AdjustedHop(nh', Extra(ctx, o, prefix));
      assert nh' == nh;
    }
  }

  // ---------------------------------------------------------------------
  // Routes, the FIB and the cost table across calls
  // ---------------------------------------------------------------------

  /** std::find_if over the new routing-table entries: an entry for dest, if there is one. */
  function FindRoute(entries: seq<RoutingTableEntry>, dest: Name): (r: Option<RoutingTableEntry>)
    ensures r.None? <==> forall i :: 0 <= i < |entries| ==> entries[i].destination != dest
    ensures r.Some? ==> r.value in entries && r.value.destination == dest
  {
    if |entries| == 0 then None
    else if entries[0].destination == dest then Some(entries[0])
    else FindRoute(entries[1..], dest)
  }

  /** The next hops a pool entry for dest ends with: the new route's, or none when dest has no route. */
  function RouteHops(entries: seq<RoutingTableEntry>, dest: Name): NexthopList
  {
    match FindRoute(entries, dest)
    case Some(e) => e.nexthops
    case None => {}
  }

  /** The new routes change dest's pool entry: dest has no route, or a route with other next hops. */
  predicate Changed(entries: seq<RoutingTableEntry>, pool: Pool, dest: Name)
    requires dest in pool
  {
    FindRoute(entries, dest).None? || FindRoute(entries, dest).value.nexthops != pool[dest].nexthops
  }

  /** Some origin of the entry has changed routes. */
  predicate Affected(entries: seq<RoutingTableEntry>, pool: Pool, rtes: set<Name>)
  {
    exists o :: o in rtes && o in pool && Changed(entries, pool, o)
  }

  /** Setting an origin's next hops leaves the links and every entry that does not refer to the origin current. */
  lemma RehopSynced(table: Table, pool: Pool, o: Name, hops: NexthopList)
    requires Linked(table, pool) && Synced(table, pool, {}) && o in pool
    ensures var pool' := pool[o := pool[o].(nexthops := hops)];
            Linked(table, pool') && Synced(table, pool', pool[o].backRefs)
  {
    var pool' := pool[o := pool[o].(nexthops := hops)];
    forall n | n in table && n !in pool[o].backRefs
      ensures table[n].nexthops == MergedHops(pool', table[n].rteList)
    {
      MergedHopsFrame(pool, pool', table[n].rteList);
    }
  }

  /**
   * Re-adding a prefix to an origin that already refers to it changes no
   * link; it only regenerates the prefix's merged next hops.
   */
  lemma AttachExisting(table: Table, pool: Pool, name: Name, r: Name, rt: LinkState.RoutingTable)
    requires Linked(table, pool) && r in pool && name in pool[r].backRefs
    ensures AttachedPool(pool, table, name, r, rt) == pool
    ensures AttachedTable(pool, table, name, r, rt)
            == table[name := TableEntry(table[name].rteList, MergedHops(pool, table[name].rteList))]
  {
    assert pool[r].backRefs + {name} == pool[r].backRefs;
    assert pool[r].(backRefs := pool[r].backRefs) == pool[r];
    assert AttachedRtes(table, name, r) == table[name].rteList;
  }

  /** The FIB follows the table: it holds every prefix with next hops and only table prefixes, each on the table entry's faces. */
  predicate FibTracks(table: Table, fib: map<Name, NexthopList>)
  {
    && (forall n :: n in fib ==> n in table && Faces(fib[n]) == Faces(table[n].nexthops))
    && (forall n :: n in table && table[n].nexthops != {} ==> n in fib)
  }

  /** Installing next hops on the entry's faces keeps the FIB following the table. */
  lemma FibUpdated(table: Table, fib: map<Name, NexthopList>, name: Name, e: TableEntry, h: NexthopList)
    requires FibTracks(table, fib) && Faces(h) == Faces(e.nexthops)
    ensures FibTracks(table[name := e], fib[name := h])
  {
  }

  /** Removing a prefix without next hops from the FIB keeps the FIB following the table. */
  lemma FibRemoved(table: Table, fib: map<Name, NexthopList>, name: Name, e: TableEntry)
    requires FibTracks(table, fib) && e.nexthops == {}
    ensures FibTracks(table[name := e], fib - {name})
  {
  }

  /** Erasing a prefix from the table and the FIB keeps the FIB following the table. */
  lemma FibErased(table: Table, fib: map<Name, NexthopList>, name: Name)
    requires FibTracks(table, fib)
    ensures FibTracks(table - {name}, fib - {name})
  {
  }

  /**
   * addEntry keeps a linked, current table whose FIB follows it: fib' holds
   * name's entry on its faces, or drops name when the entry has no next hops.
   */
  lemma AttachValid(table: Table, pool: Pool, fib: map<Name, NexthopList>, name: Name, r: Name,
                    rt: LinkState.RoutingTable, dirty: set<Name>, table': Table, pool': Pool, fib': map<Name, NexthopList>)
    requires Linked(table, pool) && Synced(table, pool, dirty) && FibTracks(table, fib)
    requires table' == AttachedTable(pool, table, name, r, rt) && pool' == AttachedPool(pool, table, name, r, rt)
    requires table'[name].nexthops == {} ==> fib' == fib - {name}
    requires table'[name].nexthops != {} ==> name in fib' && fib' == fib[name := fib'[name]] && Faces(fib'[name]) == Faces(table'[name].nexthops)
    ensures Linked(table', pool') && Synced(table', pool', dirty - {name}) && FibTracks(table', fib')
  {
    AttachLinked(table, pool, name, r, rt);
    AttachSynced(table, pool, name, r, rt, dirty);
    var e := table'[name];
    if e.nexthops == {} {
      FibRemoved(table, fib, name, e);
    } else {
      FibUpdated(table, fib, name, e, fib'[name]);
    }
  }

  /**
   * removeEntry keeps a linked, current table whose FIB follows it: fib'
   * drops name when its entry goes, and otherwise holds it on its faces.
   */
  lemma DetachValid(table: Table, pool: Pool, fib: map<Name, NexthopList>, name: Name, r: Name,
                    table': Table, pool': Pool, fib': map<Name, NexthopList>)
    requires Linked(table, pool) && Synced(table, pool, {}) && FibTracks(table, fib) && r in pool && name in table
    requires table' == DetachedTable(pool, table, name, r) && pool' == DetachedPool(pool, table, name, r)
    requires name !in table' ==> fib' == fib - {name}
    requires name in table' ==> name in fib' && fib' == fib[name := fib'[name]] && Faces(fib'[name]) == Faces(table'[name].nexthops)
    ensures Linked(table', pool') && Synced(table', pool', {}) && FibTracks(table', fib')
  {
    DetachLinked(table, pool, name, r);
    DetachSynced(table, pool, name, r, {});
    if name !in table' {
      FibErased(table, fib, name);
    } else {
      FibUpdated(table, fib, name, table'[name], fib'[name]);
    }
  }

  /** h is a result adjustNexthopCosts may give for prefix, from nhlist and the given origins. */
  ghost predicate AdjustedFor(h: NexthopList, nhlist: NexthopList, prefix: Name, pool: Pool, rtes: set<Name>, ctx: Context)
  {
    && (!IsServicePrefix(ctx.lsdb, rtes, prefix) ==> h == nhlist)
    && (IsServicePrefix(ctx.lsdb, rtes, prefix) ==> exists keyed :: Resolved(keyed, pool, rtes, ctx, prefix) && h == keyed.Values)
  }

  /** What the FIB receives for an entry uses exactly the entry's faces. */
  lemma AdjustedFaces(h: NexthopList, prefix: Name, pool: Pool, rtes: set<Name>, ctx: Context)
    requires AdjustedFor(h, MergedHops(pool, rtes), prefix, pool, rtes, ctx)
    ensures Faces(h) == Faces(MergedHops(pool, rtes))
  {
    if IsServicePrefix(ctx.lsdb, rtes, prefix) {
      var keyed :| Resolved(keyed, pool, rtes, ctx, prefix) && h == keyed.Values;
      ResolvedFaces(keyed, pool, rtes, ctx, prefix);
    }
  }

  /** The cost table grew: every key keeps its cost, and new keys hold 0. */
  predicate CostsGrown(c: CostTable, c': CostTable)
  {
    && (forall k :: k in c ==> k in c' && c'[k] == c[k])
    && (forall k :: k in c' && k !in c ==> c'[k] == 0.0)
  }

  /** Every new key of the cost table is for prefix through one of the given origins. */
  predicate NewKeysFor(c: CostTable, c': CostTable, prefix: Name, rtes: set<Name>)
  {
    forall k :: k in c' && k !in c ==> k.1 == prefix && k.0 in rtes
  }

  /** Reads through operator[] only grow the cost table, with keys of the origins read. */
  lemma TouchedGrows(c: CostTable, pool: Pool, rtes: set<Name>, prefix: Name)
    ensures CostsGrown(c, Touched(c, LookedUp(pool, rtes, prefix)))
    ensures NewKeysFor(c, Touched(c, LookedUp(pool, rtes, prefix)), prefix, rtes)
  {
  }

  /** A grown cost table gives every origin the same extra cost. */
  lemma ExtraGrown(c: CostTable, c': CostTable, lsdb: Lsdb, now: int, window: U32, o: Name, prefix: Name)
    requires CostsGrown(c, c')
    ensures Extra(Context(c, lsdb, now, window), o, prefix) == Extra(Context(c', lsdb, now, window), o, prefix)
  {
    assert AdvertisedCost(c, o, prefix) == AdvertisedCost(c', o, prefix);
  }

  /** Adjusting against a grown cost table gives what the original table gives. */
  lemma AdjustedForGrown(h: NexthopList, nhlist: NexthopList, prefix: Name, pool: Pool, rtes: set<Name>,
                         c: CostTable, c': CostTable, lsdb: Lsdb, now: int, window: U32)
    requires CostsGrown(c, c')
    requires AdjustedFor(h, nhlist, prefix, pool, rtes, Context(c', lsdb, now, window))
    ensures AdjustedFor(h, nhlist, prefix, pool, rtes, Context(c, lsdb, now, window))
  {
    var ctx, ctx' := Context(c, lsdb, now, window), Context(c', lsdb, now, window);
    if IsServicePrefix(lsdb, rtes, prefix) {
      var keyed :| Resolved(keyed, pool, rtes, ctx', prefix) && h == keyed.Values;
      forall k | k in keyed ensures Picks(pool, k.1, k.0, ctx, prefix, keyed[k]) {
        ExtraGrown(c, c', lsdb, now, window, k.1, prefix);
      }
      assert Resolved(keyed, pool, rtes, ctx, prefix);
    }
  }

  /** The cost table only grows: growing twice is growing once. */
  lemma CostsGrownTrans(c: CostTable, c': CostTable, c'': CostTable)
    requires CostsGrown(c, c') && CostsGrown(c', c'')
    ensures CostsGrown(c, c'')
  {
  }

  /** Pools that agree on the given origins give the same adjusted next hops. */
  lemma AdjustedForFrame(h: NexthopList, nhlist: NexthopList, prefix: Name, pool: Pool, pool': Pool, rtes: set<Name>, ctx: Context)
    requires forall o :: o in rtes ==> (o in pool <==> o in pool')
    requires forall o :: o in rtes && o in pool ==> pool[o].nexthops == pool'[o].nexthops
    requires AdjustedFor(h, nhlist, prefix, pool, rtes, ctx)
    ensures AdjustedFor(h, nhlist, prefix, pool', rtes, ctx)
  {
    if IsServicePrefix(ctx.lsdb, rtes, prefix) {
      var keyed :| Resolved(keyed, pool, rtes, ctx, prefix) && h == keyed.Values;
      forall k | k in keyed ensures Picks(pool', k.1, k.0, ctx, prefix, keyed[k]) {
        assert Picks(pool, k.1, k.0, ctx, prefix, keyed[k]);
      }
      assert Resolved(keyed, pool', rtes, ctx, prefix);
    }
  }

  /** The two tables hold the same prefixes, each one with the same origins. */
  predicate SameShape(table: Table, table': Table)
  {
    table'.Keys == table.Keys && forall n :: n in table ==> table'[n].rteList == table[n].rteList
  }

  /** The FIB entry of n is untouched. */
  predicate FibSame(fib: map<Name, NexthopList>, fib': map<Name, NexthopList>, n: Name)
  {
    (n in fib' <==> n in fib) && (n in fib ==> fib'[n] == fib[n])
  }

  /**
   * What the last addEntry on n leaves in the FIB for entry e: nothing when
   * e has no next hops, else e's next hops adjusted against the context.
   */
  ghost predicate FibFor(fib: map<Name, NexthopList>, n: Name, e: TableEntry, pool: Pool, ctx: Context)
  {
    && (e.nexthops == {} ==> n !in fib)
    && (e.nexthops != {} ==> n in fib && AdjustedFor(fib[n], e.nexthops, n, pool, e.rteList, ctx))
  }

  /** A FIB entry for n stays what n's origins give when the pool changes elsewhere and the costs grow. */
  lemma FibForFrame(fib: map<Name, NexthopList>, n: Name, e: TableEntry, pool: Pool, pool': Pool,
                    c: CostTable, c': CostTable, lsdb: Lsdb, now: int, window: U32)
    requires forall o :: o in e.rteList ==> (o in pool <==> o in pool')
    requires forall o :: o in e.rteList && o in pool ==> pool[o].nexthops == pool'[o].nexthops
    requires CostsGrown(c, c')
    requires FibFor(fib, n, e, pool, Context(c', lsdb, now, window))
    ensures FibFor(fib, n, e, pool', Context(c, lsdb, now, window))
  {
    if e.nexthops != {} {
      AdjustedForGrown(fib[n], e.nexthops, n, pool, e.rteList, c, c', lsdb, now, window);
      AdjustedForFrame(fib[n], e.nexthops, n, pool, pool', e.rteList, Context(c, lsdb, now, window));
    }
  }

  /**
   * The pool while updateWithNewRoute runs: every origin but the pending
   * ones has its new route's next hops, or none when it has no route.
   */
  function Rerouted(pool: Pool, entries: seq<RoutingTableEntry>, pending: set<Name>): (pool': Pool)
    ensures pool'.Keys == pool.Keys
  {
    map o | o in pool :: if o in pending then pool[o] else pool[o].(nexthops := RouteHops(entries, o))
  }

  /** The prefixes updateWithNewRoute re-adds for origin o: its referrers, when its route changed. */
  function Readded(entries: seq<RoutingTableEntry>, pool: Pool, o: Name): set<Name>
    requires o in pool
  {
    if Changed(entries, pool, o) then pool[o].backRefs else {}
  }

  /** An origin the new routes leave unchanged already has its new route's next hops. */
  lemma UnchangedRoute(entries: seq<RoutingTableEntry>, pool: Pool, o: Name)
    requires o in pool && !Changed(entries, pool, o)
    ensures pool[o].(nexthops := RouteHops(entries, o)) == pool[o]
  {
  }

  /**
   * One addEntry(n, o) of ReAddReferrers, from table, fib and the costs c to
   * table', fib' and c': the prefixes already re-added keep what the FIB
   * holds for them, and every other prefix keeps its entry and FIB entry.
   */
  lemma ReAddStep(n: Name, table0: Table, table: Table, table': Table,
                  fib0: map<Name, NexthopList>, fib: map<Name, NexthopList>, fib': map<Name, NexthopList>,
                  pool: Pool, refs: set<Name>, todo: set<Name>, c0: CostTable, c: CostTable, c': CostTable,
                  lsdb: Lsdb, now: int, window: U32)
    requires n in todo && todo <= refs
    requires n in table && n in table' && table' == table[n := TableEntry(table[n].rteList, table'[n].nexthops)]
    requires CostsGrown(c0, c) && CostsGrown(c, c')
    requires table'[n].nexthops != {} ==>
               && n in fib' && fib' == fib[n := fib'[n]]
               && AdjustedFor(fib'[n], table'[n].nexthops, n, pool, table'[n].rteList, Context(c, lsdb, now, window))
    requires table'[n].nexthops == {} ==> fib' == fib - {n}
    requires SameShape(table0, table)
    requires forall m :: m in table && m !in refs - todo ==> table[m] == table0[m] && FibSame(fib0, fib, m)
    requires forall m :: m in refs - todo ==> m in table && FibFor(fib, m, table[m], pool, Context(c0, lsdb, now, window))
    ensures SameShape(table0, table')
    ensures forall m :: m in table' && m !in refs - (todo - {n}) ==> table'[m] == table0[m] && FibSame(fib0, fib', m)
    ensures forall m :: m in refs - (todo - {n}) ==> m in table' && FibFor(fib', m, table'[m], pool, Context(c0, lsdb, now, window))
    ensures CostsGrown(c0, c')
  {
    CostsGrownTrans(c0, c, c');
    if table'[n].nexthops != {} {
      AdjustedForGrown(fib'[n], table'[n].nexthops, n, pool, table'[n].rteList, c0, c, lsdb, now, window);
    }
    forall m | m in refs - (todo - {n})
      ensures m in table' && FibFor(fib', m, table'[m], pool, Context(c0, lsdb, now, window))
    {
      if m != n {
        assert table'[m] == table[m];
      }
    }
  }

  /**
   * One origin o of updateWithNewRoute, from table1, fib1, pool1 and the
   * costs c1 to table2, fib2, pool2 and c2: the prefixes some handled
   * origin with a changed route refers to hold what the FIB gets for them,
   * and every other prefix keeps its entry and its FIB entry.
   */
  lemma RerouteStep(entries: seq<RoutingTableEntry>, o: Name, todo: set<Name>, pool0: Pool, table0: Table,
                    fib0: map<Name, NexthopList>, c0: CostTable,
                    table1: Table, fib1: map<Name, NexthopList>, pool1: Pool, c1: CostTable,
                    table2: Table, fib2: map<Name, NexthopList>, pool2: Pool, c2: CostTable,
                    lsdb: Lsdb, now: int, window: U32)
    requires o in todo && todo <= pool0.Keys
    requires pool1 == Rerouted(pool0, entries, todo) && Linked(table1, pool1)
    requires SameShape(table0, table1)
    requires forall n :: n in table1 && !Affected(entries, pool0, table1[n].rteList - todo) ==>
               table1[n] == table0[n] && FibSame(fib0, fib1, n)
    requires forall n :: n in table1 && Affected(entries, pool0, table1[n].rteList - todo) ==>
               FibFor(fib1, n, table1[n], pool1, Context(c0, lsdb, now, window))
    requires CostsGrown(c0, c1)
    requires pool2 == pool1[o := pool1[o].(nexthops := RouteHops(entries, o))]
    requires SameShape(table1, table2)
    requires forall n :: n in table2 && n !in Readded(entries, pool1, o) ==> table2[n] == table1[n] && FibSame(fib1, fib2, n)
    requires forall n :: n in Readded(entries, pool1, o) ==>
               n in table2 && FibFor(fib2, n, table2[n], pool2, Context(c1, lsdb, now, window))
    requires CostsGrown(c1, c2)
    ensures pool2 == Rerouted(pool0, entries, todo - {o})
    ensures SameShape(table0, table2)
    ensures forall n :: n in table2 && !Affected(entries, pool0, table2[n].rteList - (todo - {o})) ==>
              table2[n] == table0[n] && FibSame(fib0, fib2, n)
    ensures forall n :: n in table2 && Affected(entries, pool0, table2[n].rteList - (todo - {o})) ==>
              FibFor(fib2, n, table2[n], pool2, Context(c0, lsdb, now, window))
    ensures CostsGrown(c0, c2)
  {
    CostsGrownTrans(c0, c1, c2);
    ReroutedNext(pool0, entries, todo, o, pool1, pool2);
    forall n | n in table2
      ensures !Affected(entries, pool0, table2[n].rteList - (todo - {o})) ==> table2[n] == table0[n] && FibSame(fib0, fib2, n)
      ensures Affected(entries, pool0, table2[n].rteList - (todo - {o})) ==> FibFor(fib2, n, table2[n], pool2, Context(c0, lsdb, now, window))
    {
      RerouteEntry(entries, o, todo, n, pool0, table0[n], fib0, c0, table1[n], fib1, pool1, c1,
                   table2[n], fib2, pool2, lsdb, now, window);
    }
  }

  /** Handling origin o gives it its new route's next hops. */
  lemma ReroutedNext(pool0: Pool, entries: seq<RoutingTableEntry>, todo: set<Name>, o: Name, pool1: Pool, pool2: Pool)
    requires o in todo && todo <= pool0.Keys
    requires pool1 == Rerouted(pool0, entries, todo)
    requires pool2 == pool1[o := pool1[o].(nexthops := RouteHops(entries, o))]
    ensures pool2 == Rerouted(pool0, entries, todo - {o})
  {
  }

  /** RerouteStep for one prefix n, whose entries before, between and after are e0, e1 and e2. */
  lemma RerouteEntry(entries: seq<RoutingTableEntry>, o: Name, todo: set<Name>, n: Name, pool0: Pool,
                     e0: TableEntry, fib0: map<Name, NexthopList>, c0: CostTable,
                     e1: TableEntry, fib1: map<Name, NexthopList>, pool1: Pool, c1: CostTable,
                     e2: TableEntry, fib2: map<Name, NexthopList>, pool2: Pool,
                     lsdb: Lsdb, now: int, window: U32)
    requires o in todo && o in pool0 && o in pool1 && pool1[o] == pool0[o]
    requires e2.rteList == e1.rteList
    requires o in e1.rteList <==> n in pool1[o].backRefs
    requires !Affected(entries, pool0, e1.rteList - todo) ==> e1 == e0 && FibSame(fib0, fib1, n)
    requires Affected(entries, pool0, e1.rteList - todo) ==> FibFor(fib1, n, e1, pool1, Context(c0, lsdb, now, window))
    requires CostsGrown(c0, c1)
    requires pool2 == pool1[o := pool1[o].(nexthops := RouteHops(entries, o))]
    requires n !in Readded(entries, pool1, o) ==> e2 == e1 && FibSame(fib1, fib2, n)
    requires n in Readded(entries, pool1, o) ==> FibFor(fib2, n, e2, pool2, Context(c1, lsdb, now, window))
    ensures !Affected(entries, pool0, e2.rteList - (todo - {o})) ==> e2 == e0 && FibSame(fib0, fib2, n)
    ensures Affected(entries, pool0, e2.rteList - (todo - {o})) ==> FibFor(fib2, n, e2, pool2, Context(c0, lsdb, now, window))
  {
    var rtes := e1.rteList;
    assert Changed(entries, pool1, o) == Changed(entries, pool0, o);
    if o !in rtes {
      assert rtes - (todo - {o}) == rtes - todo;
      if Affected(entries, pool0, rtes - todo) {
        FibForFrame(fib1, n, e1, pool1, pool2, c0, c0, lsdb, now, window);
      }
    } else if Changed(entries, pool0, o) {
      assert o in rtes - (todo - {o});
      FibForFrame(fib2, n, e2, pool2, pool2, c0, c1, lsdb, now, window);
    } else {
      UnchangedRoute(entries, pool1, o);
      assert pool2 == pool1;
      if Affected(entries, pool0, rtes - (todo - {o})) {
        var x :| x in rtes - (todo - {o}) && x in pool0 && Changed(entries, pool0, x);
        assert x != o;
        assert Affected(entries, pool0, rtes - todo);
      } else {
        assert !Affected(entries, pool0, rtes - todo);
      }
    }
  }

  /**
   * One prefix n of the refresh of an UPDATED Name LSA, from fib and the
   * costs c to fib' and c': n's FIB entry is its next hops adjusted anew,
   * and the FIB still follows the table.
   */
  lemma RefreshStep(n: Name, table: Table, fib0: map<Name, NexthopList>, fib: map<Name, NexthopList>,
                    fib': map<Name, NexthopList>, pool: Pool, origin: Name, todo: set<Name>,
                    c0: CostTable, c: CostTable, c': CostTable, lsdb: Lsdb, now: int, window: U32)
    requires n in todo && n in table && Refreshed(table, origin, n) && FibTracks(table, fib)
    requires n in fib' && fib' == fib[n := fib'[n]] && Faces(fib'[n]) == Faces(table[n].nexthops)
    requires AdjustedFor(fib'[n], table[n].nexthops, n, pool, table[n].rteList, Context(c, lsdb, now, window))
    requires CostsGrown(c0, c) && CostsGrown(c, c')
    requires forall m :: m in table && !(m !in todo && Refreshed(table, origin, m)) ==> FibSame(fib0, fib, m)
    requires forall m :: m in table && m !in todo && Refreshed(table, origin, m) ==>
               m in fib && AdjustedFor(fib[m], table[m].nexthops, m, pool, table[m].rteList, Context(c0, lsdb, now, window))
    ensures FibTracks(table, fib') && CostsGrown(c0, c')
    ensures forall m :: m in table && !(m !in todo - {n} && Refreshed(table, origin, m)) ==> FibSame(fib0, fib', m)
    ensures forall m :: m in table && m !in todo - {n} && Refreshed(table, origin, m) ==>
              m in fib' && AdjustedFor(fib'[m], table[m].nexthops, m, pool, table[m].rteList, Context(c0, lsdb, now, window))
  {
    CostsGrownTrans(c0, c, c');
    AdjustedForGrown(fib'[n], table[n].nexthops, n, pool, table[n].rteList, c0, c, lsdb, now, window);
    FibUpdated(table, fib, n, table[n], fib'[n]);
    assert table[n := table[n]] == table;
    forall m | m in table && !(m !in todo - {n} && Refreshed(table, origin, m)) ensures FibSame(fib0, fib', m) {
      assert m != n;
    }
  }

  /** A prefix the refresh leaves alone keeps what the loop knows, one prefix further on. */
  lemma RefreshSkipped(n: Name, table: Table, fib0: map<Name, NexthopList>, fib: map<Name, NexthopList>,
                       pool: Pool, origin: Name, todo: set<Name>, c0: CostTable, lsdb: Lsdb, now: int, window: U32)
    requires n in todo && (n in table ==> !Refreshed(table, origin, n))
    requires forall m :: m in table && !(m !in todo && Refreshed(table, origin, m)) ==> FibSame(fib0, fib, m)
    requires forall m :: m in table && m !in todo && Refreshed(table, origin, m) ==>
               m in fib && AdjustedFor(fib[m], table[m].nexthops, m, pool, table[m].rteList, Context(c0, lsdb, now, window))
    ensures forall m :: m in table && !(m !in todo - {n} && Refreshed(table, origin, m)) ==> FibSame(fib0, fib, m)
    ensures forall m :: m in table && m !in todo - {n} && Refreshed(table, origin, m) ==>
              m in fib && AdjustedFor(fib[m], table[m].nexthops, m, pool, table[m].rteList, Context(c0, lsdb, now, window))
  {
    forall m | m in table && !(m !in todo - {n} && Refreshed(table, origin, m)) ensures FibSame(fib0, fib, m) {
      assert !(m !in todo && Refreshed(table, origin, m));
    }
  }

  /** The prefixes the refresh of an UPDATED Name LSA from origin reinstalls: those that refer to it and have next hops. */
  predicate Refreshed(table: Table, origin: Name, n: Name)
    requires n in table
  {
    origin in table[n].rteList && table[n].nexthops != {}
  }

  /** The refresh test of an UPDATED Name LSA: some record has metrics, or there is any record at all. */
  predicate RefreshWanted(services: map<Name, ServiceFunctionInfo>)
  {
    (exists s :: s in services && HasMetrics(services[s])) || services != map[]
  }

  /** The refresh runs exactly when the origin advertises any service record, metrics or not. */
  lemma RefreshWantedIffRecords(services: map<Name, ServiceFunctionInfo>)
    ensures RefreshWanted(services) <==> services != map[]
  {
    if exists s :: s in services && HasMetrics(services[s]) {
      var s :| s in services && HasMetrics(services[s]);
      assert s in services.Keys;
    }
  }

  /** The hasSfInfo loop of updateFromLsdb: whether some service record of the origin has metrics. */
  method HasServiceInfo(services: map<Name, ServiceFunctionInfo>) returns (b: bool)
    ensures b <==> exists s :: s in services && HasMetrics(services[s])
  {
    b := false;
    var todo := services.Keys;
    while todo != {}
      invariant todo <= services.Keys
      invariant b <==> exists s :: s in services && s !in todo && HasMetrics(services[s])
      decreases todo
    {
      var s :| s in todo;
      if HasMetrics(services[s]) {
        b := true;
      }
      todo := todo - {s};
    }
  }

  // ---------------------------------------------------------------------
  // updateFromLsdb on values
  // ---------------------------------------------------------------------

  /** Each prefix of the table with the origins its entry refers to. */
  function Shape(table: Table): map<Name, set<Name>>
  {
    map n | n in table :: table[n].rteList
  }

  /** The shape after addEntry(n, origin) for every n in names: each of them is there and refers to origin. */
  function WithOrigin(shape: map<Name, set<Name>>, names: set<Name>, origin: Name): (s: map<Name, set<Name>>)
  {
    map n | n in shape.Keys + names :: (if n in shape then shape[n] else {}) + (if n in names then {origin} else {})
  }

  /**
   * The shape after removeEntry(n, origin) for every n in names: each of
   * them stops referring to origin, and goes when origin was all it had.
   */
  function WithoutOrigin(shape: map<Name, set<Name>>, names: set<Name>, origin: Name): (s: map<Name, set<Name>>)
    ensures s.Keys <= shape.Keys
  {
    map n | n in shape && !(n in names && shape[n] <= {origin}) :: shape[n] - (if n in names then {origin} else {})
  }

  /** addEntry(name, r) adds r to name's origins, creating the entry when needed. */
  lemma AttachShape(pool: Pool, table: Table, name: Name, r: Name, rt: LinkState.RoutingTable)
    ensures Shape(AttachedTable(pool, table, name, r, rt)) == WithOrigin(Shape(table), {name}, r)
  {
    var l, w := Shape(AttachedTable(pool, table, name, r, rt)), WithOrigin(Shape(table), {name}, r);
    assert l.Keys == w.Keys;
    forall n | n in l ensures l[n] == w[n] {
      if n != name {
        assert l[n] == table[n].rteList;
      }
    }
  }

  /** removeEntry(name, r) drops r from name's origins, erasing the entry when r was its only one. */
  lemma DetachShape(pool: Pool, table: Table, name: Name, r: Name)
    requires Linked(table, pool) && r in pool && name in table
    ensures Shape(DetachedTable(pool, table, name, r)) == WithoutOrigin(Shape(table), {name}, r)
  {
    var l, w := Shape(DetachedTable(pool, table, name, r)), WithoutOrigin(Shape(table), {name}, r);
    assert table[name].rteList != {};
    assert table[name].rteList - {r} == {} <==> table[name].rteList <= {r};
    assert l.Keys == w.Keys;
    forall n | n in l ensures l[n] == w[n] {
      if n != name {
        assert l[n] == table[n].rteList;
      }
    }
  }

  /** removeEntry(name, r) without a pool entry for r or a table entry for name changes no shape. */
  lemma SkipShape(pool: Pool, table: Table, name: Name, r: Name)
    requires Linked(table, pool) && !(r in pool && name in table)
    ensures Shape(table) == WithoutOrigin(Shape(table), {name}, r)
  {
    var w := WithoutOrigin(Shape(table), {name}, r);
    if name in table {
      assert r !in table[name].rteList && table[name].rteList != {};
      assert table[name].rteList - {r} == table[name].rteList;
    }
    assert w.Keys == Shape(table).Keys;
    forall n | n in w ensures w[n] == Shape(table)[n] {
    }
  }

  /** Adding origin for two sets of names in turn adds it for their union. */
  lemma WithOriginUnion(shape: map<Name, set<Name>>, a: set<Name>, b: set<Name>, origin: Name)
    ensures WithOrigin(WithOrigin(shape, a, origin), b, origin) == WithOrigin(shape, a + b, origin)
  {
    var l, w := WithOrigin(WithOrigin(shape, a, origin), b, origin), WithOrigin(shape, a + b, origin);
    forall n | n in l ensures n in w && l[n] == w[n] {
      WithOriginAt(shape, a, b, origin, n);
    }
    forall n | n in w ensures n in l {
    }
  }

  /** WithOriginUnion at one prefix. */
  lemma WithOriginAt(shape: map<Name, set<Name>>, a: set<Name>, b: set<Name>, origin: Name, n: Name)
    requires n in WithOrigin(WithOrigin(shape, a, origin), b, origin)
    ensures n in WithOrigin(shape, a + b, origin)
    ensures WithOrigin(WithOrigin(shape, a, origin), b, origin)[n] == WithOrigin(shape, a + b, origin)[n]
  {
    var s1 := WithOrigin(shape, a, origin);
    var base := if n in shape then shape[n] else {};
    var mid := if n in s1 then s1[n] else {};
    assert mid == base + (if n in a then {origin} else {});
  }

  /** Removing origin for two sets of names in turn removes it for their union. */
  lemma WithoutOriginUnion(shape: map<Name, set<Name>>, a: set<Name>, b: set<Name>, origin: Name)
    ensures WithoutOrigin(WithoutOrigin(shape, a, origin), b, origin) == WithoutOrigin(shape, a + b, origin)
  {
    var s1 := WithoutOrigin(shape, a, origin);
    var l, w := WithoutOrigin(s1, b, origin), WithoutOrigin(shape, a + b, origin);
    forall n | n in w ensures n in l {
      if n in a && n in b {
        assert origin !in s1[n] && s1[n] != {};
      }
    }
    assert l.Keys == w.Keys;
    forall n | n in l ensures l[n] == w[n] {
    }
  }

  /** The names of ps other than the router's own: those the loops of updateFromLsdb hand on. */
  function Advertised(ps: seq<PrefixInfo>, own: Name): set<Name>
  {
    set i | 0 <= i < |ps| && ps[i].name != own :: ps[i].name
  }

  /** One more prefix of the list hands on its name unless it is the router's own. */
  lemma AdvertisedStep(ps: seq<PrefixInfo>, i: nat, own: Name)
    requires i < |ps|
    ensures Advertised(ps[..i + 1], own) == Advertised(ps[..i], own) + (if ps[i].name != own then {ps[i].name} else {})
  {
    var a, b := Advertised(ps[..i + 1], own), Advertised(ps[..i], own);
    forall n | n in a ensures n in b + (if ps[i].name != own then {ps[i].name} else {}) {
      var k :| 0 <= k < i + 1 && ps[..i + 1][k].name != own && ps[..i + 1][k].name == n;
      if k < i {
        assert ps[..i][k] == ps[k];
      }
    }
    forall n | n in b ensures n in a {
      var k :| 0 <= k < i && ps[..i][k].name != own && ps[..i][k].name == n;
      assert ps[..i + 1][k] == ps[k];
    }
    if ps[i].name != own {
      assert ps[..i + 1][i] == ps[i];
    }
  }

  /**
   * The costs the add loops of updateFromLsdb record: m_nexthopCost[(origin,
   * name)] = cost for every prefix in list order but the router's own, so a
   * repeated name keeps the cost of its last occurrence.
   */
  function AdvertisedCosts(origin: Name, ps: seq<PrefixInfo>, own: Name): (m: CostTable)
    ensures m.Keys == set n | n in Advertised(ps, own) :: (origin, n)
  {
    if |ps| == 0 then map[]
    else
      var m := AdvertisedCosts(origin, ps[..|ps| - 1], own);
      var p := ps[|ps| - 1];
      AdvertisedStep(ps, |ps| - 1, own);
      assert ps[..|ps|] == ps;
      if p.name == own then m else m[(origin, p.name) := p.cost as real]
  }

  /** Every name handed on ends with the cost of its last occurrence in the list. */
  lemma {:induction false} AdvertisedCostsLast(origin: Name, ps: seq<PrefixInfo>, own: Name, i: nat)
    requires i < |ps| && ps[i].name != own
    requires forall j :: i < j < |ps| ==> ps[j].name != ps[i].name
    ensures (origin, ps[i].name) in AdvertisedCosts(origin, ps, own)
    ensures AdvertisedCosts(origin, ps, own)[(origin, ps[i].name)] == ps[i].cost as real
  {
    if i < |ps| - 1 {
      var ps' := ps[..|ps| - 1];
      assert ps'[i] == ps[i];
      forall j | i < j < |ps'| ensures ps'[j].name != ps'[i].name {
        assert ps'[j] == ps[j];
      }
      AdvertisedCostsLast(origin, ps', own, i);
    }
  }

  /** The cost keys the remove loops of updateFromLsdb erase. */
  function RemovedKeys(origin: Name, names: set<Name>): set<(Name, Name)>
  {
    set n | n in names :: (origin, n)
  }

  /** Setting a cost on both sides keeps a grown table grown. */
  lemma CostsGrownSet(c: CostTable, c': CostTable, k: (Name, Name), v: real)
    requires CostsGrown(c, c')
    ensures CostsGrown(c[k := v], c'[k := v])
  {
  }

  /** Erasing a key on both sides keeps a grown table grown. */
  lemma CostsGrownErase(c: CostTable, c': CostTable, k: (Name, Name))
    requires CostsGrown(c, c')
    ensures CostsGrown(c - {k}, c' - {k})
  {
  }

  /** Adding the same costs on both sides keeps a grown table grown. */
  lemma CostsGrownUnion(c: CostTable, c': CostTable, m: CostTable)
    requires CostsGrown(c, c')
    ensures CostsGrown(c + m, c' + m)
  {
  }

  /** Erasing the same keys on both sides keeps a grown table grown. */
  lemma CostsGrownEraseAll(c: CostTable, c': CostTable, ks: set<(Name, Name)>)
    requires CostsGrown(c, c')
    ensures CostsGrown(c - ks, c' - ks)
  {
  }

  /** Adding or removing an origin for no names changes nothing. */
  lemma NoNames(shape: map<Name, set<Name>>, origin: Name)
    ensures WithOrigin(shape, {}, origin) == shape && WithoutOrigin(shape, {}, origin) == shape
  {
    var w := WithOrigin(shape, {}, origin);
    forall n | n in w ensures n in shape && w[n] == shape[n] {
    }
    assert w.Keys == shape.Keys;
  }

  /** Before an add loop's first prefix, neither the shape nor the costs have changed. */
  lemma AddedNone(origin: Name, ps: seq<PrefixInfo>, own: Name, shape: map<Name, set<Name>>, c: CostTable)
    ensures WithOrigin(shape, Advertised(ps[..0], own), origin) == shape
    ensures c + AdvertisedCosts(origin, ps[..0], own) == c
  {
    assert Advertised(ps[..0], own) == {};
    NoNames(shape, origin);
  }

  /** An empty list of prefixes changes neither the shape nor the costs. */
  lemma NoPrefixes(origin: Name, own: Name, shape: map<Name, set<Name>>, c: CostTable)
    ensures WithOrigin(shape, Advertised([], own), origin) == shape && c + AdvertisedCosts(origin, [], own) == c
    ensures WithoutOrigin(shape, Advertised([], own), origin) == shape && c - RemovedKeys(origin, Advertised([], own)) == c
  {
    assert Advertised([], own) == {};
    assert RemovedKeys(origin, {}) == {};
    NoNames(shape, origin);
  }

  /** INSTALLED: the origin's own entry and then its prefixes, as one step. */
  lemma InstalledDone(origin: Name, ps: seq<PrefixInfo>, own: Name, shape0: map<Name, set<Name>>,
                      s1: map<Name, set<Name>>, s2: map<Name, set<Name>>, c0: CostTable, c1: CostTable, c2: CostTable)
    requires s1 == WithOrigin(shape0, {origin}, origin) && s2 == WithOrigin(s1, Advertised(ps, own), origin)
    requires CostsGrown(c0, c1) && CostsGrown(c1 + AdvertisedCosts(origin, ps, own), c2)
    ensures s2 == WithOrigin(shape0, {origin} + Advertised(ps, own), origin)
    ensures CostsGrown(c0 + AdvertisedCosts(origin, ps, own), c2)
  {
    WithOriginUnion(shape0, {origin}, Advertised(ps, own), origin);
    CostsGrownUnion(c0, c1, AdvertisedCosts(origin, ps, own));
    CostsGrownTrans(c0 + AdvertisedCosts(origin, ps, own), c1 + AdvertisedCosts(origin, ps, own), c2);
  }

  /** REMOVED: the origin's own entry and then its prefixes, as one step. */
  lemma RemovedDone(origin: Name, ps: seq<PrefixInfo>, own: Name, shape0: map<Name, set<Name>>,
                    s1: map<Name, set<Name>>, s2: map<Name, set<Name>>, c0: CostTable, c1: CostTable, c2: CostTable)
    requires s1 == WithoutOrigin(shape0, {origin}, origin) && s2 == WithoutOrigin(s1, Advertised(ps, own), origin)
    requires CostsGrown(c0, c1) && CostsGrown(c1 - RemovedKeys(origin, Advertised(ps, own)), c2)
    ensures s2 == WithoutOrigin(shape0, {origin} + Advertised(ps, own), origin)
    ensures CostsGrown(c0 - RemovedKeys(origin, Advertised(ps, own)), c2)
  {
    var erased := RemovedKeys(origin, Advertised(ps, own));
    WithoutOriginUnion(shape0, {origin}, Advertised(ps, own), origin);
    CostsGrownEraseAll(c0, c1, erased);
    CostsGrownTrans(c0 - erased, c1 - erased, c2);
  }

  /** UPDATED: the added prefixes and then the removed ones, as one step of the costs. */
  lemma UpdatedCosts(origin: Name, add: seq<PrefixInfo>, remove: seq<PrefixInfo>, own: Name,
                     c0: CostTable, c1: CostTable, c2: CostTable, c3: CostTable)
    requires CostsGrown(c0, c1)
    requires CostsGrown(c1 + AdvertisedCosts(origin, add, own), c2)
    requires CostsGrown(c2 - RemovedKeys(origin, Advertised(remove, own)), c3)
    ensures CostsGrown((c0 + AdvertisedCosts(origin, add, own)) - RemovedKeys(origin, Advertised(remove, own)), c3)
  {
    var added, erased := AdvertisedCosts(origin, add, own), RemovedKeys(origin, Advertised(remove, own));
    CostsGrownUnion(c0, c1, added);
    CostsGrownTrans(c0 + added, c1 + added, c2);
    CostsGrownEraseAll(c0 + added, c2, erased);
    CostsGrownTrans((c0 + added) - erased, c2 - erased, c3);
  }

  /** One prefix of an add loop: its name joins the shape through origin, and its cost is recorded. */
  lemma AddedStep(origin: Name, ps: seq<PrefixInfo>, own: Name, i: nat, shape0: map<Name, set<Name>>,
                  t1: Table, t2: Table, pool1: Pool, rt: LinkState.RoutingTable, c0: CostTable, c1: CostTable, c2: CostTable)
    requires i < |ps|
    requires Shape(t1) == WithOrigin(shape0, Advertised(ps[..i], own), origin)
    requires CostsGrown(c0 + AdvertisedCosts(origin, ps[..i], own), c1)
    requires ps[i].name != own ==> t2 == AttachedTable(pool1, t1, ps[i].name, origin, rt)
    requires ps[i].name != own ==> CostsGrown(c1[(origin, ps[i].name) := ps[i].cost as real], c2)
    requires ps[i].name == own ==> t2 == t1 && c2 == c1
    ensures Shape(t2) == WithOrigin(shape0, Advertised(ps[..i + 1], own), origin)
    ensures CostsGrown(c0 + AdvertisedCosts(origin, ps[..i + 1], own), c2)
  {
    AdvertisedStep(ps, i, own);
    if ps[i].name != own {
      var k, v := (origin, ps[i].name), ps[i].cost as real;
      AttachShape(pool1, t1, ps[i].name, origin, rt);
      WithOriginUnion(shape0, Advertised(ps[..i], own), {ps[i].name}, origin);
      CostsGrownSet(c0 + AdvertisedCosts(origin, ps[..i], own), c1, k, v);
      AdvertisedCostsStep(origin, ps, own, i);
      UnionUpdate(c0, AdvertisedCosts(origin, ps[..i], own), k, v);
      CostsGrownTrans(c0 + AdvertisedCosts(origin, ps[..i + 1], own), c1[k := v], c2);
    } else {
      AdvertisedCostsStep(origin, ps, own, i);
    }
  }

  /** One more prefix records its cost unless it is the router's own. */
  lemma AdvertisedCostsStep(origin: Name, ps: seq<PrefixInfo>, own: Name, i: nat)
    requires i < |ps|
    ensures AdvertisedCosts(origin, ps[..i + 1], own)
            == if ps[i].name == own then AdvertisedCosts(origin, ps[..i], own)
               else AdvertisedCosts(origin, ps[..i], own)[(origin, ps[i].name) := ps[i].cost as real]
  {
    assert ps[..i + 1][..i] == ps[..i];
    assert ps[..i + 1][i] == ps[i];
  }

  /**
   * The remove loops erase each cost key through find, which must find it:
   * the names of ps other than own are distinct, and from index i on each
   * has origin's cost recorded in c.
   */
  predicate ErasableFrom(origin: Name, ps: seq<PrefixInfo>, own: Name, c: CostTable, i: nat)
  {
    && (forall j, k :: 0 <= j < k < |ps| && ps[j].name != own ==> ps[j].name != ps[k].name)
    && (forall j :: i <= j < |ps| && ps[j].name != own ==> (origin, ps[j].name) in c)
  }

  /** Erasing the i-th key and growing the table keeps the later keys there. */
  lemma ErasableStep(origin: Name, ps: seq<PrefixInfo>, own: Name, i: nat, c1: CostTable, c2: CostTable)
    requires i < |ps| && ErasableFrom(origin, ps, own, c1, i)
    requires ps[i].name != own ==> CostsGrown(c1 - {(origin, ps[i].name)}, c2)
    requires ps[i].name == own ==> c2 == c1
    ensures ErasableFrom(origin, ps, own, c2, i + 1)
  {
    forall j | i + 1 <= j < |ps| && ps[j].name != own
      ensures (origin, ps[j].name) in c2
    {
      if ps[i].name != own {
        assert ps[i].name != ps[j].name;
      }
    }
  }

  /** Growing the cost table keeps every key there. */
  lemma ErasableGrown(origin: Name, ps: seq<PrefixInfo>, own: Name, c: CostTable, c': CostTable)
    requires ErasableFrom(origin, ps, own, c, 0) && CostsGrown(c, c')
    ensures ErasableFrom(origin, ps, own, c', 0)
  {
  }

  /** Before a remove loop's first prefix, neither the shape nor the costs have changed. */
  lemma RemovedNone(origin: Name, ps: seq<PrefixInfo>, own: Name, shape: map<Name, set<Name>>, c: CostTable)
    ensures WithoutOrigin(shape, Advertised(ps[..0], own), origin) == shape
    ensures c - RemovedKeys(origin, Advertised(ps[..0], own)) == c
  {
    assert Advertised(ps[..0], own) == {};
    assert RemovedKeys(origin, {}) == {};
    NoNames(shape, origin);
  }

  /** Erasing one more key is erasing the keys of one more name. */
  lemma RemovedKeysStep(c: CostTable, origin: Name, names: set<Name>, n: Name)
    ensures (c - RemovedKeys(origin, names)) - {(origin, n)} == c - RemovedKeys(origin, names + {n})
  {
    assert RemovedKeys(origin, names + {n}) == RemovedKeys(origin, names) + {(origin, n)};
  }

  /**
   * One prefix of a remove loop: its cost key is erased and removeEntry(name,
   * origin) takes origin from its entry, which changes nothing when origin is
   * not pooled or the name has no entry.
   */
  lemma RemovedStep(origin: Name, ps: seq<PrefixInfo>, own: Name, i: nat, shape0: map<Name, set<Name>>,
                    t1: Table, t2: Table, pool1: Pool, c0: CostTable, c1: CostTable, c2: CostTable)
    requires i < |ps| && Linked(t1, pool1)
    requires Shape(t1) == WithoutOrigin(shape0, Advertised(ps[..i], own), origin)
    requires CostsGrown(c0 - RemovedKeys(origin, Advertised(ps[..i], own)), c1)
    requires ps[i].name != own && origin in pool1 && ps[i].name in t1 ==> t2 == DetachedTable(pool1, t1, ps[i].name, origin)
    requires ps[i].name != own && !(origin in pool1 && ps[i].name in t1) ==> t2 == t1
    requires ps[i].name != own ==> CostsGrown(c1 - {(origin, ps[i].name)}, c2)
    requires ps[i].name == own ==> t2 == t1 && c2 == c1
    ensures Shape(t2) == WithoutOrigin(shape0, Advertised(ps[..i + 1], own), origin)
    ensures CostsGrown(c0 - RemovedKeys(origin, Advertised(ps[..i + 1], own)), c2)
  {
    AdvertisedStep(ps, i, own);
    if ps[i].name != own {
      var k := (origin, ps[i].name);
      if origin in pool1 && ps[i].name in t1 {
        DetachShape(pool1, t1, ps[i].name, origin);
      } else {
        SkipShape(pool1, t1, ps[i].name, origin);
      }
      WithoutOriginUnion(shape0, Advertised(ps[..i], own), {ps[i].name}, origin);
      CostsGrownErase(c0 - RemovedKeys(origin, Advertised(ps[..i], own)), c1, k);
      RemovedKeysStep(c0, origin, Advertised(ps[..i], own), ps[i].name);
      CostsGrownTrans(c0 - RemovedKeys(origin, Advertised(ps[..i + 1], own)), c1 - {k}, c2);
    }
  }

  /** Setting a key after a union is setting it in the right-hand map. */
  lemma UnionUpdate(c: CostTable, m: CostTable, k: (Name, Name), v: real)
    ensures (c + m)[k := v] == c + m[k := v]
  {
  }

  // ---------------------------------------------------------------------
  // The table
  // ---------------------------------------------------------------------

  /**
   * A NamePrefixTable: the prefix entries, the pool of per-origin entries,
   * the advertised costs, and the FIB it drives.
   */
  class NamePrefixTable {
    const ownRouterName: Name
    /** The utilization window in seconds, from the configuration. */
    const window: U32
    var table: Table
    var rtpool: Pool
    var nexthopCost: CostTable
    ghost var fib: map<Name, NexthopList>

    /** The pool and the table are linked, every entry is current, and the FIB follows the table. */
    ghost predicate Valid()
      reads this
    {
      Linked(table, rtpool) && Synced(table, rtpool, {}) && FibTracks(table, fib)
    }

    /** The context adjustNexthopCosts reads now. */
    function Ctx(lsdb: Lsdb, now: int): Context
      reads this
    {
      Context(nexthopCost, lsdb, now, window)
    }

    /** An empty table over an empty FIB. */
    constructor (ownRouterName: Name, window: U32)
      ensures Valid()
      ensures this.ownRouterName == ownRouterName && this.window == window
      ensures table == map[] && rtpool == map[] && nexthopCost == map[] && fib == map[]
    {
      this.ownRouterName := ownRouterName;
      this.window := window;
      table := map[];
      rtpool := map[];
      nexthopCost := map[];
      fib := map[];
    }

    /** addRtpeToPool: inserts an entry for dest unless the pool holds one already. */
    method AddRtpeToPool(dest: Name, hops: NexthopList)
      modifies this
      ensures rtpool == if dest in old(rtpool) then old(rtpool) else old(rtpool)[dest := PoolEntry(hops, {})]
      ensures table == old(table) && nexthopCost == old(nexthopCost) && fib == old(fib)
    {
      if dest !in rtpool {
        rtpool := rtpool[dest := PoolEntry(hops, {})];
      }
    }

    /** deleteRtpeFromPool: erases dest's entry; erasing an absent one changes nothing. */
    method DeleteRtpeFromPool(dest: Name)
      modifies this
      ensures rtpool == old(rtpool) - {dest}
      ensures table == old(table) && nexthopCost == old(nexthopCost) && fib == old(fib)
    {
      rtpool := rtpool - {dest};
    }

    /** adjustNexthopCosts(entry's next hops, name, entry), keeping the entries operator[] adds to the cost table. */
    method AdjustEntry(name: Name, lsdb: Lsdb, now: int) returns (h: NexthopList)
      requires name in table && forall o :: o in table[name].rteList ==> o in rtpool
      modifies this
      ensures table == old(table) && rtpool == old(rtpool) && fib == old(fib)
      ensures AdjustedFor(h, table[name].nexthops, name, rtpool, table[name].rteList, Context(old(nexthopCost), lsdb, now, window))
      ensures CostsGrown(old(nexthopCost), nexthopCost)
      ensures NewKeysFor(old(nexthopCost), nexthopCost, name, table[name].rteList)
    {
      var costs: CostTable;
      ghost var keyed: map<(FaceUri, Name), NextHop>;
      h, costs, keyed := AdjustNexthopCosts(table[name].nexthops, name, rtpool, table[name].rteList, Ctx(lsdb, now));
      TouchedGrows(nexthopCost, rtpool, table[name].rteList, name);
      nexthopCost := costs;
    }

    /** fib.update(name, adjustNexthopCosts(...)) with the entry's current next hops. */
    method UpdateFib(name: Name, lsdb: Lsdb, now: int)
      requires name in table && forall o :: o in table[name].rteList ==> o in rtpool
      requires table[name].nexthops == MergedHops(rtpool, table[name].rteList)
      modifies this
      ensures table == old(table) && rtpool == old(rtpool)
      ensures name in fib && fib == old(fib)[name := fib[name]]
      ensures Faces(fib[name]) == Faces(table[name].nexthops)
      ensures AdjustedFor(fib[name], table[name].nexthops, name, rtpool, table[name].rteList, Context(old(nexthopCost), lsdb, now, window))
      ensures CostsGrown(old(nexthopCost), nexthopCost)
      ensures NewKeysFor(old(nexthopCost), nexthopCost, name, table[name].rteList)
    {
      var h := AdjustEntry(name, lsdb, now);
      AdjustedFaces(h, name, rtpool, table[name].rteList, Context(old(nexthopCost), lsdb, now, window));
      fib := fib[name := h];
    }

    /**
     * The pool side of addEntry(name, r): finds r's pool entry or adds one
     * built from the routing table's route to r (no next hops without one),
     * and records name among its back-references.
     */
    method ReferToRtpe(name: Name, r: Name, rt: LinkState.RoutingTable)
      modifies this
      ensures rtpool == AttachedPool(old(rtpool), old(table), name, r, rt)
      ensures table == old(table) && nexthopCost == old(nexthopCost) && fib == old(fib)
    {
      if r !in rtpool {
        var hops := if r in rt then rt[r] else {};
        AddRtpeToPool(r, hops);
        assert rtpool[r].backRefs + {name} == {name};
      }
      // Taken last in addEntry; nothing in between reads the back-references.
      rtpool := rtpool[r := rtpool[r].(backRefs := rtpool[r].backRefs + {name})];
    }

    /**
     * addEntry(name, r): finds or creates r's pool entry (from the routing
     * table's route to r, or with no next hops), finds or creates name's
     * entry, makes each refer to the other, regenerates the entry's next
     * hops, and updates the FIB with them adjusted, or removes name from
     * the FIB when there are none.
     */
    method AddEntry(name: Name, r: Name, rt: LinkState.RoutingTable, lsdb: Lsdb, now: int, ghost dirty: set<Name>)
      requires Linked(table, rtpool) && Synced(table, rtpool, dirty) && FibTracks(table, fib)
      modifies this
      ensures Linked(table, rtpool) && Synced(table, rtpool, dirty - {name}) && FibTracks(table, fib)
      ensures rtpool == AttachedPool(old(rtpool), old(table), name, r, rt)
      ensures table == AttachedTable(old(rtpool), old(table), name, r, rt)
      ensures table[name].nexthops != {} ==>
                && name in fib && fib == old(fib)[name := fib[name]]
                && AdjustedFor(fib[name], table[name].nexthops, name, rtpool, table[name].rteList, Context(old(nexthopCost), lsdb, now, window))
      ensures table[name].nexthops == {} ==> fib == old(fib) - {name}
      ensures CostsGrown(old(nexthopCost), nexthopCost)
      ensures NewKeysFor(old(nexthopCost), nexthopCost, name, table[name].rteList)
    {
      ghost var table0, pool0, fib0 := table, rtpool, fib;
      ReferToRtpe(name, r, rt);
      // addRoutingTableEntry and generateNhlfromRteList on the found or new entry.
      var rtes := (if name in table then table[name].rteList else {}) + {r};
      table := table[name := TableEntry(rtes, MergedHops(rtpool, rtes))];
      assert table == AttachedTable(pool0, table0, name, r, rt);
      if table[name].nexthops != {} {
        UpdateFib(name, lsdb, now);
      } else {
        fib := fib - {name};
      }
      AttachValid(table0, pool0, fib0, name, r, rt, dirty, table, rtpool, fib);
    }

    /**
     * removeRoutingTableEntry on name's entry: the entry stops referring to
     * r and r's pool entry to name, and r leaves the pool when that drops its
     * use count to 0. Returns the origins the entry still refers to.
     */
    method RemoveRoutingTableEntry(name: Name, r: Name) returns (rtes: set<Name>)
      requires r in rtpool && name in table
      modifies this
      ensures rtpool == DetachedPool(old(rtpool), old(table), name, r)
      ensures rtes == old(table)[name].rteList - {r}
      ensures table == old(table) && nexthopCost == old(nexthopCost) && fib == old(fib)
    {
      rtes := table[name].rteList;
      if r in rtes {
        rtpool := rtpool[r := rtpool[r].(backRefs := rtpool[r].backRefs - {name})];
        rtes := rtes - {r};
        if rtpool[r].UseCount() == 0 {
          DeleteRtpeFromPool(r);
        }
      } else {
        assert rtes - {r} == rtes;
      }
    }

    /**
     * removeEntry(name, r): nothing when r has no pool entry or name no
     * entry. Otherwise the entry stops referring to r, r leaves the pool when
     * its use count drops to 0, and the entry is erased from the table and
     * the FIB when it has no origin left, or else regenerated and reinstalled.
     */
    method RemoveEntry(name: Name, r: Name, lsdb: Lsdb, now: int)
      requires Valid()
      modifies this
      ensures Valid()
      ensures r !in old(rtpool) || name !in old(table) ==>
                table == old(table) && rtpool == old(rtpool) && fib == old(fib) && nexthopCost == old(nexthopCost)
      ensures r in old(rtpool) && name in old(table) ==>
                && rtpool == DetachedPool(old(rtpool), old(table), name, r)
                && table == DetachedTable(old(rtpool), old(table), name, r)
      ensures r in old(rtpool) && name in old(table) && name !in table ==>
                fib == old(fib) - {name} && nexthopCost == old(nexthopCost)
      ensures r in old(rtpool) && name in old(table) && name in table ==>
                && name in fib && fib == old(fib)[name := fib[name]]
                && AdjustedFor(fib[name], table[name].nexthops, name, rtpool, table[name].rteList, Context(old(nexthopCost), lsdb, now, window))
                && NewKeysFor(old(nexthopCost), nexthopCost, name, table[name].rteList)
      ensures CostsGrown(old(nexthopCost), nexthopCost)
    {
      if r !in rtpool || name !in table {
        return;
      }
      DetachEntry(name, r, lsdb, now);
    }

    /** The body of removeEntry(name, r) once both r's pool entry and name's entry are found. */
    method DetachEntry(name: Name, r: Name, lsdb: Lsdb, now: int)
      requires Valid() && r in rtpool && name in table
      modifies this
      ensures Valid()
      ensures rtpool == DetachedPool(old(rtpool), old(table), name, r)
      ensures table == DetachedTable(old(rtpool), old(table), name, r)
      ensures name !in table ==> fib == old(fib) - {name} && nexthopCost == old(nexthopCost)
      ensures name in table ==>
                && name in fib && fib == old(fib)[name := fib[name]]
                && AdjustedFor(fib[name], table[name].nexthops, name, rtpool, table[name].rteList, Context(old(nexthopCost), lsdb, now, window))
                && NewKeysFor(old(nexthopCost), nexthopCost, name, table[name].rteList)
      ensures CostsGrown(old(nexthopCost), nexthopCost)
    {
      ghost var table0, pool0, fib0 := table, rtpool, fib;
      var rtes := RemoveRoutingTableEntry(name, r);
      DetachLinked(table0, pool0, name, r);
      Reinstall(name, rtes, lsdb, now);
      assert table == DetachedTable(pool0, table0, name, r);
      DetachValid(table0, pool0, fib0, name, r, table, rtpool, fib);
    }

    /**
     * The end of removeEntry: name's entry, now with origins rtes, is erased
     * from the table and the FIB when rtes is empty, or else gets the next
     * hops of rtes and is reinstalled in the FIB.
     */
    method Reinstall(name: Name, rtes: set<Name>, lsdb: Lsdb, now: int)
      requires forall o :: o in rtes ==> o in rtpool
      modifies this
      ensures rtpool == old(rtpool)
      ensures rtes == {} ==> table == old(table) - {name} && fib == old(fib) - {name} && nexthopCost == old(nexthopCost)
      ensures rtes != {} ==>
                && table == old(table)[name := TableEntry(rtes, MergedHops(rtpool, rtes))]
                && name in fib && fib == old(fib)[name := fib[name]]
                && Faces(fib[name]) == Faces(table[name].nexthops)
                && AdjustedFor(fib[name], table[name].nexthops, name, rtpool, rtes, Context(old(nexthopCost), lsdb, now, window))
                && NewKeysFor(old(nexthopCost), nexthopCost, name, rtes)
      ensures CostsGrown(old(nexthopCost), nexthopCost)
    {
      if rtes == {} {
        table := table - {name};
        fib := fib - {name};
      } else {
        table := table[name := TableEntry(rtes, MergedHops(rtpool, rtes))];
        UpdateFib(name, lsdb, now);
      }
    }

    /**
     * The loop over a changed pool entry's back-references in
     * updateWithNewRoute: addEntry(n, o) for every prefix n that refers to
     * o, which regenerates n's next hops and updates the FIB.
     */
    method ReAddReferrers(o: Name, rt: LinkState.RoutingTable, lsdb: Lsdb, now: int)
      requires o in rtpool
      requires Linked(table, rtpool) && Synced(table, rtpool, rtpool[o].backRefs) && FibTracks(table, fib)
      modifies this
      ensures Valid()
      ensures rtpool == old(rtpool) && SameShape(old(table), table)
      ensures forall n :: n in table && n !in rtpool[o].backRefs ==> table[n] == old(table)[n] && FibSame(old(fib), fib, n)
      ensures forall n :: n in rtpool[o].backRefs ==>
                n in table && FibFor(fib, n, table[n], rtpool, Context(old(nexthopCost), lsdb, now, window))
      ensures CostsGrown(old(nexthopCost), nexthopCost)
    {
      var refs := rtpool[o].backRefs;
      var todo := refs;
      while todo != {}
        invariant todo <= refs
        invariant Linked(table, rtpool) && Synced(table, rtpool, todo) && FibTracks(table, fib)
        invariant rtpool == old(rtpool) && SameShape(old(table), table)
        invariant forall n :: n in table && n !in refs - todo ==> table[n] == old(table)[n] && FibSame(old(fib), fib, n)
        invariant forall n :: n in refs - todo ==>
                    n in table && FibFor(fib, n, table[n], rtpool, Context(old(nexthopCost), lsdb, now, window))
        invariant CostsGrown(old(nexthopCost), nexthopCost)
        decreases todo
      {
        var n :| n in todo;
        ghost var costs1, fib1, table1 := nexthopCost, fib, table;
        AttachExisting(table, rtpool, n, o, rt);
        AddEntry(n, o, rt, lsdb, now, todo);
        ReAddStep(n, old(table), table1, table, old(fib), fib1, fib, rtpool, refs, todo,
                  old(nexthopCost), costs1, nexthopCost, lsdb, now, window);
        todo := todo - {n};
      }
    }

    /**
     * updateWithNewRoute for one pool entry o: a changed route (another
     * next-hop list, or none at all) becomes o's next hops, cleared when
     * there is no route, and every prefix that refers to o is re-added;
     * an unchanged route leaves everything as it is.
     */
    method RerouteOrigin(o: Name, entries: seq<RoutingTableEntry>, rt: LinkState.RoutingTable, lsdb: Lsdb, now: int)
      requires Valid() && o in rtpool
      modifies this
      ensures Valid()
      ensures rtpool == old(rtpool)[o := old(rtpool)[o].(nexthops := RouteHops(entries, o))]
      ensures SameShape(old(table), table)
      ensures forall n :: n in table && n !in Readded(entries, old(rtpool), o) ==> table[n] == old(table)[n] && FibSame(old(fib), fib, n)
      ensures forall n :: n in Readded(entries, old(rtpool), o) ==>
                n in table && FibFor(fib, n, table[n], rtpool, Context(old(nexthopCost), lsdb, now, window))
      ensures CostsGrown(old(nexthopCost), nexthopCost)
    {
      var route := FindRoute(entries, o);
      if route.Some? && route.value.nexthops != rtpool[o].nexthops {
        RehopSynced(table, rtpool, o, route.value.nexthops);
        rtpool := rtpool[o := rtpool[o].(nexthops := route.value.nexthops)];
        ReAddReferrers(o, rt, lsdb, now);
      } else if route.None? {
        RehopSynced(table, rtpool, o, {});
        rtpool := rtpool[o := rtpool[o].(nexthops := {})];
        ReAddReferrers(o, rt, lsdb, now);
      } else {
        UnchangedRoute(entries, rtpool, o);
      }
    }

    /**
     * updateWithNewRoute: every pool entry takes its destination's new next
     * hops (none when the new routes have no entry for it), and every
     * prefix that refers to an origin whose route changed is re-added, which
     * regenerates its next hops and updates the FIB. Prefixes of unchanged
     * origins keep their entries and FIB entries.
     */
    method UpdateWithNewRoute(entries: seq<RoutingTableEntry>, rt: LinkState.RoutingTable, lsdb: Lsdb, now: int)
      requires Valid()
      modifies this
      ensures Valid()
      ensures rtpool == Rerouted(old(rtpool), entries, {})
      ensures SameShape(old(table), table)
      ensures forall n :: n in table && !Affected(entries, old(rtpool), table[n].rteList) ==>
                table[n] == old(table)[n] && FibSame(old(fib), fib, n)
      ensures forall n :: n in table && Affected(entries, old(rtpool), table[n].rteList) ==>
                FibFor(fib, n, table[n], rtpool, Context(old(nexthopCost), lsdb, now, window))
      ensures CostsGrown(old(nexthopCost), nexthopCost)
    {
      var todo := rtpool.Keys;
      while todo != {}
        invariant todo <= old(rtpool).Keys
        invariant Valid() && rtpool == Rerouted(old(rtpool), entries, todo)
        invariant SameShape(old(table), table)
        invariant forall n :: n in table && !Affected(entries, old(rtpool), table[n].rteList - todo) ==>
                    table[n] == old(table)[n] && FibSame(old(fib), fib, n)
        invariant forall n :: n in table && Affected(entries, old(rtpool), table[n].rteList - todo) ==>
                    FibFor(fib, n, table[n], rtpool, Context(old(nexthopCost), lsdb, now, window))
        invariant CostsGrown(old(nexthopCost), nexthopCost)
        decreases todo
      {
        var o :| o in todo;
        ghost var table1, fib1, pool1, c1 := table, fib, rtpool, nexthopCost;
        RerouteOrigin(o, entries, rt, lsdb, now);
        RerouteStep(entries, o, todo, old(rtpool), old(table), old(fib), old(nexthopCost),
                    table1, fib1, pool1, c1, table, fib, rtpool, nexthopCost, lsdb, now, window);
        todo := todo - {o};
      }
    }

    /** generateNhlfromRteList on a current entry: its merged next hops stay what they are. */
    method RegenerateEntry(n: Name)
      requires n in table && table[n].nexthops == MergedHops(rtpool, table[n].rteList)
      modifies this
      ensures table == old(table) && rtpool == old(rtpool) && fib == old(fib) && nexthopCost == old(nexthopCost)
    {
      var rtes := table[n].rteList;
      table := table[n := TableEntry(rtes, MergedHops(rtpool, rtes))];
      assert table[n] == old(table)[n];
    }

    /**
     * One prefix of the refresh of an UPDATED Name LSA: when n refers to
     * origin, its next hops are regenerated and, if there are any, the FIB
     * gets them adjusted anew.
     */
    method RefreshOne(n: Name, origin: Name, lsdb: Lsdb, now: int, ghost todo: set<Name>,
                      ghost fib0: map<Name, NexthopList>, ghost c0: CostTable)
      requires n in todo && Valid()
      requires forall m :: m in table && !(m !in todo && Refreshed(table, origin, m)) ==> FibSame(fib0, fib, m)
      requires forall m :: m in table && m !in todo && Refreshed(table, origin, m) ==>
                 m in fib && AdjustedFor(fib[m], table[m].nexthops, m, rtpool, table[m].rteList, Context(c0, lsdb, now, window))
      requires CostsGrown(c0, nexthopCost)
      modifies this
      ensures Valid() && table == old(table) && rtpool == old(rtpool)
      ensures forall m :: m in table && !(m !in todo - {n} && Refreshed(table, origin, m)) ==> FibSame(fib0, fib, m)
      ensures forall m :: m in table && m !in todo - {n} && Refreshed(table, origin, m) ==>
                m in fib && AdjustedFor(fib[m], table[m].nexthops, m, rtpool, table[m].rteList, Context(c0, lsdb, now, window))
      ensures CostsGrown(c0, nexthopCost)
    {
      if n in table && origin in table[n].rteList {
        RegenerateEntry(n);
        if table[n].nexthops != {} {
          ghost var fib1, c1 := fib, nexthopCost;
          EntryInPool(table, rtpool, n);
          UpdateFib(n, lsdb, now);
          RefreshStep(n, table, fib0, fib1, fib, rtpool, origin, todo, c0, c1, nexthopCost, lsdb, now, window);
        } else {
          RefreshSkipped(n, table, fib0, fib, rtpool, origin, todo, c0, lsdb, now, window);
        }
      } else {
        RefreshSkipped(n, table, fib0, fib, rtpool, origin, todo, c0, lsdb, now, window);
      }
    }

    /**
     * The refresh of an UPDATED Name LSA that carries service-function
     * records: every prefix that refers to origin regenerates its next hops
     * (already current) and, when it has any, updates the FIB with them
     * adjusted against the new records.
     */
    method RefreshReferrers(origin: Name, lsdb: Lsdb, now: int)
      requires Valid()
      modifies this
      ensures Valid() && table == old(table) && rtpool == old(rtpool)
      ensures forall n :: n in table && !Refreshed(table, origin, n) ==> FibSame(old(fib), fib, n)
      ensures forall n :: n in table && Refreshed(table, origin, n) ==>
                n in fib && AdjustedFor(fib[n], table[n].nexthops, n, rtpool, table[n].rteList, Context(old(nexthopCost), lsdb, now, window))
      ensures CostsGrown(old(nexthopCost), nexthopCost)
    {
      var todo := table.Keys;
      while todo != {}
        invariant Valid() && table == old(table) && rtpool == old(rtpool)
        invariant forall n :: n in table && !(n !in todo && Refreshed(table, origin, n)) ==> FibSame(old(fib), fib, n)
        invariant forall n :: n in table && n !in todo && Refreshed(table, origin, n) ==>
                    n in fib && AdjustedFor(fib[n], table[n].nexthops, n, rtpool, table[n].rteList, Context(old(nexthopCost), lsdb, now, window))
        invariant CostsGrown(old(nexthopCost), nexthopCost)
        decreases todo
      {
        var n :| n in todo;
        RefreshOne(n, origin, lsdb, now, todo, old(fib), old(nexthopCost));
        todo := todo - {n};
      }
    }

    /** One prefix of the add loop of updateFromLsdb: the i-th of ps. */
    method AddAdvertisedOne(origin: Name, ps: seq<PrefixInfo>, i: nat, rt: LinkState.RoutingTable, lsdb: Lsdb, now: int,
                            ghost shape0: map<Name, set<Name>>, ghost c0: CostTable)
      requires i < |ps| && Valid()
      requires Shape(table) == WithOrigin(shape0, Advertised(ps[..i], ownRouterName), origin)
      requires CostsGrown(c0 + AdvertisedCosts(origin, ps[..i], ownRouterName), nexthopCost)
      modifies this
      ensures Valid()
      ensures Shape(table) == WithOrigin(shape0, Advertised(ps[..i + 1], ownRouterName), origin)
      ensures CostsGrown(c0 + AdvertisedCosts(origin, ps[..i + 1], ownRouterName), nexthopCost)
      ensures old(rtpool).Keys <= rtpool.Keys && HopsFromRoutes(old(rtpool), rtpool, rt)
    {
      if ps[i].name != ownRouterName {
        nexthopCost := nexthopCost[(origin, ps[i].name) := ps[i].cost as real];
        AttachHops(rtpool, table, ps[i].name, origin, rt);
        AddEntry(ps[i].name, origin, rt, lsdb, now, {});
        assert {} - {ps[i].name} == {};
      }
      AddedStep(origin, ps, ownRouterName, i, shape0, old(table), table, old(rtpool), rt,
                c0, old(nexthopCost), nexthopCost);
    }

    /**
     * The add loop of updateFromLsdb over a list of prefixes from origin:
     * for each name but the router's own, records its advertised cost and
     * calls addEntry(name, origin).
     */
    method AddAdvertised(origin: Name, ps: seq<PrefixInfo>, rt: LinkState.RoutingTable, lsdb: Lsdb, now: int)
      requires Valid()
      modifies this
      ensures Valid()
      ensures Shape(table) == WithOrigin(Shape(old(table)), Advertised(ps, ownRouterName), origin)
      ensures CostsGrown(old(nexthopCost) + AdvertisedCosts(origin, ps, ownRouterName), nexthopCost)
      ensures old(rtpool).Keys <= rtpool.Keys && HopsFromRoutes(old(rtpool), rtpool, rt)
    {
      AddedNone(origin, ps, ownRouterName, Shape(table), nexthopCost);
      var i := 0;
      while i < |ps|
        invariant 0 <= i <= |ps| && Valid()
        invariant Shape(table) == WithOrigin(Shape(old(table)), Advertised(ps[..i], ownRouterName), origin)
        invariant CostsGrown(old(nexthopCost) + AdvertisedCosts(origin, ps[..i], ownRouterName), nexthopCost)
        invariant old(rtpool).Keys <= rtpool.Keys && HopsFromRoutes(old(rtpool), rtpool, rt)
      {
        ghost var p1 := rtpool;
        AddAdvertisedOne(origin, ps, i, rt, lsdb, now, Shape(old(table)), old(nexthopCost));
        HopsFromRoutesTrans(old(rtpool), p1, rtpool, rt);
        i := i + 1;
      }
      assert ps[..|ps|] == ps;
    }

    /** One prefix of the remove loop of updateFromLsdb: the i-th of ps. */
    method RemoveAdvertisedOne(origin: Name, ps: seq<PrefixInfo>, i: nat, lsdb: Lsdb, now: int,
                               ghost shape0: map<Name, set<Name>>, ghost c0: CostTable)
      requires i < |ps| && Valid() && ErasableFrom(origin, ps, ownRouterName, nexthopCost, i)
      requires Shape(table) == WithoutOrigin(shape0, Advertised(ps[..i], ownRouterName), origin)
      requires CostsGrown(c0 - RemovedKeys(origin, Advertised(ps[..i], ownRouterName)), nexthopCost)
      modifies this
      ensures Valid()
      ensures Shape(table) == WithoutOrigin(shape0, Advertised(ps[..i + 1], ownRouterName), origin)
      ensures CostsGrown(c0 - RemovedKeys(origin, Advertised(ps[..i + 1], ownRouterName)), nexthopCost)
      ensures ErasableFrom(origin, ps, ownRouterName, nexthopCost, i + 1)
      ensures HopsKept(old(rtpool), rtpool)
    {
      if ps[i].name != ownRouterName {
        nexthopCost := nexthopCost - {(origin, ps[i].name)};
        if origin in rtpool && ps[i].name in table {
          DetachHops(rtpool, table, ps[i].name, origin);
        }
        RemoveEntry(ps[i].name, origin, lsdb, now);
      }
      RemovedStep(origin, ps, ownRouterName, i, shape0, old(table), table, old(rtpool),
                  c0, old(nexthopCost), nexthopCost);
      ErasableStep(origin, ps, ownRouterName, i, old(nexthopCost), nexthopCost);
    }

    /**
     * The remove loops of updateFromLsdb over a list of prefixes from
     * origin: for each name but the router's own, erases its advertised cost
     * and calls removeEntry(name, origin).
     */
    method RemoveAdvertised(origin: Name, ps: seq<PrefixInfo>, lsdb: Lsdb, now: int)
      requires Valid() && ErasableFrom(origin, ps, ownRouterName, nexthopCost, 0)
      modifies this
      ensures Valid()
      ensures Shape(table) == WithoutOrigin(Shape(old(table)), Advertised(ps, ownRouterName), origin)
      ensures CostsGrown(old(nexthopCost) - RemovedKeys(origin, Advertised(ps, ownRouterName)), nexthopCost)
      ensures HopsKept(old(rtpool), rtpool)
    {
      RemovedNone(origin, ps, ownRouterName, Shape(table), nexthopCost);
      var i := 0;
      while i < |ps|
        invariant 0 <= i <= |ps| && Valid()
        invariant Shape(table) == WithoutOrigin(Shape(old(table)), Advertised(ps[..i], ownRouterName), origin)
        invariant CostsGrown(old(nexthopCost) - RemovedKeys(origin, Advertised(ps[..i], ownRouterName)), nexthopCost)
        invariant ErasableFrom(origin, ps, ownRouterName, nexthopCost, i)
        invariant HopsKept(old(rtpool), rtpool)
      {
        ghost var p1 := rtpool;
        RemoveAdvertisedOne(origin, ps, i, lsdb, now, Shape(old(table)), old(nexthopCost));
        HopsKeptTrans(old(rtpool), p1, rtpool);
        i := i + 1;
      }
      assert ps[..|ps|] == ps;
    }

    /**
     * The refresh of an UPDATED Name LSA: when origin's record in the LSDB
     * has a service record with metrics, or any service record at all, every
     * prefix that refers to origin and has next hops is reinstalled.
     */
    method RefreshIfServices(origin: Name, lsdb: Lsdb, now: int) returns (refreshed: bool)
      requires Valid() && origin in lsdb
      modifies this
      ensures refreshed <==> lsdb[origin].services != map[]
      ensures Valid() && table == old(table) && rtpool == old(rtpool)
      ensures !refreshed ==> fib == old(fib) && nexthopCost == old(nexthopCost)
      ensures forall n :: n in table && !(refreshed && Refreshed(table, origin, n)) ==> FibSame(old(fib), fib, n)
      ensures forall n :: n in table && refreshed && Refreshed(table, origin, n) ==>
                n in fib && AdjustedFor(fib[n], table[n].nexthops, n, rtpool, table[n].rteList, Context(old(nexthopCost), lsdb, now, window))
      ensures CostsGrown(old(nexthopCost), nexthopCost)
    {
      var hasInfo := HasServiceInfo(lsdb[origin].services);
      RefreshWantedIffRecords(lsdb[origin].services);
      refreshed := hasInfo || lsdb[origin].services != map[];
      if refreshed {
        RefreshReferrers(origin, lsdb, now);
      }
    }

    /**
     * An INSTALLED LSA from another router: addEntry(origin, origin), then,
     * for a Name LSA, the add loop over its prefixes.
     */
    method InstallLsa(lsa: Lsa, rt: LinkState.RoutingTable, lsdb: Lsdb, now: int)
      requires Valid()
      modifies this
      ensures Valid()
      ensures Shape(table) == WithOrigin(Shape(old(table)), {lsa.originRouter} + Advertised(LsaPrefixes(lsa), ownRouterName), lsa.originRouter)
      ensures CostsGrown(old(nexthopCost) + AdvertisedCosts(lsa.originRouter, LsaPrefixes(lsa), ownRouterName), nexthopCost)
      ensures old(rtpool).Keys <= rtpool.Keys && HopsFromRoutes(old(rtpool), rtpool, rt)
    {
      var o := lsa.originRouter;
      ghost var t0, p0, c0 := table, rtpool, nexthopCost;
      AddEntry(o, o, rt, lsdb, now, {});
      assert {} - {o} == {};
      AttachShape(p0, t0, o, o, rt);
      AttachHops(p0, t0, o, o, rt);
      ghost var s1, c1, p1 := Shape(table), nexthopCost, rtpool;
      if lsa.lsaType == NameType {
        AddAdvertised(o, lsa.npl, rt, lsdb, now);
        HopsFromRoutesTrans(p0, p1, rtpool, rt);
      } else {
        NoPrefixes(o, ownRouterName, s1, c1);
      }
      InstalledDone(o, LsaPrefixes(lsa), ownRouterName, Shape(t0), s1, Shape(table), c0, c1, nexthopCost);
    }

    /**
     * An UPDATED Name LSA from another router that the LSDB holds: the
     * refresh, then the add loop over namesToAdd and the remove loop over
     * namesToRemove.
     */
    method UpdateLsa(origin: Name, namesToAdd: seq<PrefixInfo>, namesToRemove: seq<PrefixInfo>,
                     rt: LinkState.RoutingTable, lsdb: Lsdb, now: int)
      requires Valid() && origin in lsdb
      requires ErasableFrom(origin, namesToRemove, ownRouterName, nexthopCost + AdvertisedCosts(origin, namesToAdd, ownRouterName), 0)
      modifies this
      ensures Valid()
      ensures Shape(table) == WithoutOrigin(WithOrigin(Shape(old(table)), Advertised(namesToAdd, ownRouterName), origin),
                                            Advertised(namesToRemove, ownRouterName), origin)
      ensures CostsGrown((old(nexthopCost) + AdvertisedCosts(origin, namesToAdd, ownRouterName))
                           - RemovedKeys(origin, Advertised(namesToRemove, ownRouterName)), nexthopCost)
      ensures HopsFromRoutes(old(rtpool), rtpool, rt)
    {
      ghost var added := AdvertisedCosts(origin, namesToAdd, ownRouterName);
      var _ := RefreshIfServices(origin, lsdb, now);
      ghost var c1 := nexthopCost;
      CostsGrownUnion(old(nexthopCost), c1, added);
      ErasableGrown(origin, namesToRemove, ownRouterName, old(nexthopCost) + added, c1 + added);
      AddAdvertised(origin, namesToAdd, rt, lsdb, now);
      ghost var c2, p2 := nexthopCost, rtpool;
      ErasableGrown(origin, namesToRemove, ownRouterName, c1 + added, c2);
      RemoveAdvertised(origin, namesToRemove, lsdb, now);
      HopsKeptAfter(old(rtpool), p2, rtpool, rt);
      UpdatedCosts(origin, namesToAdd, namesToRemove, ownRouterName, old(nexthopCost), c1, c2, nexthopCost);
    }

    /**
     * A REMOVED LSA from another router: removeEntry(origin, origin), then,
     * for a Name LSA, the remove loop over its prefixes.
     */
    method RemoveLsa(lsa: Lsa, lsdb: Lsdb, now: int)
      requires Valid() && ErasableFrom(lsa.originRouter, LsaPrefixes(lsa), ownRouterName, nexthopCost, 0)
      modifies this
      ensures Valid()
      ensures Shape(table) == WithoutOrigin(Shape(old(table)), {lsa.originRouter} + Advertised(LsaPrefixes(lsa), ownRouterName), lsa.originRouter)
      ensures CostsGrown(old(nexthopCost) - RemovedKeys(lsa.originRouter, Advertised(LsaPrefixes(lsa), ownRouterName)), nexthopCost)
      ensures HopsKept(old(rtpool), rtpool)
    {
      var o := lsa.originRouter;
      ghost var t0, p0, c0 := table, rtpool, nexthopCost;
      RemoveEntry(o, o, lsdb, now);
      if o in p0 && o in t0 {
        DetachShape(p0, t0, o, o);
        DetachHops(p0, t0, o, o);
      } else {
        SkipShape(p0, t0, o, o);
      }
      ghost var s1, c1, p1 := Shape(table), nexthopCost, rtpool;
      ErasableGrown(o, LsaPrefixes(lsa), ownRouterName, c0, c1);
      if lsa.lsaType == NameType {
        RemoveAdvertised(o, lsa.npl, lsdb, now);
        HopsKeptTrans(p0, p1, rtpool);
      } else {
        NoPrefixes(o, ownRouterName, s1, c1);
      }
      RemovedDone(o, LsaPrefixes(lsa), ownRouterName, Shape(t0), s1, Shape(table), c0, c1, nexthopCost);
    }

    /**
     * updateFromLsdb: an LSA of the router's own changes nothing; otherwise
     * INSTALLED adds the origin and the LSA's prefixes, UPDATED (for a Name
     * LSA the LSDB holds) refreshes and applies the added and removed
     * prefixes, and REMOVED takes the origin and the LSA's prefixes away.
     */
    method UpdateFromLsdb(lsa: Lsa, updateType: LsdbUpdate, namesToAdd: seq<PrefixInfo>, namesToRemove: seq<PrefixInfo>,
                          rt: LinkState.RoutingTable, lsdb: Lsdb, now: int)
      requires Valid()
      requires var o := lsa.originRouter;
               o != ownRouterName && updateType == Updated && lsa.lsaType == NameType && o in lsdb ==>
                 ErasableFrom(o, namesToRemove, ownRouterName, nexthopCost + AdvertisedCosts(o, namesToAdd, ownRouterName), 0)
      requires var o := lsa.originRouter;
               o != ownRouterName && updateType == Removed ==> ErasableFrom(o, LsaPrefixes(lsa), ownRouterName, nexthopCost, 0)
      modifies this
      ensures Valid()
      ensures var o := lsa.originRouter;
              (o == ownRouterName || (updateType == Updated && (lsa.lsaType != NameType || o !in lsdb))) ==>
                table == old(table) && rtpool == old(rtpool) && fib == old(fib) && nexthopCost == old(nexthopCost)
      ensures var o := lsa.originRouter;
              o != ownRouterName && updateType == Installed ==>
                && Shape(table) == WithOrigin(Shape(old(table)), {o} + Advertised(LsaPrefixes(lsa), ownRouterName), o)
                && CostsGrown(old(nexthopCost) + AdvertisedCosts(o, LsaPrefixes(lsa), ownRouterName), nexthopCost)
                && old(rtpool).Keys <= rtpool.Keys && HopsFromRoutes(old(rtpool), rtpool, rt)
      ensures var o := lsa.originRouter;
              o != ownRouterName && updateType == Updated && lsa.lsaType == NameType && o in lsdb ==>
                && Shape(table) == WithoutOrigin(WithOrigin(Shape(old(table)), Advertised(namesToAdd, ownRouterName), o),
                                                 Advertised(namesToRemove, ownRouterName), o)
                && CostsGrown((old(nexthopCost) + AdvertisedCosts(o, namesToAdd, ownRouterName))
                                - RemovedKeys(o, Advertised(namesToRemove, ownRouterName)), nexthopCost)
                && HopsFromRoutes(old(rtpool), rtpool, rt)
      ensures var o := lsa.originRouter;
              o != ownRouterName && updateType == Removed ==>
                && Shape(table) == WithoutOrigin(Shape(old(table)), {o} + Advertised(LsaPrefixes(lsa), ownRouterName), o)
                && CostsGrown(old(nexthopCost) - RemovedKeys(o, Advertised(LsaPrefixes(lsa), ownRouterName)), nexthopCost)
                && HopsKept(old(rtpool), rtpool)
    {
      if lsa.originRouter == ownRouterName {
        return;
      }
      match updateType {
        case Installed =>
          InstallLsa(lsa, rt, lsdb, now);
        case Updated =>
          if lsa.lsaType != NameType || lsa.originRouter !in lsdb {
            return;
          }
          UpdateLsa(lsa.originRouter, namesToAdd, namesToRemove, rt, lsdb, now);
        case Removed =>
          RemoveLsa(lsa, lsdb, now);
      }
    }
  }
}
