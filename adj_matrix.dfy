/**
 * The N x N adjacency matrix of the link-state calculation: building it from
 * the adjacency advertisements, correcting asymmetric links, and the two
 * helpers of the multipath mode (listing the source's links and masking the
 * source's row down to one of them).
 *
 * Link costs are reals; NON_ADJACENT_COST marks a missing or broken link and
 * is the only value the correction writes besides a maximum of two costs.
 */
module AdjMatrix {

  import opened Ndn

  /** The cost of a link that does not exist (any negative cost counts as broken). */
  const NON_ADJACENT_COST: real := -12345.0

  /** One neighbour as an adjacency advertisement lists it. */
  datatype Adjacent = Adjacent(name: Name, linkCost: real, faceUri: FaceUri)

  /** An adjacency advertisement: the router that sent it and its neighbours. */
  datatype AdjLsa = AdjLsa(origin: Name, adjacencies: seq<Adjacent>)

  /**
   * The router-name / matrix-index correspondence: the index of a router,
   * the router of an index, and the number of routers.
   */
  datatype NameMap = NameMap(mappingNo: map<Name, nat>, routerName: map<nat, Name>, size: nat)

  // ---------------------------------------------------------------------
  // Specification of the matrix
  // ---------------------------------------------------------------------

  /** Whether writing the adjacency adj of lsa lands in cell (row, col). */
  predicate SetsCell(nm: NameMap, lsa: AdjLsa, adj: Adjacent, row: nat, col: nat)
  {
    && lsa.origin in nm.mappingNo && nm.mappingNo[lsa.origin] == row
    && adj.name in nm.mappingNo && nm.mappingNo[adj.name] == col
    && row < nm.size && col < nm.size
  }

  /** The cost the last adjacency of lsa that lands in (row, col) writes, if any. */
  function LastWrite(nm: NameMap, lsa: AdjLsa, adjs: seq<Adjacent>, row: nat, col: nat): Option<real>
  {
    if adjs == [] then None
    else if SetsCell(nm, lsa, adjs[|adjs| - 1], row, col) then Some(adjs[|adjs| - 1].linkCost)
    else LastWrite(nm, lsa, adjs[..|adjs| - 1], row, col)
  }

  /** Cell (row, col) after all advertisements are written in order, before correction. */
  function RawCost(nm: NameMap, lsdb: seq<AdjLsa>, row: nat, col: nat): real
  {
    if lsdb == [] then NON_ADJACENT_COST
    else
      var lsa := lsdb[|lsdb| - 1];
      var w := LastWrite(nm, lsa, lsa.adjacencies, row, col);
      if w.Some? then w.value else RawCost(nm, lsdb[..|lsdb| - 1], row, col)
  }

  /**
   * The correction of one pair of opposite cells: equal costs stay; unequal
   * costs become the larger one when both are non-negative and
   * NON_ADJACENT_COST otherwise.
   */
  function Corrected(toCost: real, fromCost: real): real
  {
    if fromCost == toCost then toCost
    else if toCost >= 0.0 && fromCost >= 0.0 then (if toCost >= fromCost then toCost else fromCost)
    else NON_ADJACENT_COST
  }

  /** Cell (row, col) of the finished matrix. */
  function AdjCost(nm: NameMap, lsdb: seq<AdjLsa>, row: nat, col: nat): real
  {
    Corrected(RawCost(nm, lsdb, row, col), RawCost(nm, lsdb, col, row))
  }

  /** Some adjacency of some advertisement lands in (row, col). */
  predicate IsSet(nm: NameMap, lsdb: seq<AdjLsa>, row: nat, col: nat)
  {
    exists k, a :: 0 <= k < |lsdb| && 0 <= a < |lsdb[k].adjacencies|
                   && SetsCell(nm, lsdb[k], lsdb[k].adjacencies[a], row, col)
  }

  // ---------------------------------------------------------------------
  // Building the matrix
  // ---------------------------------------------------------------------

  /** Cell (row, col) while the adjacencies adjs[..a] of lsdb[k] are being written. */
  function PartialCost(nm: NameMap, lsdb: seq<AdjLsa>, k: nat, a: nat, row: nat, col: nat): real
    requires k < |lsdb| && a <= |lsdb[k].adjacencies|
  {
    var w := LastWrite(nm, lsdb[k], lsdb[k].adjacencies[..a], row, col);
    if w.Some? then w.value else RawCost(nm, lsdb[..k], row, col)
  }

  /** Whether cell (i, j) has been visited by the correction loop standing at (row, col). */
  predicate Visited(i: nat, j: nat, row: nat, col: nat)
  {
    i < row || (i == row && j < col)
  }

  /**
   * makeAdjMatrix: every cell starts at NON_ADJACENT_COST, each advertisement
   * writes the costs of its neighbours into its origin's row (skipping names
   * without an index, or with an index beyond the map's size), then every
   * pair of opposite cells is corrected.
   */
  method MakeAdjMatrix(nm: NameMap, lsdb: seq<AdjLsa>) returns (matrix: array2<real>)
    ensures fresh(matrix)
    ensures matrix.Length0 == nm.size && matrix.Length1 == nm.size
    ensures forall i, j :: 0 <= i < nm.size && 0 <= j < nm.size ==> matrix[i, j] == AdjCost(nm, lsdb, i, j)
    ensures forall i, j :: 0 <= i < nm.size && 0 <= j < nm.size ==> matrix[i, j] == matrix[j, i]
  {
    var n := nm.size;
    matrix := new real[n, n]((i, j) => NON_ADJACENT_COST);
    var k := 0;
    while k < |lsdb|
      invariant k <= |lsdb|
      invariant forall i, j :: 0 <= i < n && 0 <= j < n ==> matrix[i, j] == RawCost(nm, lsdb[..k], i, j)
    {
      var lsa := lsdb[k];
      var row: Option<nat> := if lsa.origin in nm.mappingNo then Some(nm.mappingNo[lsa.origin]) else None;
      var a := 0;
      while a < |lsa.adjacencies|
        invariant a <= |lsa.adjacencies|
        invariant forall i, j :: 0 <= i < n && 0 <= j < n ==> matrix[i, j] == PartialCost(nm, lsdb, k, a, i, j)
      {
        var adj := lsa.adjacencies[a];
        var col: Option<nat> := if adj.name in nm.mappingNo then Some(nm.mappingNo[adj.name]) else None;
        if row.Some? && col.Some? && row.value < n && col.value < n {
          matrix[row.value, col.value] := adj.linkCost;
        }
        WriteStep(nm, lsdb, k, a);
        a := a + 1;
      }
      WriteDone(nm, lsdb, k);
      k := k + 1;
    }
    assert lsdb[..k] == lsdb;

    var r := 0;
    while r < n
      invariant r <= n
      invariant forall i, j :: 0 <= i < n && 0 <= j < n ==>
                  matrix[i, j] == (if Visited(i, j, r, 0) || Visited(j, i, r, 0)
                                   then AdjCost(nm, lsdb, i, j) else RawCost(nm, lsdb, i, j))
    {
      var c := 0;
      while c < n
        invariant c <= n
        invariant forall i, j :: 0 <= i < n && 0 <= j < n ==>
                    matrix[i, j] == (if Visited(i, j, r, c) || Visited(j, i, r, c)
                                     then AdjCost(nm, lsdb, i, j) else RawCost(nm, lsdb, i, j))
      {
        var toCost := matrix[r, c];
        var fromCost := matrix[c, r];
        if fromCost != toCost {
          var correctedCost := NON_ADJACENT_COST;
          if toCost >= 0.0 && fromCost >= 0.0 {
            correctedCost := if toCost >= fromCost then toCost else fromCost;
          }
          matrix[r, c] := correctedCost;
          matrix[c, r] := correctedCost;
        }
        c := c + 1;
      }
      r := r + 1;
    }
  }

  /** Writing adjacency a of lsdb[k] advances PartialCost by one adjacency. */
  lemma WriteStep(nm: NameMap, lsdb: seq<AdjLsa>, k: nat, a: nat)
    requires k < |lsdb| && a < |lsdb[k].adjacencies|
    ensures var adjs := lsdb[k].adjacencies;
            adjs[..a + 1][..a] == adjs[..a] && adjs[..a + 1][a] == adjs[a]
  {
  }

  /** With all adjacencies of lsdb[k] written, PartialCost is RawCost of lsdb[..k + 1]. */
  lemma WriteDone(nm: NameMap, lsdb: seq<AdjLsa>, k: nat)
    requires k < |lsdb|
    ensures forall i, j :: PartialCost(nm, lsdb, k, |lsdb[k].adjacencies|, i, j) == RawCost(nm, lsdb[..k + 1], i, j)
  {
    assert lsdb[k].adjacencies[..|lsdb[k].adjacencies|] == lsdb[k].adjacencies;
    assert lsdb[..k + 1][..k] == lsdb[..k];
  }

  // ---------------------------------------------------------------------
  // Properties of the matrix
  // ---------------------------------------------------------------------

  /** The value of a cell that some adjacency lands in is the cost of the LAST such adjacency. */
  lemma {:induction false} LastWriteIsLast(nm: NameMap, lsa: AdjLsa, adjs: seq<Adjacent>, row: nat, col: nat)
    ensures LastWrite(nm, lsa, adjs, row, col).None? <==>
            forall a :: 0 <= a < |adjs| ==> !SetsCell(nm, lsa, adjs[a], row, col)
    ensures LastWrite(nm, lsa, adjs, row, col).Some? ==>
            exists a :: 0 <= a < |adjs| && SetsCell(nm, lsa, adjs[a], row, col)
                        && LastWrite(nm, lsa, adjs, row, col).value == adjs[a].linkCost
                        && forall b :: a < b < |adjs| ==> !SetsCell(nm, lsa, adjs[b], row, col)
  {
    if adjs != [] {
      var init := adjs[..|adjs| - 1];
      LastWriteIsLast(nm, lsa, init, row, col);
      if !SetsCell(nm, lsa, adjs[|adjs| - 1], row, col) {
        if LastWrite(nm, lsa, init, row, col).Some? {
          var a :| 0 <= a < |init| && SetsCell(nm, lsa, init[a], row, col)
                   && LastWrite(nm, lsa, init, row, col).value == init[a].linkCost
                   && forall b :: a < b < |init| ==> !SetsCell(nm, lsa, init[b], row, col);
          assert adjs[a] == init[a];
        }
      }
    }
  }

  /** A cell that no adjacency lands in keeps NON_ADJACENT_COST before correction. */
  lemma {:induction false} UnsetRawCost(nm: NameMap, lsdb: seq<AdjLsa>, row: nat, col: nat)
    requires !IsSet(nm, lsdb, row, col)
    ensures RawCost(nm, lsdb, row, col) == NON_ADJACENT_COST
  {
    if lsdb != [] {
      var init := lsdb[..|lsdb| - 1];
      var lsa := lsdb[|lsdb| - 1];
      LastWriteIsLast(nm, lsa, lsa.adjacencies, row, col);
      UnsetRawCost(nm, init, row, col);
    }
  }

  /**
   * A cell that some adjacency lands in holds, before correction, the cost of
   * the last adjacency (in advertisement order) landing there.
   */
  lemma {:induction false} SetRawCost(nm: NameMap, lsdb: seq<AdjLsa>, row: nat, col: nat)
    requires IsSet(nm, lsdb, row, col)
    ensures exists k, a :: 0 <= k < |lsdb| && 0 <= a < |lsdb[k].adjacencies|
                           && SetsCell(nm, lsdb[k], lsdb[k].adjacencies[a], row, col)
                           && RawCost(nm, lsdb, row, col) == lsdb[k].adjacencies[a].linkCost
  {
    var init := lsdb[..|lsdb| - 1];
    var lsa := lsdb[|lsdb| - 1];
    LastWriteIsLast(nm, lsa, lsa.adjacencies, row, col);
    if LastWrite(nm, lsa, lsa.adjacencies, row, col).Some? {
      var a :| 0 <= a < |lsa.adjacencies| && SetsCell(nm, lsa, lsa.adjacencies[a], row, col)
               && LastWrite(nm, lsa, lsa.adjacencies, row, col).value == lsa.adjacencies[a].linkCost;
      assert SetsCell(nm, lsdb[|lsdb| - 1], lsdb[|lsdb| - 1].adjacencies[a], row, col);
    } else {
      var k, a :| 0 <= k < |lsdb| && 0 <= a < |lsdb[k].adjacencies|
                  && SetsCell(nm, lsdb[k], lsdb[k].adjacencies[a], row, col);
      if k == |lsdb| - 1 {
        assert false;
      }
      assert init[k] == lsdb[k];
      SetRawCost(nm, init, row, col);
      var k', a' :| 0 <= k' < |init| && 0 <= a' < |init[k'].adjacencies|
                    && SetsCell(nm, init[k'], init[k'].adjacencies[a'], row, col)
                    && RawCost(nm, init, row, col) == init[k'].adjacencies[a'].linkCost;
      assert lsdb[k'] == init[k'];
    }
  }

  /** A cell that no adjacency lands in is NON_ADJACENT_COST in the finished matrix. */
  lemma UnsetCellIsNonAdjacent(nm: NameMap, lsdb: seq<AdjLsa>, row: nat, col: nat)
    requires !IsSet(nm, lsdb, row, col)
    ensures AdjCost(nm, lsdb, row, col) == NON_ADJACENT_COST
  {
    UnsetRawCost(nm, lsdb, row, col);
  }

  /**
   * The correction of a pair of opposite cells: the result is symmetric,
   * equal costs stay, unequal costs become the maximum when both are
   * non-negative and NON_ADJACENT_COST when either is negative.
   */
  lemma CorrectedPair(nm: NameMap, lsdb: seq<AdjLsa>, row: nat, col: nat)
    ensures var to, from := RawCost(nm, lsdb, row, col), RawCost(nm, lsdb, col, row);
            && AdjCost(nm, lsdb, row, col) == AdjCost(nm, lsdb, col, row)
            && (to == from ==> AdjCost(nm, lsdb, row, col) == to)
            && (to != from && to >= 0.0 && from >= 0.0 ==>
                  AdjCost(nm, lsdb, row, col) >= to && AdjCost(nm, lsdb, row, col) >= from
                  && (AdjCost(nm, lsdb, row, col) == to || AdjCost(nm, lsdb, row, col) == from))
            && (to != from && (to < 0.0 || from < 0.0) ==> AdjCost(nm, lsdb, row, col) == NON_ADJACENT_COST)
  {
  }

  // ---------------------------------------------------------------------
  // Multipath helpers
  // ---------------------------------------------------------------------

  /** A link of the source: the neighbour's index and the cost to it. */
  datatype Link = Link(index: nat, cost: real)

  /**
   * gatherLinks: every index other than the source whose cost in the
   * source's row is non-negative, in increasing index order.
   */
  method GatherLinks(matrix: array2<real>, source: nat) returns (links: seq<Link>)
    requires source < matrix.Length0 && matrix.Length0 == matrix.Length1
    ensures forall k :: 0 <= k < |links| ==>
              && links[k].index < matrix.Length0 && links[k].index != source
              && links[k].cost == matrix[source, links[k].index] && links[k].cost >= 0.0
    ensures forall k, l :: 0 <= k < l < |links| ==> links[k].index < links[l].index
    ensures forall i :: 0 <= i < matrix.Length0 && i != source && matrix[source, i] >= 0.0 ==>
              exists k :: 0 <= k < |links| && links[k].index == i
  {
    links := [];
    var i := 0;
    while i < matrix.Length0
      invariant i <= matrix.Length0
      invariant forall k :: 0 <= k < |links| ==>
                  && links[k].index < i && links[k].index != source
                  && links[k].cost == matrix[source, links[k].index] && links[k].cost >= 0.0
      invariant forall k, l :: 0 <= k < l < |links| ==> links[k].index < links[l].index
      invariant forall j :: 0 <= j < i && j != source && matrix[source, j] >= 0.0 ==>
                  exists k :: 0 <= k < |links| && links[k].index == j
    {
      if i != source {
        var cost := matrix[source, i];
        if cost >= 0.0 {
          ghost var before := links;
          links := links + [Link(i, cost)];
          assert forall k :: 0 <= k < |before| ==> links[k] == before[k];
          assert links[|links| - 1].index == i;
        }
      }
      i := i + 1;
    }
  }

  /**
   * simulateOneNeighbor: the source's row keeps only the given link's cost,
   * every other cell of the row becomes NON_ADJACENT_COST; the other rows
   * are untouched.
   */
  method SimulateOneNeighbor(matrix: array2<real>, source: nat, link: Link)
    requires source < matrix.Length0 && matrix.Length0 == matrix.Length1
    modifies matrix
    ensures forall i, j :: 0 <= i < matrix.Length0 && 0 <= j < matrix.Length1 ==>
              matrix[i, j] == if i != source then old(matrix[i, j])
                              else if j == link.index then link.cost
                              else NON_ADJACENT_COST
  {
    var i := 0;
    while i < matrix.Length1
      invariant i <= matrix.Length1
      invariant forall r, j :: 0 <= r < matrix.Length0 && 0 <= j < matrix.Length1 ==>
                  matrix[r, j] == if r != source || j >= i then old(matrix[r, j])
                                  else if j == link.index then link.cost
                                  else NON_ADJACENT_COST
    {
      if i == link.index {
        matrix[source, i] := link.cost;
      } else {
        matrix[source, i] := NON_ADJACENT_COST;
      }
      i := i + 1;
    }
  }
}
