/** The Moore-neighbour locator (pick3_analyzer_app.py.py lines 54-62): the
    3x3 block around the selected cell is scanned in raster order, and every
    in-bounds, non-empty cell other than the centre contributes `str` of its
    value. */
module Neighborhood {
  import opened Wrappers
  import opened Decimal
  import opened Grid

  /** Coordinates of the block's `p`-th cell in raster order (`p` in 0..8). */
  function RasterCell(row: nat, col: nat, p: nat): (int, int) {
    (row - 1 + p / 3, col - 1 + p % 3)
  }

  /** `0 <= i < len(grid_data) and 0 <= j < max_cols`. */
  predicate InGrid(grid: seq<seq<Cell>>, width: nat, i: int, j: int) {
    0 <= i < |grid| && 0 <= j < width
  }

  /** A cell that the scan reports: in bounds, not the centre, not empty. */
  predicate IsNeighbor(grid: seq<seq<Cell>>, width: nat, row: nat, col: nat, i: int, j: int)
    requires Rectangular(grid, width)
  {
    !(i == row && j == col) && InGrid(grid, width, i, j) && grid[i][j].Some?
  }

  /** In the 3x3 block centred on (row, col). */
  predicate Near(row: nat, col: nat, i: int, j: int) {
    row - 1 <= i <= row + 1 && col - 1 <= j <= col + 1
  }

  predicate RasterBefore(a: (int, int), b: (int, int)) {
    a.0 < b.0 || (a.0 == b.0 && a.1 < b.1)
  }

  /** Whether the `p`-th block cell is in bounds and not the centre (1) or not (0). */
  function Slot(grid: seq<seq<Cell>>, width: nat, row: nat, col: nat, p: nat): nat {
    var (i, j) := RasterCell(row, col, p);
    if !(i == row && j == col) && InGrid(grid, width, i, j) then 1 else 0
  }

  /** How many of the first `k` block cells are in bounds and not the centre. */
  function Slots(grid: seq<seq<Cell>>, width: nat, row: nat, col: nat, k: nat): nat {
    if k == 0 then 0 else Slots(grid, width, row, col, k - 1) + Slot(grid, width, row, col, k - 1)
  }

  /** The cells the scan has reported after visiting the first `k` block cells:
      each is an in-bounds, non-empty cell other than the centre. */
  function Found(grid: seq<seq<Cell>>, width: nat, row: nat, col: nat, k: nat): (ps: seq<(int, int)>)
    requires Rectangular(grid, width) && k <= 9
    ensures forall m :: 0 <= m < |ps| ==> IsNeighbor(grid, width, row, col, ps[m].0, ps[m].1)
  {
    if k == 0 then []
    else
      var front := Found(grid, width, row, col, k - 1);
      var c := RasterCell(row, col, k - 1);
      if IsNeighbor(grid, width, row, col, c.0, c.1) then front + [c] else front
  }

  /** The block cell before the `p`-th lies in the block and comes before it. */
  lemma RasterNext(row: nat, col: nat, p: nat)
    requires 0 < p <= 9
    ensures Near(row, col, RasterCell(row, col, p - 1).0, RasterCell(row, col, p - 1).1)
    ensures RasterBefore(RasterCell(row, col, p - 1), RasterCell(row, col, p))
  {
    if p % 3 == 0 {
      assert p / 3 == (p - 1) / 3 + 1;
    } else {
      assert p / 3 == (p - 1) / 3 && p % 3 == (p - 1) % 3 + 1;
    }
  }

  /** `ps` lies in the block, in strict raster order, before the `k`-th
      block cell. */
  predicate InRasterOrder(row: nat, col: nat, ps: seq<(int, int)>, k: nat) {
    && (forall m :: 0 <= m < |ps| ==> Near(row, col, ps[m].0, ps[m].1))
    && (forall m, n :: 0 <= m < n < |ps| ==> RasterBefore(ps[m], ps[n]))
    && (forall m :: 0 <= m < |ps| ==> RasterBefore(ps[m], RasterCell(row, col, k)))
  }

  /** Passing the `k-1`-th block cell, with or without reporting it, keeps
      the order. */
  lemma RasterExtend(row: nat, col: nat, ps: seq<(int, int)>, k: nat)
    requires 0 < k <= 9 && InRasterOrder(row, col, ps, k - 1)
    ensures InRasterOrder(row, col, ps, k)
    ensures InRasterOrder(row, col, ps + [RasterCell(row, col, k - 1)], k)
  {
    RasterNext(row, col, k);
  }

  /** What the scan has found after the first `k` block cells lies in the
      block, in strict raster order, before the `k`-th block cell. */
  lemma {:induction false} FoundOrdered(grid: seq<seq<Cell>>, width: nat, row: nat, col: nat, k: nat)
    requires Rectangular(grid, width) && k <= 9
    ensures InRasterOrder(row, col, Found(grid, width, row, col, k), k)
  {
    if k > 0 {
      FoundOrdered(grid, width, row, col, k - 1);
      RasterExtend(row, col, Found(grid, width, row, col, k - 1), k);
    }
  }

  /** No neighbour among the first `k` block cells is missed. */
  lemma {:induction false} FoundComplete(grid: seq<seq<Cell>>, width: nat, row: nat, col: nat, k: nat)
    requires Rectangular(grid, width) && k <= 9
    ensures forall p :: 0 <= p < k && IsNeighbor(grid, width, row, col, RasterCell(row, col, p).0, RasterCell(row, col, p).1) ==>
              RasterCell(row, col, p) in Found(grid, width, row, col, k)
  {
    if k > 0 {
      FoundComplete(grid, width, row, col, k - 1);
    }
  }

  /** No more cells are found than there are in-bounds non-centre slots. */
  lemma {:induction false} FoundCount(grid: seq<seq<Cell>>, width: nat, row: nat, col: nat, k: nat)
    requires Rectangular(grid, width) && k <= 9
    ensures |Found(grid, width, row, col, k)| <= Slots(grid, width, row, col, k)
  {
    if k > 0 {
      FoundCount(grid, width, row, col, k - 1);
    }
  }

  /** `str(n)` of each reported cell, in order. */
  function Render(grid: seq<seq<Cell>>, width: nat, ps: seq<(int, int)>): (r: seq<string>)
    requires Rectangular(grid, width)
    requires forall m :: 0 <= m < |ps| ==> 0 <= ps[m].0 < |grid| && 0 <= ps[m].1 < width && grid[ps[m].0][ps[m].1].Some?
    ensures |r| == |ps|
    ensures forall m :: 0 <= m < |ps| ==> r[m] == Show(grid[ps[m].0][ps[m].1].value)
  {
    if ps == [] then []
    else
      var p := ps[|ps| - 1];
      Render(grid, width, ps[..|ps| - 1]) + [Show(grid[p.0][p.1].value)]
  }

  /** The neighbour texts after visiting the first `k` block cells. */
  function TextsUpTo(grid: seq<seq<Cell>>, width: nat, row: nat, col: nat, k: nat): seq<string>
    requires Rectangular(grid, width) && k <= 9
  {
    Render(grid, width, Found(grid, width, row, col, k))
  }

  /** `neighbors` as the source builds it: at most eight numerals, one per
      reported cell. */
  function NeighborTexts(grid: seq<seq<Cell>>, width: nat, row: nat, col: nat): (r: seq<string>)
    requires Rectangular(grid, width)
    ensures |r| <= 8
    ensures forall m :: 0 <= m < |r| ==> IsDigits(r[m])
  {
    SlotsOfBlock(grid, width, row, col);
    FoundCount(grid, width, row, col, 9);
    TextsUpTo(grid, width, row, col, 9)
  }

  /** The nested scanning loop. */
  method CollectNeighbors(grid: seq<seq<Cell>>, maxCols: nat, row: nat, col: nat) returns (neighbors: seq<string>)
    requires Rectangular(grid, maxCols)
    ensures neighbors == NeighborTexts(grid, maxCols, row, col)
  {
    neighbors := [];
    ghost var k: nat := 0;
    for i: int := row - 1 to row + 2
      invariant k == 3 * (i - row + 1)
      invariant neighbors == TextsUpTo(grid, maxCols, row, col, k)
    {
      for j: int := col - 1 to col + 2
        invariant k == 3 * (i - row + 1) + (j - col + 1)
        invariant neighbors == TextsUpTo(grid, maxCols, row, col, k)
      {
        ScanStep(grid, maxCols, row, col, i, j, k);
        k := k + 1;
        if i == row && j == col {
          continue;
        }
        if 0 <= i < |grid| && 0 <= j < maxCols {
          var n := grid[i][j];
          if n.Some? {
            neighbors := neighbors + [Show(n.value)];
          }
        }
      }
    }
  }

  /** Visiting block cell (i, j), the `k`-th in raster order, adds `str` of
      its value exactly when it is in bounds, not the centre and not empty. */
  lemma ScanStep(grid: seq<seq<Cell>>, width: nat, row: nat, col: nat, i: int, j: int, k: nat)
    requires Rectangular(grid, width)
    requires row - 1 <= i <= row + 1 && col - 1 <= j <= col + 1
    requires k == 3 * (i - row + 1) + (j - col + 1)
    ensures var before, after := TextsUpTo(grid, width, row, col, k), TextsUpTo(grid, width, row, col, k + 1);
            if i == row && j == col then after == before
            else if !(0 <= i < |grid| && 0 <= j < width) then after == before
            else if grid[i][j].None? then after == before
            else after == before + [Show(grid[i][j].value)]
  {
    assert RasterCell(row, col, k) == (i, j);
    var ps := Found(grid, width, row, col, k);
    if IsNeighbor(grid, width, row, col, i, j) {
      assert (ps + [(i, j)])[..|ps|] == ps;
    }
  }

  /** The slots of the whole block: the in-bounds cells among the eight around
      the centre. */
  lemma SlotsOfBlock(grid: seq<seq<Cell>>, width: nat, row: nat, col: nat)
    ensures Slots(grid, width, row, col, 9) ==
              Slot(grid, width, row, col, 0) + Slot(grid, width, row, col, 1) + Slot(grid, width, row, col, 2) +
              Slot(grid, width, row, col, 3) + Slot(grid, width, row, col, 5) +
              Slot(grid, width, row, col, 6) + Slot(grid, width, row, col, 7) + Slot(grid, width, row, col, 8)
  {
    assert Slot(grid, width, row, col, 4) == 0;
    assert Slots(grid, width, row, col, 1) == Slot(grid, width, row, col, 0);
    assert Slots(grid, width, row, col, 2) == Slots(grid, width, row, col, 1) + Slot(grid, width, row, col, 1);
    assert Slots(grid, width, row, col, 3) == Slots(grid, width, row, col, 2) + Slot(grid, width, row, col, 2);
    assert Slots(grid, width, row, col, 4) == Slots(grid, width, row, col, 3) + Slot(grid, width, row, col, 3);
    assert Slots(grid, width, row, col, 5) == Slots(grid, width, row, col, 4) + Slot(grid, width, row, col, 4);
    assert Slots(grid, width, row, col, 6) == Slots(grid, width, row, col, 5) + Slot(grid, width, row, col, 5);
    assert Slots(grid, width, row, col, 7) == Slots(grid, width, row, col, 6) + Slot(grid, width, row, col, 6);
    assert Slots(grid, width, row, col, 8) == Slots(grid, width, row, col, 7) + Slot(grid, width, row, col, 7);
  }

  /** At most eight neighbours; at most five when the cell is on the top or
      bottom row or in the first or last column; at most three in a corner. */
  lemma NeighborCount(grid: seq<seq<Cell>>, width: nat, row: nat, col: nat)
    requires Rectangular(grid, width)
    ensures |NeighborTexts(grid, width, row, col)| <= 8
    ensures row == 0 || row == |grid| - 1 || col == 0 || col == width - 1 ==>
              |NeighborTexts(grid, width, row, col)| <= 5
    ensures (row == 0 || row == |grid| - 1) && (col == 0 || col == width - 1) ==>
              |NeighborTexts(grid, width, row, col)| <= 3
  {
    SlotsOfBlock(grid, width, row, col);
    FoundCount(grid, width, row, col, 9);
  }
}
