/**
 * The character grid of `src/grid.rs`: positions, cells, the row-major buffer
 * with its cached dimensions, bounds-checked lookup, row-major iteration,
 * neighbour enumeration and in-place updates.
 *
 * The read-only operations (`&self` in the source) are functions of the buffer
 * value, so the caller-supplied predicates that receive `&Grid` receive that
 * value; the operations that write (`&mut self`) are methods of `Grid`.
 */
module Grids {
  import opened Wrappers
  import Text

  /** `GridPosition(row, col)`, two unsigned indices. */
  datatype Position = Position(row: nat, col: nat)

  /** A snapshot of the character stored at a position. */
  datatype Cell = Cell(value: char, position: Position)

  datatype Dimensions = Dimensions(rows: nat, cols: nat)

  /** `Vec<Vec<char>>`, one inner sequence per row. */
  type Buffer = seq<seq<char>>

  /** `NEIGHBORS`: the eight (row, column) offsets, in source order. */
  const Offsets: seq<(int, int)> :=
    [(-1, -1), (-1, 0), (-1, 1), (0, -1), (0, 1), (1, -1), (1, 0), (1, 1)]

  /** The four orthogonal offsets, in the order they appear in `Offsets`. */
  const CardinalOffsets: seq<(int, int)> := [(-1, 0), (0, -1), (0, 1), (1, 0)]

  predicate InBounds(grid: Buffer, p: Position) {
    p.row < |grid| && p.col < |grid[p.row]|
  }

  /** The displacement from `p` to `q`. */
  function OffsetOf(p: Position, q: Position): (int, int) {
    (q.row - p.row, q.col - p.col)
  }

  /** An offset of at most one step in each direction that is not the zero offset. */
  predicate IsUnitStep(o: (int, int)) {
    -1 <= o.0 <= 1 && -1 <= o.1 <= 1 && o != (0, 0)
  }

  /** `q` lies at one of the eight offsets from `p` (see `OffsetsFacts`). */
  predicate Adjacent(p: Position, q: Position) {
    -1 <= q.row - p.row <= 1 && -1 <= q.col - p.col <= 1 && q != p
  }

  /** The cell the grid stores at an in-bounds position. */
  function StoredCell(grid: Buffer, p: Position): Cell
    requires InBounds(grid, p)
  {
    Cell(grid[p.row][p.col], p)
  }

  /** `get_cell`: a cell exactly when both indices are inside the buffer. */
  function GetCell(grid: Buffer, p: Position): (r: Option<Cell>)
    ensures r.Some? <==> InBounds(grid, p)
    ensures r.Some? ==> r.value.value == grid[p.row][p.col] && r.value.position == p
  {
    if p.row < |grid| then
      if p.col < |grid[p.row]| then Some(Cell(grid[p.row][p.col], p)) else None
    else None
  }

  /**
   * Lookup at `p` shifted by `o`. The source adds the offset with wrapping
   * unsigned arithmetic; a coordinate that would be negative wraps to a huge
   * index and is rejected, which is what `None` stands for here.
   */
  function CellAtOffset(grid: Buffer, p: Position, o: (int, int)): (r: Option<Cell>)
    ensures r.Some? <==> p.row + o.0 >= 0 && p.col + o.1 >= 0 && InBounds(grid, Position(p.row + o.0, p.col + o.1))
    ensures r.Some? ==> InBounds(grid, r.value.position) && r.value == StoredCell(grid, r.value.position) && OffsetOf(p, r.value.position) == o
  {
    if p.row + o.0 < 0 || p.col + o.1 < 0 then None
    else GetCell(grid, Position(p.row + o.0, p.col + o.1))
  }

  // ---------------------------------------------------------------- iteration

  /** The number of cells stored in the buffer. */
  function Size(grid: Buffer): nat {
    if grid == [] then 0 else Size(grid[..|grid| - 1]) + |grid[|grid| - 1]|
  }

  /** Row-major strict order on positions. */
  predicate Before(p: Position, q: Position) {
    p.row < q.row || (p.row == q.row && p.col < q.col)
  }

  function RowCells(grid: Buffer, r: nat): (cells: seq<Cell>)
    requires r < |grid|
    ensures |cells| == |grid[r]|
    ensures forall c :: 0 <= c < |cells| ==> cells[c] == StoredCell(grid, Position(r, c))
  {
    seq(|grid[r]|, c requires 0 <= c < |grid[r]| => Cell(grid[r][c], Position(r, c)))
  }

  /**
   * `iter_cells`: every stored cell with its value, in strictly increasing
   * row-major order, one per cell of the buffer.
   */
  function IterCells(grid: Buffer): (cells: seq<Cell>)
    ensures |cells| == Size(grid)
    ensures forall k :: 0 <= k < |cells| ==>
              InBounds(grid, cells[k].position) && cells[k] == StoredCell(grid, cells[k].position)
    ensures forall i, j :: 0 <= i < j < |cells| ==> Before(cells[i].position, cells[j].position)
  {
    if grid == [] then []
    else
      var n := |grid| - 1;
      var front := IterCells(grid[..n]);
      assert forall k :: 0 <= k < |front| ==> front[k].position.row < n;
      front + RowCells(grid, n)
  }

  /** The cell at `p` sits at index Size(rows before p) + p.col of `IterCells`. */
  lemma {:induction false} IterCellsAt(grid: Buffer, p: Position)
    requires InBounds(grid, p)
    ensures Size(grid[..p.row]) + p.col < |IterCells(grid)|
    ensures IterCells(grid)[Size(grid[..p.row]) + p.col] == StoredCell(grid, p)
  {
    var n := |grid| - 1;
    assert grid[..n][..p.row] == grid[..p.row] by {
      if p.row < n {
        assert grid[..n][..p.row] == grid[..p.row];
      }
    }
    if p.row < n {
      IterCellsAt(grid[..n], p);
      assert grid[..n][p.row] == grid[p.row];
    } else {
      assert grid[..p.row] == grid[..n];
    }
  }

  /** Each stored cell is enumerated exactly once. */
  lemma IterCellsOnce(grid: Buffer, i: nat, j: nat)
    requires i < |IterCells(grid)| && j < |IterCells(grid)|
    requires IterCells(grid)[i].position == IterCells(grid)[j].position
    ensures i == j
  {
    var cells := IterCells(grid);
    assert cells[i].position == cells[j].position;
  }

  /** The cells of `cells` that satisfy `keep`. */
  function Filter(cells: seq<Cell>, keep: Cell -> bool): (r: seq<Cell>)
    ensures |r| <= |cells|
    ensures forall k :: 0 <= k < |r| ==> r[k] in cells && keep(r[k])
    ensures forall c :: c in cells && keep(c) ==> c in r
  {
    if cells == [] then []
    else (if keep(cells[0]) then [cells[0]] else []) + Filter(cells[1..], keep)
  }

  /** `find_cells`: the cells satisfying `pred`, in row-major order. */
  function FindCells(grid: Buffer, pred: (Cell, Buffer) -> bool): (r: seq<Cell>)
    ensures forall k :: 0 <= k < |r| ==>
              InBounds(grid, r[k].position) && r[k] == StoredCell(grid, r[k].position) && pred(r[k], grid)
    ensures forall p :: InBounds(grid, p) && pred(StoredCell(grid, p), grid) ==> StoredCell(grid, p) in r
    ensures DistinctPositions(r)
    ensures RowMajor(r)
  {
    var cells := IterCells(grid);
    forall p | InBounds(grid, p)
      ensures StoredCell(grid, p) in cells
    {
      IterCellsAt(grid, p);
    }
    var keep := c => pred(c, grid);
    FilterKeepsDistinct(cells, keep);
    FilterKeepsOrder(cells, keep);
    Filter(cells, keep)
  }

  /** The index of the first element of `cells` satisfying `keep`. */
  function FirstWhere(cells: seq<Cell>, keep: Cell -> bool): (r: Option<nat>)
    ensures r.Some? ==> r.value < |cells| && keep(cells[r.value])
    ensures r.Some? ==> forall j :: 0 <= j < r.value ==> !keep(cells[j])
    ensures r.None? ==> forall j :: 0 <= j < |cells| ==> !keep(cells[j])
  {
    if cells == [] then None
    else if keep(cells[0]) then Some(0)
    else
      match FirstWhere(cells[1..], keep)
      case None => None
      case Some(i) => Some(i + 1)
  }

  /** `find_cell`: the first cell, in row-major order, satisfying `pred`. */
  function FindCell(grid: Buffer, pred: (Cell, Buffer) -> bool): (r: Option<Cell>)
    ensures r.None? ==> forall p :: InBounds(grid, p) ==> !pred(StoredCell(grid, p), grid)
    ensures r.Some? ==> InBounds(grid, r.value.position) && r.value == StoredCell(grid, r.value.position)
                        && pred(r.value, grid)
    ensures r.Some? ==> forall p :: InBounds(grid, p) && Before(p, r.value.position) ==> !pred(StoredCell(grid, p), grid)
  {
    var cells := IterCells(grid);
    var keep := c => pred(c, grid);
    match FirstWhere(cells, keep)
    case None =>
      assert forall p :: InBounds(grid, p) ==> !pred(StoredCell(grid, p), grid) by {
        forall p | InBounds(grid, p) ensures !pred(StoredCell(grid, p), grid) {
          IterCellsAt(grid, p);
          assert !keep(cells[Size(grid[..p.row]) + p.col]);
        }
      }
      None
    case Some(i) =>
      assert forall p :: InBounds(grid, p) && Before(p, cells[i].position) ==> !pred(StoredCell(grid, p), grid) by {
        forall p | InBounds(grid, p) && Before(p, cells[i].position)
          ensures !pred(StoredCell(grid, p), grid)
        {
          IterCellsAt(grid, p);
          var k := Size(grid[..p.row]) + p.col;
          assert cells[k].position == p;
          assert k < i;
          assert !keep(cells[k]);
        }
      }
      Some(cells[i])
  }

  // --------------------------------------------------------------- neighbours

  predicate DistinctPositions(cells: seq<Cell>) {
    forall i, j :: 0 <= i < j < |cells| ==> cells[i].position != cells[j].position
  }

  predicate DistinctOffsets(os: seq<(int, int)>) {
    forall i, j :: 0 <= i < j < |os| ==> os[i] != os[j]
  }

  /** The in-bounds cells at the offsets `os` from `p`, in the order of `os`. */
  function CellsAtOffsets(grid: Buffer, p: Position, os: seq<(int, int)>): (r: seq<Cell>)
    ensures |r| <= |os|
    ensures forall k :: 0 <= k < |r| ==>
              InBounds(grid, r[k].position) && r[k] == StoredCell(grid, r[k].position) && OffsetOf(p, r[k].position) in os
    ensures forall q :: InBounds(grid, q) && OffsetOf(p, q) in os ==> StoredCell(grid, q) in r
  {
    if os == [] then []
    else
      var here := match CellAtOffset(grid, p, os[0]) case Some(c) => [c] case None => [];
      here + CellsAtOffsets(grid, p, os[1..])
  }

  /** Distinct offsets give cells at distinct positions. */
  lemma {:induction false} CellsAtOffsetsDistinct(grid: Buffer, p: Position, os: seq<(int, int)>)
    requires DistinctOffsets(os)
    ensures DistinctPositions(CellsAtOffsets(grid, p, os))
  {
    if os != [] {
      var rest := CellsAtOffsets(grid, p, os[1..]);
      assert DistinctOffsets(os[1..]);
      CellsAtOffsetsDistinct(grid, p, os[1..]);
      assert os[0] !in os[1..];
      assert forall k :: 0 <= k < |rest| ==> OffsetOf(p, rest[k].position) != os[0];
    }
  }

  /**
   * `iter_neighbors`: the in-bounds cells at the eight offsets from `p`, each
   * once, never `p` itself, and every in-bounds neighbour among them.
   */
  function IterNeighbors(grid: Buffer, p: Position): (r: seq<Cell>)
    ensures |r| <= 8
    ensures forall k :: 0 <= k < |r| ==>
              InBounds(grid, r[k].position) && r[k] == StoredCell(grid, r[k].position)
              && Adjacent(p, r[k].position) && r[k].position != p
    ensures forall q :: InBounds(grid, q) && Adjacent(p, q) ==> StoredCell(grid, q) in r
    ensures DistinctPositions(r)
  {
    OffsetsFacts();
    CellsAtOffsetsDistinct(grid, p, Offsets);
    CellsAtOffsets(grid, p, Offsets)
  }

  /** `Offsets` lists each of the eight unit steps exactly once. */
  lemma OffsetsFacts()
    ensures |Offsets| == 8 && DistinctOffsets(Offsets)
    ensures forall o :: o in Offsets <==> IsUnitStep(o)
  {
    var os := Offsets;
    forall o | IsUnitStep(o) ensures o in os {
      if o.0 == -1 {
        if o.1 == -1 { assert os[0] == o; } else if o.1 == 0 { assert os[1] == o; } else { assert os[2] == o; }
      } else if o.0 == 0 {
        if o.1 == -1 { assert os[3] == o; } else { assert os[4] == o; }
      } else {
        if o.1 == -1 { assert os[5] == o; } else if o.1 == 0 { assert os[6] == o; } else { assert os[7] == o; }
      }
    }
  }

  /** Every row has `cols` characters. */
  predicate IsRectangular(grid: Buffer, cols: nat) {
    forall r :: 0 <= r < |grid| ==> |grid[r]| == cols
  }

  /** The positions of `cells`. */
  function PositionSet(cells: seq<Cell>): set<Position> {
    set c | c in cells :: c.position
  }

  lemma {:induction false} DistinctPositionsCount(cells: seq<Cell>)
    requires DistinctPositions(cells)
    ensures |PositionSet(cells)| == |cells|
  {
    if cells != [] {
      var init := cells[..|cells| - 1];
      var last := cells[|cells| - 1];
      assert DistinctPositions(init);
      DistinctPositionsCount(init);
      assert PositionSet(cells) == PositionSet(init) + {last.position} by {
        assert cells == init + [last];
      }
      assert last.position !in PositionSet(init);
    }
  }

  /** The positions of `cells` strictly increase in row-major order. */
  predicate RowMajor(cells: seq<Cell>) {
    forall i, j :: 0 <= i < j < |cells| ==> Before(cells[i].position, cells[j].position)
  }

  /** Filtering a list in row-major order keeps it in row-major order. */
  lemma {:induction false} FilterKeepsOrder(cells: seq<Cell>, keep: Cell -> bool)
    requires RowMajor(cells)
    ensures RowMajor(Filter(cells, keep))
  {
    if cells != [] {
      assert RowMajor(cells[1..]);
      FilterKeepsOrder(cells[1..], keep);
      assert forall c :: c in cells[1..] ==> Before(cells[0].position, c.position);
    }
  }

  lemma {:induction false} FilterKeepsDistinct(cells: seq<Cell>, keep: Cell -> bool)
    requires DistinctPositions(cells)
    ensures DistinctPositions(Filter(cells, keep))
  {
    if cells != [] {
      assert DistinctPositions(cells[1..]);
      FilterKeepsDistinct(cells[1..], keep);
      assert forall c :: c in cells[1..] ==> c.position != cells[0].position;
    }
  }

  /** The in-bounds neighbours of `p` whose character satisfies `pred`. */
  function NeighborsWhere(grid: Buffer, p: Position, pred: char -> bool): set<Position> {
    set r: nat, c: nat | r < |grid| && c < |grid[r]| && Adjacent(p, Position(r, c)) && pred(grid[r][c]) :: Position(r, c)
  }

  /**
   * `count_neighbors_with`: the number of in-bounds neighbours of `p` whose
   * character satisfies `pred`, hence at most 8.
   */
  function CountNeighborsWith(grid: Buffer, p: Position, pred: char -> bool): (n: nat)
    ensures n <= 8
    ensures n == |NeighborsWhere(grid, p, pred)|
  {
    var neighbors := IterNeighbors(grid, p);
    var matching := Filter(neighbors, (c: Cell) => pred(c.value));
    FilterKeepsDistinct(neighbors, (c: Cell) => pred(c.value));
    DistinctPositionsCount(matching);
    assert PositionSet(matching) == NeighborsWhere(grid, p, pred) by {
      forall q | q in NeighborsWhere(grid, p, pred) ensures q in PositionSet(matching) {
        assert StoredCell(grid, q) in neighbors;
      }
    }
    |matching|
  }

  // ------------------------------------------------------------------ corners

  /** The other index next to a border index of a line at least two long. */
  function Inner(i: nat): nat {
    if i == 0 then 1 else i - 1
  }

  /** `p` is a corner of a rectangular grid of at least two rows and two columns. */
  predicate IsCorner(grid: Buffer, cols: nat, p: Position) {
    IsRectangular(grid, cols) && |grid| >= 2 && cols >= 2
    && (p.row == 0 || p.row == |grid| - 1) && (p.col == 0 || p.col == cols - 1)
  }

  /** Every in-bounds neighbour of a corner is one of three positions. */
  lemma CornerNeighborsSound(grid: Buffer, cols: nat, p: Position, q: Position)
    requires IsCorner(grid, cols, p)
    requires InBounds(grid, q) && Adjacent(p, q)
    ensures q == Position(p.row, Inner(p.col)) || q == Position(Inner(p.row), p.col)
            || q == Position(Inner(p.row), Inner(p.col))
  {
    assert |grid[q.row]| == cols;
  }

  /** A list of distinct in-bounds neighbours of a corner has at most three entries. */
  lemma CornerAtMostThree(grid: Buffer, cols: nat, p: Position, neighbors: seq<Cell>)
    requires IsCorner(grid, cols, p)
    requires forall k :: 0 <= k < |neighbors| ==> InBounds(grid, neighbors[k].position) && Adjacent(p, neighbors[k].position)
    requires DistinctPositions(neighbors)
    ensures |neighbors| <= 3
  {
    if |neighbors| >= 4 {
      var q0, q1, q2, q3 := neighbors[0].position, neighbors[1].position, neighbors[2].position, neighbors[3].position;
      CornerNeighborsSound(grid, cols, p, q0);
      CornerNeighborsSound(grid, cols, p, q1);
      CornerNeighborsSound(grid, cols, p, q2);
      CornerNeighborsSound(grid, cols, p, q3);
    }
  }

  /** A list holding every in-bounds neighbour of a corner has at least three entries. */
  lemma CornerAtLeastThree(grid: Buffer, cols: nat, p: Position, neighbors: seq<Cell>)
    requires IsCorner(grid, cols, p)
    requires forall q :: InBounds(grid, q) && Adjacent(p, q) ==> StoredCell(grid, q) in neighbors
    ensures |neighbors| >= 3
  {
    var a, b, c := Position(p.row, Inner(p.col)), Position(Inner(p.row), p.col), Position(Inner(p.row), Inner(p.col));
    assert InBounds(grid, a) && Adjacent(p, a);
    assert InBounds(grid, b) && Adjacent(p, b);
    assert InBounds(grid, c) && Adjacent(p, c);
    var ka :| 0 <= ka < |neighbors| && neighbors[ka] == StoredCell(grid, a);
    var kb :| 0 <= kb < |neighbors| && neighbors[kb] == StoredCell(grid, b);
    var kc :| 0 <= kc < |neighbors| && neighbors[kc] == StoredCell(grid, c);
    assert ka != kb && ka != kc && kb != kc;
  }

  /** A corner of a rectangular grid of at least 2 x 2 has exactly three neighbours. */
  lemma CornerHasThreeNeighbors(grid: Buffer, cols: nat, p: Position)
    requires IsCorner(grid, cols, p)
    ensures |IterNeighbors(grid, p)| == 3
  {
    CornerAtMostThree(grid, cols, p, IterNeighbors(grid, p));
    CornerAtLeastThree(grid, cols, p, IterNeighbors(grid, p));
  }

  // ------------------------------------------------------- cardinal neighbours

  /** `q` is directly above, below, left of or right of `p`. */
  predicate CardinalAdjacent(p: Position, q: Position) {
    (q.row == p.row && (q.col == p.col + 1 || q.col + 1 == p.col))
    || (q.col == p.col && (q.row == p.row + 1 || q.row + 1 == p.row))
  }

  /** `CardinalOffsets` lists the four orthogonal steps, each once. */
  lemma CardinalOffsetsFacts(p: Position)
    ensures DistinctOffsets(CardinalOffsets)
    ensures forall q: Position :: OffsetOf(p, q) in CardinalOffsets <==> CardinalAdjacent(p, q)
  {
    var os := CardinalOffsets;
    forall q: Position | CardinalAdjacent(p, q) ensures OffsetOf(p, q) in os {
      if q.row + 1 == p.row { assert os[0] == OffsetOf(p, q); }
      else if q.col + 1 == p.col { assert os[1] == OffsetOf(p, q); }
      else if q.col == p.col + 1 { assert os[2] == OffsetOf(p, q); }
      else { assert os[3] == OffsetOf(p, q); }
    }
  }

  /**
   * `iter_cardinal_neighbors_with`: the in-bounds cells above, left, right and
   * below `p`, in that order, that `admit` accepts as a step from the cell at `p`.
   */
  function CardinalNeighborsWith(grid: Buffer, p: Position, admit: (Cell, Cell, Buffer) -> bool): (r: seq<Cell>)
    requires InBounds(grid, p)
    ensures |r| <= 4 && DistinctPositions(r)
    ensures forall k :: 0 <= k < |r| ==>
              InBounds(grid, r[k].position) && r[k] == StoredCell(grid, r[k].position)
              && CardinalAdjacent(p, r[k].position) && admit(StoredCell(grid, p), r[k], grid)
    ensures forall q :: InBounds(grid, q) && CardinalAdjacent(p, q) && admit(StoredCell(grid, p), StoredCell(grid, q), grid)
              ==> StoredCell(grid, q) in r
  {
    CardinalOffsetsFacts(p);
    var candidates := CellsAtOffsets(grid, p, CardinalOffsets);
    CellsAtOffsetsDistinct(grid, p, CardinalOffsets);
    FilterKeepsDistinct(candidates, (c: Cell) => admit(StoredCell(grid, p), c, grid));
    Filter(candidates, (c: Cell) => admit(StoredCell(grid, p), c, grid))
  }

  // ------------------------------------------------------------------ writing

  /** Both buffers have the same number of rows and each row the same length. */
  predicate SameShape(a: Buffer, b: Buffer) {
    |a| == |b| && forall i :: 0 <= i < |a| ==> |a[i]| == |b[i]|
  }

  /** The buffer with the character at `p` replaced by `v`: that cell changes and no other. */
  function Write(grid: Buffer, p: Position, v: char): (r: Buffer)
    requires InBounds(grid, p)
    ensures SameShape(r, grid)
    ensures r[p.row][p.col] == v
    ensures forall q :: InBounds(grid, q) && q != p ==> r[q.row][q.col] == grid[q.row][q.col]
  {
    grid[p.row := grid[p.row][p.col := v]]
  }

  /** Some cell of `cells` is at `q`. */
  predicate Listed(cells: seq<Cell>, q: Position) {
    exists k :: 0 <= k < |cells| && cells[k].position == q
  }

  /**
   * The buffer after writing `v` at the position of each cell of `cells` in
   * turn: the listed positions hold `v`, every other cell is unchanged.
   */
  function WriteAll(grid: Buffer, cells: seq<Cell>, v: char): (r: Buffer)
    requires forall k :: 0 <= k < |cells| ==> InBounds(grid, cells[k].position)
    ensures SameShape(r, grid)
    ensures forall q :: InBounds(grid, q) ==> r[q.row][q.col] == if Listed(cells, q) then v else grid[q.row][q.col]
  {
    if cells == [] then grid
    else
      var init := cells[..|cells| - 1];
      var last := cells[|cells| - 1];
      var before := WriteAll(grid, init, v);
      assert forall q :: Listed(cells, q) <==> Listed(init, q) || last.position == q by {
        forall q | Listed(cells, q) ensures Listed(init, q) || last.position == q {
          var k :| 0 <= k < |cells| && cells[k].position == q;
          if k < |cells| - 1 { assert init[k] == cells[k]; }
        }
        forall q | Listed(init, q) ensures Listed(cells, q) {
          var k :| 0 <= k < |init| && init[k].position == q;
          assert cells[k] == init[k];
        }
      }
      Write(before, last.position, v)
  }

  /**
   * Writing to the cells that `pred` picks out of `grid` changes exactly the
   * cells for which `pred` held before any write.
   */
  lemma WriteWhere(grid: Buffer, pred: (Cell, Buffer) -> bool, v: char)
    ensures var r := WriteAll(grid, FindCells(grid, pred), v);
      SameShape(r, grid)
      && forall q :: InBounds(grid, q) ==>
           r[q.row][q.col] == if pred(StoredCell(grid, q), grid) then v else grid[q.row][q.col]
  {
    var targets := FindCells(grid, pred);
    forall q | InBounds(grid, q) ensures Listed(targets, q) <==> pred(StoredCell(grid, q), grid) {
      if pred(StoredCell(grid, q), grid) {
        var k :| 0 <= k < |targets| && targets[k] == StoredCell(grid, q);
        assert targets[k].position == q;
      }
      if Listed(targets, q) {
        var k :| 0 <= k < |targets| && targets[k].position == q;
        assert targets[k] == StoredCell(grid, q);
      }
    }
  }

  // --------------------------------------------------------------------- Grid

  /** `Grid`: the buffer and the dimensions recorded when it was built. */
  class Grid {
    var grid: Buffer
    var dimensions: Dimensions

    /** The recorded dimensions are the row count and the first row's length. */
    predicate Valid()
      reads this
    {
      dimensions.rows == |grid| && (|grid| > 0 ==> dimensions.cols == |grid[0]|)
    }

    /**
     * `parse`: row `r` holds the characters of line `r` in order. The source
     * reads the column count from the first row, so an empty input panics.
     */
    constructor Parse(input: string)
      requires input != []
      ensures grid == Text.Lines(input)
      ensures |grid| > 0 && dimensions == Dimensions(|grid|, |grid[0]|)
      ensures Valid()
    {
      var lines := Text.Lines(input);
      var rows: Buffer := [];
      for r := 0 to |lines|
        invariant rows == lines[..r]
      {
        rows := rows + [[]];
        for c := 0 to |lines[r]|
          invariant rows == lines[..r] + [lines[r][..c]]
        {
          assert lines[r][..c + 1] == lines[r][..c] + [lines[r][c]];
          rows := rows[r := rows[r] + [lines[r][c]]];
        }
        assert lines[r][..|lines[r]|] == lines[r];
      }
      assert lines[..|lines|] == lines;
      grid := rows;
      dimensions := Dimensions(|rows|, |rows[0]|);
    }

    /** A `rows` x `cols` grid with every cell holding `fill`. */
    constructor Filled(rows: nat, cols: nat, fill: char)
      ensures dimensions == Dimensions(rows, cols)
      ensures IsRectangular(grid, cols) && |grid| == rows
      ensures forall q :: InBounds(grid, q) ==> grid[q.row][q.col] == fill
      ensures Valid()
    {
      grid := seq(rows, _ => seq(cols, _ => fill));
      dimensions := Dimensions(rows, cols);
    }

    function Rows(): nat
      reads this
    {
      dimensions.rows
    }

    function Cols(): nat
      reads this
    {
      dimensions.cols
    }

    /** `update_cell`: only the cell at `p` changes; indexing out of bounds panics. */
    method UpdateCell(p: Position, v: char)
      requires Valid() && InBounds(grid, p)
      modifies this
      ensures grid == Write(old(grid), p, v)
      ensures dimensions == old(dimensions)
      ensures Valid()
    {
      grid := grid[p.row := grid[p.row][p.col := v]];
    }

    /** `update_cells`: writes `v` at every listed position and returns how many cells it was given. */
    method UpdateCells(v: char, cells: seq<Cell>) returns (updated: int)
      requires Valid()
      requires forall k :: 0 <= k < |cells| ==> InBounds(grid, cells[k].position)
      modifies this
      ensures updated == |cells|
      ensures grid == WriteAll(old(grid), cells, v)
      ensures dimensions == old(dimensions)
      ensures Valid()
    {
      updated := 0;
      for i := 0 to |cells|
        invariant updated == i
        invariant grid == WriteAll(old(grid), cells[..i], v)
        invariant dimensions == old(dimensions)
        invariant Valid()
      {
        assert cells[..i + 1][..i] == cells[..i];
        UpdateCell(cells[i].position, v);
        updated := updated + 1;
      }
      assert cells[..|cells|] == cells;
    }

    /**
     * `update_cells_where`: the targets are chosen on the grid as it was
     * before any write, then written in row-major order.
     */
    method UpdateCellsWhere(v: char, pred: (Cell, Buffer) -> bool) returns (updated: int)
      requires Valid()
      modifies this
      ensures updated == |FindCells(old(grid), pred)|
      ensures grid == WriteAll(old(grid), FindCells(old(grid), pred), v)
      ensures dimensions == old(dimensions)
      ensures Valid()
    {
      var targets := FindCells(grid, pred);
      updated := UpdateCells(v, targets);
    }
  }
}
