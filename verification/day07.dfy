/**
 * Day 7: a beam enters at `S` and travels down the grid; a splitter `^` sends
 * it on to its left and right. Part 1 counts the splitters a beam reaches,
 * part 2 the number of distinct beam paths that end on the last row, counted
 * by a dynamic programme over the cells in row-major order.
 */
module Day07 {
  import opened Wrappers
  import opened Grids

  datatype Solution = Solution(part1: nat, part2: nat)

  // ------------------------------------------------------------- will_split

  /** A beam reaches column `c` of row `r` from above: `S` itself, or a splitter beside it. */
  predicate Feeds(grid: Buffer, r: nat, c: nat)
    requires r < |grid|
  {
    (c < |grid[r]| && grid[r][c] == 'S')
    || (1 <= c && c - 1 < |grid[r]| && grid[r][c - 1] == '^')
    || (c + 1 < |grid[r]| && grid[r][c + 1] == '^')
  }

  /**
   * The upward walk of `will_split` from row `r` in column `c`: it stops with
   * `true` at the first cell fed by the start or a splitter, with `false` at a
   * splitter that is not fed, and with `false` once it leaves the grid.
   */
  function ScanUp(grid: Buffer, r: int, c: nat): bool
    decreases if r < 0 then 0 else r + 1
  {
    if r < 0 || !InBounds(grid, Position(r, c)) then false
    else if Feeds(grid, r, c) then true
    else if grid[r][c] == '^' then false
    else ScanUp(grid, r - 1, c)
  }

  /** `will_split` as a predicate on cells: a splitter with a beam arriving from above. */
  predicate WillSplit(cell: Cell, grid: Buffer) {
    cell.value == '^' && ScanUp(grid, cell.position.row - 1, cell.position.col)
  }

  /**
   * Every cell of column `c` strictly between rows `lo` and `hi` (inclusive of
   * `hi`) lies in the grid, is not a splitter and is not fed.
   */
  ghost predicate ClearBetween(grid: Buffer, lo: int, hi: int, c: nat) {
    forall r: nat :: lo < r <= hi ==>
      InBounds(grid, Position(r, c)) && grid[r][c] != '^' && !Feeds(grid, r, c)
  }

  /**
   * The walk from row `r` succeeds exactly when some row `top` at or above `r`
   * is fed and every row between `top` and `r` is a clear cell of the grid.
   */
  lemma ScanUpMeans(grid: Buffer, r: int, c: nat)
    ensures ScanUp(grid, r, c) <==>
              exists top: nat :: top <= r && top < |grid| && InBounds(grid, Position(top, c))
                                 && Feeds(grid, top, c) && ClearBetween(grid, top, r, c)
  {
    if ScanUp(grid, r, c) {
      var top := ScanUpWitness(grid, r, c);
    }
    if exists top: nat :: top <= r && top < |grid| && InBounds(grid, Position(top, c))
                          && Feeds(grid, top, c) && ClearBetween(grid, top, r, c) {
      var top: nat :| top <= r && top < |grid| && InBounds(grid, Position(top, c))
                      && Feeds(grid, top, c) && ClearBetween(grid, top, r, c);
      ScanUpFromWitness(grid, r, c, top);
    }
  }

  lemma {:induction false} ScanUpWitness(grid: Buffer, r: int, c: nat) returns (top: nat)
    requires ScanUp(grid, r, c)
    ensures top <= r && top < |grid| && InBounds(grid, Position(top, c))
    ensures Feeds(grid, top, c) && ClearBetween(grid, top, r, c)
    decreases if r < 0 then 0 else r + 1
  {
    if Feeds(grid, r, c) {
      top := r;
    } else {
      top := ScanUpWitness(grid, r - 1, c);
      assert InBounds(grid, Position(r, c));
    }
  }

  lemma {:induction false} ScanUpFromWitness(grid: Buffer, r: int, c: nat, top: nat)
    requires top <= r && top < |grid| && InBounds(grid, Position(top, c))
    requires Feeds(grid, top, c) && ClearBetween(grid, top, r, c)
    ensures ScanUp(grid, r, c)
    decreases r - top
  {
    if top < r {
      assert InBounds(grid, Position(r, c)) && grid[r][c] != '^' && !Feeds(grid, r, c);
      ScanUpFromWitness(grid, r - 1, c, top);
    }
  }

  /** A cell that is not a splitter never splits. */
  lemma OnlySplittersSplit(cell: Cell, grid: Buffer)
    requires cell.value != '^'
    ensures !WillSplit(cell, grid)
  {
  }

  /** A splitter on the first row has nothing above it and never splits. */
  lemma TopRowNeverSplits(cell: Cell, grid: Buffer)
    requires cell.position.row == 0
    ensures !WillSplit(cell, grid)
  {
  }

  /** The lookup one row up from `p` fails exactly where the walk from that row fails at once. */
  lemma ScanUpAbove(grid: Buffer, p: Position)
    ensures CellAtOffset(grid, p, (-1, 0)).None? ==> !ScanUp(grid, p.row - 1, p.col)
    ensures CellAtOffset(grid, p, (-1, 0)).Some? ==> CellAtOffset(grid, p, (-1, 0)).value.position == Position(p.row - 1, p.col)
  {
  }

  /** What one pass of the walk sees at an in-bounds `p`, and what it decides. */
  lemma WalkStep(grid: Buffer, p: Position)
    requires InBounds(grid, p)
    ensures Feeds(grid, p.row, p.col) <==>
              grid[p.row][p.col] == 'S'
              || (CellAtOffset(grid, p, (0, -1)).Some? && CellAtOffset(grid, p, (0, -1)).value.value == '^')
              || (CellAtOffset(grid, p, (0, 1)).Some? && CellAtOffset(grid, p, (0, 1)).value.value == '^')
    ensures Feeds(grid, p.row, p.col) ==> ScanUp(grid, p.row, p.col)
    ensures !Feeds(grid, p.row, p.col) && grid[p.row][p.col] == '^' ==> !ScanUp(grid, p.row, p.col)
    ensures !Feeds(grid, p.row, p.col) && grid[p.row][p.col] != '^' ==>
              ScanUp(grid, p.row, p.col) == ScanUp(grid, p.row - 1, p.col)
  {
  }

  /**
   * The loop of `will_split`: the walk goes up one row at a time from the row
   * above the cell and stops on the first decisive cell.
   */
  method WillSplitWalk(cell: Cell, grid: Buffer) returns (splits: bool)
    ensures splits == WillSplit(cell, grid)
  {
    if cell.value != '^' {
      return false;
    }
    var col := cell.position.col;
    var next := CellAtOffset(grid, cell.position, (-1, 0));
    ScanUpAbove(grid, cell.position);
    while next.Some?
      invariant next.Some? ==> InBounds(grid, next.value.position) && next.value == StoredCell(grid, next.value.position)
      invariant next.Some? ==> next.value.position.col == col
      invariant next.Some? ==> ScanUp(grid, cell.position.row - 1, col) == ScanUp(grid, next.value.position.row, col)
      invariant next.None? ==> !ScanUp(grid, cell.position.row - 1, col)
      decreases if next.Some? then next.value.position.row + 1 else 0
    {
      var here := next.value;
      var left := CellAtOffset(grid, here.position, (0, -1));
      var right := CellAtOffset(grid, here.position, (0, 1));
      WalkStep(grid, here.position);
      ScanUpAbove(grid, here.position);
      if here.value == 'S' {
        return true;
      } else if left.Some? && left.value.value == '^' {
        return true;
      } else if right.Some? && right.value.value == '^' {
        return true;
      } else if here.value == '^' {
        return false;
      }
      next := CellAtOffset(grid, here.position, (-1, 0));
    }
    return false;
  }

  // ---------------------------------------------------- next_splitter, prev_neighbor

  /** `next_splitter`: the cell directly below, when it is a splitter. */
  function NextSplitter(cell: Cell, grid: Buffer): (r: Option<Cell>)
    ensures r.Some? <==> InBounds(grid, Position(cell.position.row + 1, cell.position.col))
                         && grid[cell.position.row + 1][cell.position.col] == '^'
    ensures r.Some? ==> r.value.position == Position(cell.position.row + 1, cell.position.col)
                        && r.value.value == '^'
  {
    match GetCell(grid, Position(cell.position.row + 1, cell.position.col))
    case Some(below) => if below.value == '^' then Some(below) else None
    case None => None
  }

  /**
   * `prev_neighbor`: may a beam reach `cell` from `neighbor`? The differences
   * are unsigned wrapping subtractions in the source; a wrapped difference
   * equals one exactly when the plain difference does, which is what is
   * written here.
   */
  predicate PrevNeighbor(cell: Cell, neighbor: Cell, grid: Buffer) {
    var inPrevRow := cell.position.row == neighbor.position.row + 1;
    var inNextCol := neighbor.position.col == cell.position.col + 1;
    var inPrevCol := cell.position.col == neighbor.position.col + 1;
    if neighbor.value == '^' && inPrevRow then false
    else if neighbor.value == '^' && cell.value == '.' && (inPrevCol || inNextCol) then true
    else if (neighbor.value == '.' || neighbor.value == 'S') && inPrevRow then true
    else false
  }

  /**
   * Among the four orthogonal neighbours, a beam reaches a cell from the cell
   * above it when that one is `.` or `S`, and from a splitter beside it when
   * the cell itself is `.`; from nowhere else. In particular never upward out of
   * a splitter and never from below.
   */
  lemma PrevNeighborMeans(cell: Cell, neighbor: Cell, grid: Buffer)
    requires CardinalAdjacent(cell.position, neighbor.position)
    ensures PrevNeighbor(cell, neighbor, grid) <==>
              (neighbor.position.row + 1 == cell.position.row && (neighbor.value == '.' || neighbor.value == 'S'))
              || (neighbor.position.row == cell.position.row && neighbor.value == '^' && cell.value == '.')
  {
  }

  // ------------------------------------------------------------ path counts

  /** `path_counts.get(p).unwrap_or(&0)`. */
  function Lookup(counts: map<Position, nat>, p: Position): nat {
    if p in counts then counts[p] else 0
  }

  /** The sum of the looked-up counts of `cells`, a missing entry counting 0. */
  function SumCounts(counts: map<Position, nat>, cells: seq<Cell>): (total: nat)
    ensures cells == [] ==> total == 0
    ensures forall k :: 0 <= k < |cells| ==> Lookup(counts, cells[k].position) <= total
  {
    if cells == [] then 0 else Lookup(counts, cells[0].position) + SumCounts(counts, cells[1..])
  }

  /** Two maps that agree on the positions of `cells` give the same sum. */
  lemma {:induction false} SumCountsAgree(a: map<Position, nat>, b: map<Position, nat>, cells: seq<Cell>)
    requires forall k :: 0 <= k < |cells| ==> Lookup(a, cells[k].position) == Lookup(b, cells[k].position)
    ensures SumCounts(a, cells) == SumCounts(b, cells)
  {
    if cells != [] {
      SumCountsAgree(a, b, cells[1..]);
    }
  }

  /** The neighbours a beam can reach `p` from. */
  function Sources(grid: Buffer, p: Position): seq<Cell>
    requires InBounds(grid, p)
  {
    CardinalNeighborsWith(grid, p, PrevNeighbor)
  }

  /**
   * One pass of the loop body: a cell below the first row gets the sum of the
   * counts of the neighbours it can be reached from, and a splitter directly
   * below it is given the same count ahead of its own turn. (The cells visited
   * all lie in the grid; a cell outside it would leave the counts alone.)
   */
  function Visit(grid: Buffer, counts: map<Position, nat>, cell: Cell): map<Position, nat> {
    if cell.position.row == 0 || !InBounds(grid, cell.position) then counts
    else
      var count := SumCounts(counts, Sources(grid, cell.position));
      var updated := counts[cell.position := count];
      var splitter := NextSplitter(cell, grid);
      if splitter.Some? then updated[splitter.value.position := count] else updated
  }

  /** The counts once the first `n` of `cells` have been visited, starting from the start alone. */
  function PathCounts(grid: Buffer, cells: seq<Cell>, start: Position, n: nat): map<Position, nat>
    requires n <= |cells|
  {
    if n == 0 then map[start := 1]
    else Visit(grid, PathCounts(grid, cells, start, n - 1), cells[n - 1])
  }

  lemma PathCountsStep(grid: Buffer, cells: seq<Cell>, start: Position, i: nat)
    requires i < |cells|
    ensures PathCounts(grid, cells, start, i + 1) == Visit(grid, PathCounts(grid, cells, start, i), cells[i])
  {
  }

  /** Strictly increasing row-major order, as `IterCells` enumerates. */
  predicate RowMajor(cells: seq<Cell>) {
    forall i, j :: 0 <= i < j < |cells| ==> Before(cells[i].position, cells[j].position)
  }

  lemma BeforeIn(cells: seq<Cell>, i: nat, j: nat)
    requires RowMajor(cells) && i < j < |cells|
    ensures Before(cells[i].position, cells[j].position)
  {
  }

  /** Visiting a cell writes at most its own count and the one below it. */
  lemma VisitWrites(grid: Buffer, counts: map<Position, nat>, cell: Cell, p: Position)
    requires cell.position.row == 0 || Before(p, cell.position) || p.row == 0
    ensures Lookup(Visit(grid, counts, cell), p) == Lookup(counts, p)
  {
  }

  /** The same, for the pass over the `i`-th cell. */
  lemma StepWrites(grid: Buffer, cells: seq<Cell>, start: Position, i: nat, p: Position)
    requires i < |cells|
    requires cells[i].position.row == 0 || Before(p, cells[i].position) || p.row == 0
    ensures Lookup(PathCounts(grid, cells, start, i + 1), p) == Lookup(PathCounts(grid, cells, start, i), p)
  {
    VisitWrites(grid, PathCounts(grid, cells, start, i), cells[i], p);
  }

  /** The first row keeps its initial counts: only the start holds one there. */
  lemma {:induction false} FirstRowKept(grid: Buffer, cells: seq<Cell>, start: Position, n: nat, p: Position)
    requires n <= |cells| && p.row == 0
    ensures Lookup(PathCounts(grid, cells, start, n), p) == if p == start then 1 else 0
  {
    if n > 0 {
      FirstRowKept(grid, cells, start, n - 1, p);
      StepWrites(grid, cells, start, n - 1, p);
    }
  }

  /**
   * When the `i`-th cell of the grid (below the first row) is visited, it gets
   * the sum of the counts of its sources as they stand, and a splitter below it
   * the same.
   */
  lemma VisitCounts(grid: Buffer, start: Position, i: nat)
    requires i < |IterCells(grid)| && IterCells(grid)[i].position.row > 0
    ensures var cells := IterCells(grid);
            var cell := cells[i];
            var count := SumCounts(PathCounts(grid, cells, start, i), Sources(grid, cell.position));
            Lookup(PathCounts(grid, cells, start, i + 1), cell.position) == count
            && (NextSplitter(cell, grid).Some? ==>
                  Lookup(PathCounts(grid, cells, start, i + 1), NextSplitter(cell, grid).value.position) == count)
  {
  }

  /**
   * A count is final once its cell has been visited: every later pass writes
   * only its own cell and the one below it, both after the visited cell in
   * row-major order.
   */
  lemma {:induction false} CountsFinal(grid: Buffer, cells: seq<Cell>, start: Position, i: nat, n: nat)
    requires RowMajor(cells)
    requires i < n <= |cells|
    ensures Lookup(PathCounts(grid, cells, start, n), cells[i].position)
         == Lookup(PathCounts(grid, cells, start, i + 1), cells[i].position)
    decreases n
  {
    if n > i + 1 {
      var q := cells[i].position;
      var m := n - 1;
      var a := Lookup(PathCounts(grid, cells, start, m + 1), q);
      var b := Lookup(PathCounts(grid, cells, start, m), q);
      BeforeIn(cells, i, m);
      StepWrites(grid, cells, start, m, q);
      CountsFinal(grid, cells, start, i, m);
    }
  }

  /** The loop of `main` that fills `path_counts`, over the cells in row-major order. */
  method CountPaths(grid: Buffer, start: Position) returns (counts: map<Position, nat>)
    ensures counts == PathCounts(grid, IterCells(grid), start, |IterCells(grid)|)
  {
    var cells := IterCells(grid);
    counts := map[start := 1];
    for i := 0 to |cells|
      invariant counts == PathCounts(grid, cells, start, i)
    {
      PathCountsStep(grid, cells, start, i);
      var cell := cells[i];
      if cell.position.row == 0 {
        continue;
      }
      var neighbors := CardinalNeighborsWith(grid, cell.position, PrevNeighbor);
      var count := SumCounts(counts, neighbors);
      counts := counts[cell.position := count];
      var splitter := NextSplitter(cell, grid);
      if splitter.Some? {
        counts := counts[splitter.value.position := count];
      }
    }
  }

  // ------------------------------------------------------------------ solve

  predicate IsStart(cell: Cell, grid: Buffer) {
    cell.value == 'S'
  }

  /** The goal filter of part 2: a cell of the last row. */
  predicate OnLastRow(cell: Cell, grid: Buffer) {
    cell.position.row == |grid| - 1
  }

  /** The positions holding a splitter. */
  function Splitters(grid: Buffer): set<Position> {
    set r: nat, c: nat | r < |grid| && c < |grid[r]| && grid[r][c] == '^' :: Position(r, c)
  }

  /** The splitters a beam reaches, as positions. */
  function Splits(grid: Buffer): set<Position> {
    set p | p in Splitters(grid) && ScanUp(grid, p.row - 1, p.col)
  }

  /** The cells `find_cells(will_split)` collects are the reached splitters, each once. */
  lemma SplitCount(grid: Buffer)
    ensures |FindCells(grid, WillSplit)| == |Splits(grid)|
  {
    var found := FindCells(grid, WillSplit);
    forall p | p in Splits(grid) ensures p in PositionSet(found) {
      assert InBounds(grid, p) && WillSplit(StoredCell(grid, p), grid);
      assert StoredCell(grid, p) in found;
    }
    forall p | p in PositionSet(found) ensures p in Splits(grid) {
      var c :| c in found && c.position == p;
      assert InBounds(grid, p) && WillSplit(StoredCell(grid, p), grid);
      assert p in Splitters(grid);
    }
    assert PositionSet(found) == Splits(grid);
    DistinctPositionsCount(found);
  }

  /** The goals of part 2 are the cells of the last row, each once. */
  lemma GoalsAreLastRow(grid: Buffer)
    requires |grid| > 0
    ensures forall k :: 0 <= k < |FindCells(grid, OnLastRow)| ==>
              FindCells(grid, OnLastRow)[k].position.row == |grid| - 1
    ensures forall q :: InBounds(grid, q) && q.row == |grid| - 1 ==> StoredCell(grid, q) in FindCells(grid, OnLastRow)
    ensures DistinctPositions(FindCells(grid, OnLastRow))
  {
  }

  /**
   * `main`: the start is the first `S` (the source unwraps it), part 1 counts
   * the splitters a beam reaches and part 2 sums the path counts of the last
   * row.
   */
  method Solve(grid: Buffer) returns (solution: Solution)
    requires |grid| > 0
    requires FindCell(grid, IsStart).Some?
    ensures solution.part1 == |Splits(grid)|
    ensures solution.part2 == SumCounts(PathCounts(grid, IterCells(grid), FindCell(grid, IsStart).value.position, |IterCells(grid)|),
                                        FindCells(grid, OnLastRow))
  {
    var start := FindCell(grid, IsStart).value;
    var counts := CountPaths(grid, start.position);
    SplitCount(grid);
    solution := Solution(|FindCells(grid, WillSplit)|, SumCounts(counts, FindCells(grid, OnLastRow)));
  }
}
