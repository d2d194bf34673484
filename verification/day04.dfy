/**
 * Day 4: rolls of paper (`@`) on a grid. A roll is accessible when fewer than
 * four of its eight neighbours hold rolls. Each generation picks every
 * accessible roll on the grid as it stands and then replaces them all by `.`;
 * part 1 is the number removed by the first generation, part 2 the number
 * removed until a generation removes nothing.
 */
module Day04 {
  import opened Grids
  import Sets

  datatype Solution = Solution(part1: int, part2: int)

  predicate IsRoll(c: char) {
    c == '@'
  }

  /** The filter of the source: a roll with fewer than four roll neighbours. */
  predicate Accessible(cell: Cell, grid: Buffer) {
    cell.value == '@' && CountNeighborsWith(grid, cell.position, IsRoll) < 4
  }

  /** The positions holding a roll. */
  function Rolls(grid: Buffer): set<Position> {
    set r: nat, c: nat | r < |grid| && c < |grid[r]| && grid[r][c] == '@' :: Position(r, c)
  }

  /** The rolls that a generation on `grid` removes, as a set of positions. */
  function Marked(grid: Buffer): set<Position> {
    set p | p in Rolls(grid) && CountNeighborsWith(grid, p, IsRoll) < 4
  }

  /** No roll is accessible: every roll has at least four roll neighbours. */
  predicate Stable(grid: Buffer) {
    forall p :: p in Rolls(grid) ==> CountNeighborsWith(grid, p, IsRoll) >= 4
  }

  /** One generation: the accessible cells are chosen first, then all written to `.`. */
  function Generation(grid: Buffer): Buffer {
    WriteAll(grid, FindCells(grid, Accessible), '.')
  }

  /** The cells the filter collects are exactly the marked rolls, each once. */
  lemma TargetsAreMarked(grid: Buffer)
    ensures PositionSet(FindCells(grid, Accessible)) == Marked(grid)
    ensures |FindCells(grid, Accessible)| == |Marked(grid)|
  {
    var targets := FindCells(grid, Accessible);
    forall p | p in Marked(grid) ensures p in PositionSet(targets) {
      assert StoredCell(grid, p) in targets;
    }
    forall p | p in PositionSet(targets) ensures p in Marked(grid) {
      var c :| c in targets && c.position == p;
      assert Accessible(c, grid);
    }
    DistinctPositionsCount(targets);
  }

  /**
   * A generation turns exactly the marked rolls into `.`: the count of each
   * cell's roll neighbours is taken on the grid before any write, so a roll
   * removed earlier in the same generation still counts as a neighbour.
   */
  lemma GenerationCells(grid: Buffer)
    ensures SameShape(Generation(grid), grid)
    ensures forall q :: InBounds(grid, q) ==>
              Generation(grid)[q.row][q.col] == if q in Marked(grid) then '.' else grid[q.row][q.col]
  {
    WriteWhere(grid, Accessible, '.');
    forall q | InBounds(grid, q) ensures Accessible(StoredCell(grid, q), grid) <==> q in Marked(grid) {
      if grid[q.row][q.col] == '@' {
        assert q in Rolls(grid);
      }
    }
  }

  /** A generation removes the marked rolls from the set of rolls and adds none. */
  lemma GenerationRemoves(grid: Buffer)
    ensures Marked(grid) <= Rolls(grid)
    ensures Rolls(Generation(grid)) == Rolls(grid) - Marked(grid)
    ensures |Rolls(Generation(grid))| == |Rolls(grid)| - |Marked(grid)|
  {
    var next := Generation(grid);
    GenerationCells(grid);
    forall p | p in Rolls(next) ensures p in Rolls(grid) - Marked(grid) {
      assert InBounds(grid, p);
    }
    forall p | p in Rolls(grid) - Marked(grid) ensures p in Rolls(next) {
      assert InBounds(grid, p);
    }
    var rest := Rolls(grid) - Marked(grid);
    assert Rolls(grid) == rest + Marked(grid);
    assert rest * Marked(grid) == {};
  }

  /** A generation that marks nothing leaves the grid as it is. */
  lemma GenerationIdle(grid: Buffer)
    requires Marked(grid) == {}
    ensures Generation(grid) == grid
  {
    TargetsAreMarked(grid);
  }

  /**
   * The grid once generations stop: generations are applied while one marks a
   * roll. Each such generation removes a roll, so this terminates.
   */
  function Settle(grid: Buffer): Buffer
    decreases |Rolls(grid)|
  {
    if Marked(grid) == {} then grid
    else
      GenerationRemoves(grid);
      Settle(Generation(grid))
  }

  lemma SettleStep(grid: Buffer)
    requires Marked(grid) != {}
    ensures Settle(grid) == Settle(Generation(grid))
  {
  }

  /** Settling stops at a grid where no roll is accessible. */
  lemma {:induction false} SettleStable(grid: Buffer)
    ensures Stable(Settle(grid))
    decreases |Rolls(grid)|
  {
    if Marked(grid) == {} {
      forall p | p in Rolls(grid) ensures CountNeighborsWith(grid, p, IsRoll) >= 4 {
        assert p !in Marked(grid);
      }
    } else {
      GenerationRemoves(grid);
      SettleStep(grid);
      SettleStable(Generation(grid));
    }
  }

  /** `after` has the shape of `before`, and each cell kept its character or is a roll turned into `.`. */
  ghost predicate Eroded(after: Buffer, before: Buffer) {
    SameShape(after, before)
    && forall q :: InBounds(before, q) ==>
         after[q.row][q.col] == before[q.row][q.col] || (before[q.row][q.col] == '@' && after[q.row][q.col] == '.')
  }

  lemma ErodedTransitive(a: Buffer, b: Buffer, c: Buffer)
    requires Eroded(b, a) && Eroded(c, b)
    ensures Eroded(c, a)
  {
    forall q | InBounds(a, q)
      ensures c[q.row][q.col] == a[q.row][q.col] || (a[q.row][q.col] == '@' && c[q.row][q.col] == '.')
    {
      assert InBounds(b, q);
    }
  }

  /** Erosion never creates a roll. */
  lemma ErodedRolls(after: Buffer, before: Buffer)
    requires Eroded(after, before)
    ensures Rolls(after) <= Rolls(before)
  {
    forall p | p in Rolls(after) ensures p in Rolls(before) {
      assert InBounds(before, p);
    }
  }

  /** Settling erodes the grid: only rolls change, and they become `.`. */
  lemma {:induction false} SettleCells(grid: Buffer)
    ensures Eroded(Settle(grid), grid)
    decreases |Rolls(grid)|
  {
    if Marked(grid) != {} {
      var next := Generation(grid);
      GenerationRemoves(grid);
      GenerationCells(grid);
      assert Eroded(next, grid);
      SettleStep(grid);
      SettleCells(next);
      ErodedTransitive(grid, next, Settle(grid));
    }
  }

  /**
   * Part 1 never exceeds part 2: the rolls left after settling are among
   * those left after the first generation.
   */
  lemma FirstGenerationBound(grid: Buffer)
    ensures |Marked(grid)| <= |Rolls(grid)| - |Rolls(Settle(grid))|
  {
    GenerationRemoves(grid);
    if Marked(grid) != {} {
      SettleStep(grid);
      SettleCells(Generation(grid));
      ErodedRolls(Settle(grid), Generation(grid));
      Sets.SubsetSize(Rolls(Settle(grid)), Rolls(Generation(grid)));
    }
  }

  /** What one pass of the loop needs about a generation. */
  lemma GenerationStep(grid: Buffer)
    ensures |FindCells(grid, Accessible)| == |Marked(grid)|
    ensures |Rolls(Generation(grid))| == |Rolls(grid)| - |Marked(grid)|
    ensures Marked(grid) == {} ==> Generation(grid) == grid
    ensures Marked(grid) != {} ==> Settle(grid) == Settle(Generation(grid))
  {
    TargetsAreMarked(grid);
    GenerationRemoves(grid);
    if Marked(grid) == {} {
      GenerationIdle(grid);
    } else {
      SettleStep(grid);
    }
  }

  /**
   * The generation loop of the source, on the grid in place. It stops after
   * the first generation that removes nothing; part 1 is what the first
   * generation removed and part 2 the total removed.
   */
  method Solve(grid: Grid) returns (solution: Solution)
    requires grid.Valid()
    modifies grid
    ensures grid.grid == Settle(old(grid.grid))
    ensures grid.dimensions == old(grid.dimensions)
    ensures grid.Valid()
    ensures solution.part1 == |Marked(old(grid.grid))|
    ensures solution.part2 == |Rolls(old(grid.grid))| - |Rolls(grid.grid)|
  {
    solution := Solution(0, 0);
    var iteration := 0;
    while true
      invariant Settle(grid.grid) == Settle(old(grid.grid))
      invariant grid.dimensions == old(grid.dimensions)
      invariant grid.Valid()
      invariant iteration == 0 ==> grid.grid == old(grid.grid) && solution.part1 == 0
      invariant iteration > 0 ==> solution.part1 == |Marked(old(grid.grid))|
      invariant solution.part2 == |Rolls(old(grid.grid))| - |Rolls(grid.grid)|
      decreases |Rolls(grid.grid)|
    {
      var before := grid.grid;
      var cellsToRemove := FindCells(grid.grid, Accessible);
      GenerationStep(before);
      var removed := grid.UpdateCells('.', cellsToRemove);
      if iteration == 0 {
        solution := solution.(part1 := solution.part1 + removed);
      }
      solution := solution.(part2 := solution.part2 + removed);
      if removed == 0 {
        break;
      }
      iteration := iteration + 1;
    }
  }
}
