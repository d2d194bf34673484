/**
 * The hiking-trail predicates of the workspace binary: a step is allowed from
 * a digit to the digit one higher, and a trail ends at a `9`.
 */
module Trails {
  import opened Text
  import opened Grids

  /** `valid_neighbor`: both cells hold digits and the neighbour's is one higher. */
  predicate ValidNeighbor(current: Cell, neighbor: Cell, grid: Buffer)
  {
    if !IsDigit(current.value) || !IsDigit(neighbor.value) then false
    else DigitValue(current.value) + 1 == DigitValue(neighbor.value)
  }

  /** `reached_target`: the cell holds `9`. */
  predicate ReachedTarget(cell: Cell, grid: Buffer)
  {
    cell.value == '9'
  }

  /**
   * A step is allowed exactly when the characters are consecutive digits:
   * the current one is `0`..`8` and the neighbour is the next character.
   * Positions and the grid play no part.
   */
  lemma ValidNeighborChars(current: Cell, neighbor: Cell, grid: Buffer)
    ensures ValidNeighbor(current, neighbor, grid) <==>
              '0' <= current.value <= '8' && neighbor.value as int == current.value as int + 1
    ensures ValidNeighbor(current, neighbor, grid) ==> !ReachedTarget(current, grid)
  {
  }

  /** A trail: consecutive cells, each step allowed by `ValidNeighbor`. */
  predicate IsTrail(cells: seq<Cell>, grid: Buffer)
  {
    forall i :: 0 <= i < |cells| - 1 ==> ValidNeighbor(cells[i], cells[i + 1], grid)
  }

  /** Along a trail that starts on a digit, the `k`-th cell holds the start's digit plus `k`. */
  lemma {:induction false} TrailHeights(cells: seq<Cell>, grid: Buffer, k: nat)
    requires |cells| > 0 && IsDigit(cells[0].value) && IsTrail(cells, grid)
    requires k < |cells|
    ensures IsDigit(cells[k].value) && DigitValue(cells[k].value) == DigitValue(cells[0].value) + k
  {
    if k > 0 {
      TrailHeights(cells, grid, k - 1);
      assert ValidNeighbor(cells[k - 1], cells[k], grid);
    }
  }

  /**
   * A trail from a `0` to a target has exactly ten cells, and no trail
   * starting on a digit is longer than that digit allows.
   */
  lemma TrailFromZero(cells: seq<Cell>, grid: Buffer)
    requires |cells| > 0 && IsDigit(cells[0].value) && IsTrail(cells, grid)
    ensures |cells| <= 10 - DigitValue(cells[0].value)
    ensures cells[0].value == '0' && ReachedTarget(cells[|cells| - 1], grid) ==> |cells| == 10
  {
    TrailHeights(cells, grid, |cells| - 1);
  }
}
