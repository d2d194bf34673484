# aoc2025 in Dafny

A verified model of the Rust workspace `aoc2025`: the shared grid library
(`src/grid.rs`), the trail predicates of the experimental driver
(`src/main.rs`) and the twelve puzzle solvers `crates/day01` to
`crates/day12`. Each Rust module becomes one Dafny module:

| Dafny file | module | models |
|---|---|---|
| `wrappers.dfy` | `Wrappers` | `Option` |
| `sets.dfy` | `Sets` | the size of a subset, shared by day04, day08 and day12 |
| `text.dfy` | `Text` | the `str` operations the solvers use: `lines`, `parse::<usize>`, `to_string`, `split_once`, `split`, `trim` |
| `grid.dfy` | `Grids` | `GridPosition`, `GridCell`, `Dimensions`, the eight `NEIGHBORS`, and `Grid` as a class whose `update_*` methods change its buffer in place |
| `grid_search.dfy` | `GridSearch` | `Path`, its conversion to a cell list, and `Grid::bfs` |
| `trails.dfy` | `Trails` | `valid_neighbor` and `reached_target` |
| `day01.dfy` … `day12.dfy` | `Day01` … `Day12` | the solver of each day |

Conventions used throughout:

- Input text is a `string`. The values the solvers pull out with regular expressions are passed in as already-extracted numbers.
- A Rust panic (`unwrap` on `None`, indexing out of range, `usize` underflow) becomes a `requires`. Every error the source handles is modelled as a result.
- Integers are unbounded. Where an overflow could change a result, it is listed under "Left out".
- Explicit `for` and `while` loops in the source are loops here: each is a method with invariants, proved against a specification function, and the properties are lemmas about that function. Iterator chains (`map`, `filter`, `fold`, `reduce`, `sum`, `max`) become recursive functions.
- A path is a parent-linked list of boxed nodes in the source. Here it is an arena: a sequence of nodes, each naming its parent by an index smaller than its own.

## Model

| member | source | states |
|---|---|---|
| Grids.GetCell | src/grid.rs:79-90 | a cell exactly when the position is inside the buffer, carrying the stored character and the position asked for |
| Grids.CellAtOffset | src/grid.rs:102-107 | a neighbour lookup by wrapping addition: a cell exactly when neither coordinate goes negative and the shifted position is in bounds, and it is the stored cell at that offset |
| Grids.RowCells | src/grid.rs:93-97 | one cell per character of the row, each the stored cell at its column |
| Grids.IterCells | src/grid.rs:92-99 | as many cells as the buffer holds, each the stored cell at its in-bounds position, in strictly increasing row-major order |
| Grids.IterCellsAt | src/grid.rs:92-99 | every in-bounds position is enumerated, at index (cells in earlier rows) + column |
| Grids.IterCellsOnce | src/grid.rs:92-99 | no position is enumerated twice |
| Grids.Filter | src/grid.rs:137-140 | the kept cells are exactly the cells of the input that satisfy the filter, and there are no more of them than input cells |
| Grids.FindCells | src/main.rs:24 | `find_cells`: exactly the stored cells that satisfy the predicate, each position once, in strictly increasing row-major order |
| Grids.FirstWhere | crates/day07/src/main.rs:73 | the first index whose cell satisfies the predicate, or none when no cell does |
| Grids.FindCell | crates/day07/src/main.rs:73 | `find_cell`: a stored cell satisfying the predicate with none before it in row-major order, or none when no cell satisfies it |
| Grids.CellsAtOffsets | src/grid.rs:101-109 | exactly the in-bounds cells at the listed offsets, each the stored cell there, no more cells than offsets |
| Grids.CellsAtOffsetsDistinct | src/grid.rs:101-109 | distinct offsets yield cells at distinct positions |
| Grids.OffsetsFacts | src/grid.rs:4-13 | `NEIGHBORS` lists eight distinct offsets, and they are exactly the non-zero steps of at most one in each direction |
| Grids.IterNeighbors | src/grid.rs:101-109 | at most eight cells, each the stored cell of a distinct in-bounds neighbour other than the position itself, and every in-bounds neighbour is among them |
| Grids.DistinctPositionsCount | src/grid.rs:111-118 | a list of cells at distinct positions is as long as its set of positions, so counting the list counts the neighbours |
| Grids.FilterKeepsDistinct | src/grid.rs:115-117 | filtering a list of cells at distinct positions keeps them distinct |
| Grids.FilterKeepsOrder | src/grid.rs:137-140 | filtering a list of cells in row-major order keeps it in row-major order |
| Grids.CountNeighborsWith | src/grid.rs:111-118 | the count is the number of distinct in-bounds neighbours whose character satisfies the predicate, hence at most 8 |
| Grids.CornerNeighborsSound | src/grid.rs:101-109 | a neighbour of a corner of a rectangular grid is one of its three inner positions |
| Grids.CornerAtMostThree | src/grid.rs:101-109 | a corner has at most three distinct neighbours |
| Grids.CornerAtLeastThree | src/grid.rs:101-109 | a list holding every neighbour of a corner has at least three entries |
| Grids.CornerHasThreeNeighbors | src/grid.rs:101-109 | `iter_neighbors` at a corner of a grid of at least 2 x 2 yields exactly three cells |
| Grids.CardinalOffsetsFacts | crates/day07/src/main.rs:81 | the four cardinal offsets are distinct, and a position is at one of them exactly when it is directly above, below, left or right |
| Grids.CardinalNeighborsWith | crates/day07/src/main.rs:81 | `iter_cardinal_neighbors_with`: at most four distinct cells, exactly the in-bounds orthogonal neighbours the step predicate admits |
| Grids.Write | src/grid.rs:120-122 | the written cell holds the new value, every other cell is unchanged, the shape is unchanged |
| Grids.WriteAll | src/grid.rs:124-131 | after writing each listed cell in turn, the listed positions hold the value and every other cell is unchanged |
| Grids.WriteWhere | src/grid.rs:133-142 | writing to the cells the predicate selects changes exactly the cells it held for before any write |
| Grids.Grid.Parse | src/grid.rs:61-77 | row r holds the characters of line r, rows is the number of lines and cols the first line's length; empty input is refused because the source panics on it |
| Grids.Grid.Filled | crates/day12/src/main.rs:23 | a rows x cols grid whose every cell holds the fill character, with matching dimensions |
| Grids.Grid.UpdateCell | src/grid.rs:120-122 | the buffer becomes the old buffer with only that cell changed; the dimensions stay and still describe the buffer |
| Grids.Grid.UpdateCells | src/grid.rs:124-131 | the listed positions hold the value, every other cell is unchanged, and the count returned is the number of cells given; the dimensions stay and still describe the buffer |
| Grids.Grid.UpdateCellsWhere | src/grid.rs:133-142 | the cells selected on the buffer before any write are overwritten, nothing else is, and their number is returned; the dimensions stay and still describe the buffer |
| GridSearch.Route | src/grid.rs:37-40 | the positions from the root to a link: one more than its depth, ending at the link's own position |
| GridSearch.TrailReversesRoute | src/grid.rs:42-52 | the cell list of a path is its route reversed without the start: one cell per step, end cell first |
| GridSearch.PathCells | src/grid.rs:42-52 | the loop that walks the parent links returns exactly that cell list |
| GridSearch.VisitedInBounds | src/grid.rs:165-174 | every visited position is in bounds |
| GridSearch.LinksDistinct | src/grid.rs:157-174 | every pushed path holds the stored cell at its position, and no position is pushed twice |
| GridSearch.DepthAppend | src/grid.rs:168-172 | pushing a path leaves the length of every earlier path unchanged |
| GridSearch.PushLinks | src/grid.rs:165-174 | pushing an unvisited in-bounds neighbour of the popped path as its child keeps every path a chain of neighbours from the start, with the visited set naming each position's path |
| GridSearch.PushDepths | src/grid.rs:168-172 | the pushed path is one step longer than the popped one and earlier paths keep their lengths |
| GridSearch.PushLayered | src/grid.rs:165-174 | the queue stays ordered by path length and spans at most two consecutive lengths |
| GridSearch.PushClosed | src/grid.rs:165-174 | pushing keeps every earlier popped path's neighbours visited, no deeper than one step past it |
| GridSearch.Push | src/grid.rs:165-174 | pushing an unvisited neighbour keeps the whole search invariant and leaves the popped path in place |
| GridSearch.WalkReached | src/grid.rs:160-175 | a walk from the start no longer than the length at the queue head (any walk, once the queue is empty) ends at a visited position reached by a path no longer than the walk |
| GridSearch.RouteIsWalk | src/grid.rs:165-174 | every pushed path is a walk of in-bounds neighbours from the start |
| GridSearch.FoundIsShortest | src/grid.rs:160-163 | the first popped path satisfying the predicate is no longer than any walk from the start to a satisfying cell |
| GridSearch.ExhaustedUnreachable | src/grid.rs:176 | once the queue is empty, no cell reachable from the start satisfies the predicate |
| GridSearch.Advance | src/grid.rs:160-175 | after all neighbours of the popped path are visited, popping the next one keeps the search invariant |
| GridSearch.PushNeighbor | src/grid.rs:166-173 | an unvisited neighbour is marked visited and pushed, a visited one changes nothing, and the search invariant holds either way |
| GridSearch.PushNeighbors | src/grid.rs:165-174 | after the `for_each` every neighbour is visited, the visited set only grows, nothing is pushed when nothing new is visited, and the invariant holds |
| GridSearch.Bfs | src/grid.rs:144-177 | a returned path is a walk from the start to a satisfying stored cell, no path popped before it satisfies the predicate, no position is visited twice, and no walk to a satisfying cell is shorter; `None` means no reachable cell satisfies it |
| Trails.ValidNeighborChars | src/main.rs:5-12 | a step is valid exactly when the current cell is a digit 0-8 and the neighbour holds the next digit; a valid step never starts at the target |
| Trails.TrailHeights | src/main.rs:5-12 | along a chain of valid steps that starts on a digit, the k-th cell holds that digit plus k |
| Trails.TrailFromZero | src/main.rs:5-16 | no chain is longer than its first digit allows, and a chain from 0 to the target `9` has exactly ten cells |
| Text.IndexOf | src/grid.rs:63 | the first occurrence of the character, or the length when there is none |
| Text.Lines | src/grid.rs:63 | no line holds a newline, and there are no lines exactly when the text is empty |
| Text.LinesOfJoinLines | src/grid.rs:63 | `lines` gives back every list of plain lines written one per line: the partner of `Lines` |
| Text.LinesCons | src/grid.rs:63 | a plain line followed by a newline is the first line, whatever follows |
| Text.IndexOfAfter | src/grid.rs:63 | the first newline of `line + "\n" + rest` ends the line |
| Text.DigitValue | crates/day03/src/main.rs:17 | a digit's value is below 10 |
| Text.DigitChar | crates/day03/src/main.rs:51 | the digit character of a value below 10 is a digit with that value |
| Text.ParseNat | crates/day01/src/main.rs:25 | `parse` succeeds exactly on a non-empty run of decimal digits |
| Text.ToDecimal | crates/day02/src/main.rs:26 | `to_string` yields decimal digits with no leading zero |
| Text.ParseToDecimal | crates/day03/src/main.rs:49-54 | parsing the decimal string of a number gives the number back |
| Text.SplitOnce | crates/day12/src/main.rs:57-58 | `split_once`: none exactly when the separator is absent; otherwise the text is the part before the first separator, the separator, and the rest |
| Text.Split | crates/day12/src/main.rs:61 | `split` yields at least one piece and no piece holds the separator |
| Text.Trim | crates/day12/src/main.rs:60 | the trimmed text neither starts nor ends with whitespace |
| Day01.Turn | crates/day01/src/main.rs:18-48 | `simulate_line` on a parsed turn: the dial stays in 0..99 and moves by the distance modulo 100, part 1 counts a start at 0, part 2 gains the full turns plus at most one, exactly one when the turn wraps past 99 or lands on 0, and none for a left turn that starts at 0 and does not land there |
| Day01.ModShift | crates/day01/src/main.rs:26-37 | whole turns of the dial do not change where it points |
| Day01.Dials | crates/day01/src/main.rs:54-59 | one dial position before the first line and one after each line: 50 first, then the dial after the first i lines |
| Day01.RunInvariant | crates/day01/src/main.rs:54-59 | the fold from dial 50 keeps the dial in 0..99, ends at the last dial position, and part 1 counts the lines that start at 0 |
| Day01.Part2Grows | crates/day01/src/main.rs:46 | part 2 never decreases when a line is added |
| Day01.DivStep | crates/day01/src/main.rs:26 | one more click adds a full turn exactly at a multiple of 100 |
| Day01.ClicksRight | crates/day01/src/main.rs:36-38 | turning right lands on 0 once per multiple of 100 passed |
| Day01.ClicksLeft | crates/day01/src/main.rs:30-35 | turning left lands on 0 after `dial` clicks and every 100 clicks after that, or every 100 clicks from 0 |
| Day01.LeftLanding | crates/day01/src/main.rs:29-31 | a left turn lands on 0 exactly when distance minus dial is a multiple of 100 |
| Day01.TurnAgainstClicks | crates/day01/src/main.rs:26-46 | as written, part 2 adds the true number of zero landings, plus one exactly when the turn starts at 0 with a distance that is a multiple of 100 |
| Day01.TurnOvercounts | crates/day01/src/main.rs:39-41 | `R100` from 0 lands on 0 once but the source counts two |
| Day01.CorrectedTurnCountsClicks | crates/day01/src/main.rs:26-46 | the corrected turn adds exactly the zero landings and ends at the same dial position |
| Day01.Part1MissesFinalZero | crates/day01/src/main.rs:45 | after the single line `L50` the dial is at 0, yet part 1 is 0 |
| Day01.CorrectedPart1CountsLandings | crates/day01/src/main.rs:45 | counting the dial after each line equals the as-written count plus the final landing |
| Day01.CountZerosCons | crates/day01/src/main.rs:45 | counting zeros splits over the first element |
| Day01.CountZerosDropFirst | crates/day01/src/main.rs:45 | counting zeros splits over the first element of a non-empty list |
| Day02.RepetitionOf | crates/day02/src/main.rs:41-50 | a block of length at least 1 written at least twice makes a repeated string |
| Day02.RepeatAtLeastTwice | crates/day02/src/main.rs:41-50 | a block written at least twice is at least twice as long |
| Day02.Bound | crates/day02/src/main.rs:35 | the `seq_length` loop stops below the string's length, and looks at index 0 at least |
| Day02.PeriodAfter | crates/day02/src/main.rs:33-39 | `seq_length` starts at 1 and grows by at most one per index, so `idx % seq_length` is always defined |
| Day02.SeqLength | crates/day02/src/main.rs:32-39 | the loop computes the specified `seq_length`, which lies between 1 and the loop bound |
| Day02.Chunks | crates/day02/src/main.rs:41-42 | `chunks(k)`: pieces of length 1..k that concatenate back to the string; a string of at most k characters is one chunk; a longer one has at least two, the first k characters first |
| Day02.ReduceEqual | crates/day02/src/main.rs:43-44 | the reduce yields the common chunk when every chunk is equal, and a non-empty result only when all chunks equal it |
| Day02.ConcatAllEqual | crates/day02/src/main.rs:41-44 | chunks that are all the same block concatenate to that block repeated once per chunk |
| Day02.SequenceSound | crates/day02/src/main.rs:41-48 | a non-empty `sequence` shorter than the string is a block the string repeats at least twice |
| Day02.ChunksOfRepeat | crates/day02/src/main.rs:41-42 | a block repeated n times cuts into n copies of the block |
| Day02.KindHalves | crates/day02/src/main.rs:27-47 | part 1 flags exactly the strings of even length made of two equal halves, never an odd length |
| Day02.KindSound | crates/day02/src/main.rs:46-50 | every number flagged by either test is a block repeated at least twice |
| Day02.TripleBlockDigits | crates/day02/src/main.rs:26 | the decimal string of 112112112 |
| Day02.KindMissesTripleBlock | crates/day02/src/main.rs:33-50 | 112112112 is `112` three times yet the loop passes it over as valid |
| Day02.TripleBlockRepeats | crates/day02/src/main.rs:41-50 | 112112112 is `112` written three times |
| Day02.TripleBlockChunks | crates/day02/src/main.rs:41-43 | its first two chunks of length 2 differ |
| Day02.SeqLengthOfTripleBlock | crates/day02/src/main.rs:33-39 | on 112112112 the loop ends with `seq_length` 2 |
| Day02.CorrectedKindExact | crates/day02/src/main.rs:41-50 | the corrected test flags a number exactly when its string is a repeated block, and agrees with the source on part 1 |
| Day02.CorrectedFlagsRepetition | crates/day02/src/main.rs:41-50 | whatever the corrected test flags is a repeated block |
| Day02.RepetitionFlagged | crates/day02/src/main.rs:41-50 | every repeated block is flagged by the corrected test |
| Day02.VerdictsPartition | crates/day02/src/main.rs:46-50 | every number of a range is counted under exactly one verdict |
| Day02.Classify | crates/day02/src/main.rs:26-50 | the loop body for one number returns the verdict of its decimal string |
| Day02.ScanRange | crates/day02/src/main.rs:23-51 | the range loop sums the part 1 numbers and the part 2-only numbers of `start..=end` |
| Day02.Solve | crates/day02/src/main.rs:16-57 | the fold sums both verdicts over all ranges; part 2 includes part 1 and is never smaller |
| Day03.BankOf | crates/day03/src/main.rs:15-18 | one digit below 10 per character of the line |
| Day03.MaxDigitIsMax | crates/day03/src/main.rs:23-30 | the largest of the first n digits bounds them all and is one of them |
| Day03.MaxPairBounds | crates/day03/src/main.rs:19-47 | the best pair is at least the joltage of every ordered pair of batteries |
| Day03.MaxPairAttained | crates/day03/src/main.rs:19-47 | with two batteries or more, the best pair is the joltage of some ordered pair |
| Day03.MaxPairWitness | crates/day03/src/main.rs:19-47 | the ordered pair that attains the best pair |
| Day03.BestPair | crates/day03/src/main.rs:19-47 | the scan ends with `left` the largest digit before the last battery and `10 * left + right` the best ordered pair |
| Day03.FirstMax | crates/day03/src/main.rs:35-39 | the reduce yields an index of the window |
| Day03.FirstMaxIsFirstLargest | crates/day03/src/main.rs:35-39 | that index holds the largest digit, and no earlier digit is as large |
| Day03.GreedyPicks | crates/day03/src/main.rs:32-43 | one index per battery to turn on, all inside the bank from the starting index on |
| Day03.GreedyPicksUnfold | crates/day03/src/main.rs:35-42 | one step of the greedy choice: the first largest digit of the window, then the picks after it |
| Day03.GreedyPicksCons | crates/day03/src/main.rs:35-42 | the first pick is the window's first largest digit and leaves room for the rest |
| Day03.GreedyPicksRoom | crates/day03/src/main.rs:35 | each pick leaves enough batteries after it for the picks still to come |
| Day03.IncreasingCons | crates/day03/src/main.rs:41 | an index below all of an increasing list extends it at the front |
| Day03.GreedyPicksIncrease | crates/day03/src/main.rs:41 | the picks strictly increase, so the batteries stay in order |
| Day03.Select | crates/day03/src/main.rs:40 | one digit per index |
| Day03.SelectAt | crates/day03/src/main.rs:40 | the i-th selected digit is the digit at the i-th index |
| Day03.GreedyDigitsUnfold | crates/day03/src/main.rs:35-42 | one step of the digits turned on: the window's largest digit, then the digits after it |
| Day03.GreedyDigitsArePicks | crates/day03/src/main.rs:32-43 | the digits turned on are the digits at the greedy picks |
| Day03.PickDigits | crates/day03/src/main.rs:32-43 | the `while remaining > 0` loop turns on exactly the greedy digits |
| Day03.Joltage | crates/day03/src/main.rs:49-54 | printing the digits one by one and parsing the string gives the number they spell |
| Day03.NumeralOfDigits | crates/day03/src/main.rs:49-54 | the printed digits form a numeral whose value is the number they spell |
| Day03.DigitsValueBound | crates/day03/src/main.rs:49-54 | n digits spell a number below 10^n |
| Day03.DigitsValueCons | crates/day03/src/main.rs:49-54 | the leading digit contributes its value times 10^(n-1) |
| Day03.DigitsValueSplit | crates/day03/src/main.rs:49-54 | the value of a leading digit followed by the rest |
| Day03.SelectionHeadRoom | crates/day03/src/main.rs:35 | the first of count increasing indices leaves room for the others |
| Day03.ScaleGap | crates/day03/src/main.rs:49-54 | a leading digit one larger outweighs any digits that follow |
| Day03.LeadingDigitDecides | crates/day03/src/main.rs:49-54 | a smaller leading digit loses, whatever follows it |
| Day03.HeadInWindow | crates/day03/src/main.rs:35-39 | any ordered choice starts at a digit no larger than the greedy first digit, and no earlier than it on a tie |
| Day03.SelectionTail | crates/day03/src/main.rs:41-42 | an ordered choice without its first index is an ordered choice after it |
| Day03.SelectCons | crates/day03/src/main.rs:40-54 | the number spelled is the first digit scaled, plus the number spelled by the rest |
| Day03.SmallerHeadLoses | crates/day03/src/main.rs:35-54 | a choice starting on a smaller digit than the greedy one spells a smaller number |
| Day03.GreedyIsBest | crates/day03/src/main.rs:32-54 | no ordered choice of count batteries spells a larger number than the greedy picks |
| Day03.EqualHeadKeepsUp | crates/day03/src/main.rs:32-54 | a choice starting on the greedy digit, at or after the greedy pick, is no better than the greedy picks |
| Day03.GreedyValueCons | crates/day03/src/main.rs:32-54 | the greedy number is its first digit followed by the greedy number of the rest |
| Day03.BestJoltageIsMax | crates/day03/src/main.rs:32-54 | the greedy picks are a valid ordered choice and no ordered choice spells a larger number |
| Day03.SolveBank | crates/day03/src/main.rs:15-58 | one line yields its best pair, at most 99, and its best joltage |
| Day03.TurnOn | crates/day03/src/main.rs:32-54 | turning batteries on greedily and reading them back gives the best joltage |
| Day03.Fold | crates/day03/src/main.rs:13-60 | part 1 sums the best pairs of the lines and part 2 their best joltages |
| Day03.Solve | crates/day03/src/main.rs:13-60 | the same fold with twelve batteries per bank in part 2 |
| Day04.TargetsAreMarked | crates/day04/src/main.rs:19-22 | the filter collects exactly the rolls with fewer than four roll neighbours, each once |
| Day04.GenerationCells | crates/day04/src/main.rs:19-23 | one pass turns exactly those rolls into `.`; neighbours are counted on the grid before any write |
| Day04.GenerationRemoves | crates/day04/src/main.rs:19-23 | a pass removes the marked rolls from the set of rolls and adds none, so the roll count drops by the number marked |
| Day04.GenerationIdle | crates/day04/src/main.rs:28-30 | a pass that marks nothing leaves the grid as it is |
| Day04.SettleStep | crates/day04/src/main.rs:18-32 | while a pass marks a roll, settling continues from the grid after that pass |
| Day04.SettleStable | crates/day04/src/main.rs:18-32 | the loop stops at a grid where every roll has at least four roll neighbours |
| Day04.ErodedTransitive | crates/day04/src/main.rs:18-32 | erosion over two stretches of passes is erosion overall |
| Day04.ErodedRolls | crates/day04/src/main.rs:18-32 | erosion never creates a roll |
| Day04.SettleCells | crates/day04/src/main.rs:18-32 | settling only turns rolls into `.`, and changes nothing else |
| Day04.FirstGenerationBound | crates/day04/src/main.rs:24-27 | part 1, the first pass's removals, never exceeds part 2, the total removed |
| Day04.GenerationStep | crates/day04/src/main.rs:19-31 | one pass: its count is the number marked, the roll count drops by it, a pass that marks nothing is idle, and otherwise settling continues from it |
| Day04.Solve | crates/day04/src/main.rs:14-32 | the loop leaves the grid settled, with the same dimensions still describing it; part 1 is the first pass's removals and part 2 the number of rolls removed in all |
| Day05.Merge | crates/day05/src/main.rs:24-30 | one range covering both when they overlap, otherwise both unchanged and in order |
| Day05.InUnion | crates/day05/src/main.rs:16-18 | an id a listed range contains is covered |
| Day05.ContainsIsIds | crates/day05/src/main.rs:16-18 | `contains` agrees with the id set of the range |
| Day05.UnionAppend | crates/day05/src/main.rs:62-70 | the ids covered by two lists are the ids of each |
| Day05.UnionSingle | crates/day05/src/main.rs:62-70 | a single range covers its own ids |
| Day05.OverlapsWhenSorted | crates/day05/src/main.rs:20-22 | in start order, ranges overlap exactly when the second starts at or before the first ends |
| Day05.OverlapsOutOfOrder | crates/day05/src/main.rs:20-29 | out of start order `overlaps` fires on disjoint ranges and `merge` covers ids neither holds |
| Day05.MergeCoverage | crates/day05/src/main.rs:24-30 | in start order, merging covers exactly the ids of the two ranges, keeps them well formed, and two results are disjoint and in order |
| Day05.ContainsBounds | crates/day05/src/main.rs:16-18 | `contains` is inclusive at both ends and holds for nothing outside start..end |
| Day05.AnyContainsIsUnion | crates/day05/src/main.rs:55-59 | the inner fold is true exactly when some range contains the id |
| Day05.CountFreshIsFreshIndices | crates/day05/src/main.rs:53-60 | part 1 counts the ingredients, repetitions included, that some range contains |
| Day05.UnionOfPermutation | crates/day05/src/main.rs:46 | reordering the ranges does not change which ids they cover |
| Day05.SortedCons | crates/day05/src/main.rs:46 | a range starting no later than the head of a sorted list can go in front |
| Day05.Insert | crates/day05/src/main.rs:46 | inserting into a sorted list keeps it sorted and adds exactly that range |
| Day05.SortByStart | crates/day05/src/main.rs:46 | `sort_by_key` yields a permutation of the ranges sorted by start |
| Day05.MergeAll | crates/day05/src/main.rs:62-70 | the merge fold over sorted ranges yields well-formed, separated ranges that cover exactly the same ids, no more of them than given |
| Day05.UnionPrefix | crates/day05/src/main.rs:62-70 | the ids of one more range of the list |
| Day05.MergeStep | crates/day05/src/main.rs:63-68 | one fold step keeps the result well formed, separated, and covering the ids seen so far |
| Day05.MergeStepShape | crates/day05/src/main.rs:66-67 | replacing the last range by the merge result keeps the list separated |
| Day05.IdsSize | crates/day05/src/main.rs:71 | a range holds `end - start + 1` ids |
| Day05.SeparatedDisjoint | crates/day05/src/main.rs:71 | separated ranges share no id with the last one |
| Day05.SeparatedIncreasing | crates/day05/src/main.rs:71 | each earlier separated range ends before the last starts |
| Day05.TotalSizeIsUnion | crates/day05/src/main.rs:71 | for separated ranges the summed sizes are the number of ids covered |
| Day05.Solve | crates/day05/src/main.rs:46-71 | part 1 is the number of ingredients some range contains and part 2 the number of ids any range contains |
| Day06.WordLength | crates/day06/src/main.rs:21 | the leading run of non-whitespace, ending at whitespace or the end |
| Day06.SpaceLength | crates/day06/src/main.rs:21 | the leading run of whitespace, ending at non-whitespace or the end |
| Day06.Pieces | crates/day06/src/main.rs:15-21 | splitting on `\s+` yields at least one piece |
| Day06.PiecesNoSpace | crates/day06/src/main.rs:15-21 | no piece holds whitespace |
| Day06.NonEmptyWords | crates/day06/src/main.rs:22-25 | the pieces kept are non-empty and free of whitespace |
| Day06.TokensAreWords | crates/day06/src/main.rs:20-26 | every token of a line is a non-empty word |
| Day06.NonEmptyCons | crates/day06/src/main.rs:22-25 | dropping empty pieces splits over the first piece |
| Day06.PiecesCons | crates/day06/src/main.rs:21 | a word followed by a space splits off as one piece |
| Day06.PiecesStep | crates/day06/src/main.rs:21 | one step of the split: the leading word, then the pieces after the whitespace run |
| Day06.WordLengthOf | crates/day06/src/main.rs:21 | a word's run ends where the word does |
| Day06.SpaceLengthOne | crates/day06/src/main.rs:21 | a single space is a run of one |
| Day06.TokensOfJoinWords | crates/day06/src/main.rs:19-28 | tokenising words joined by single spaces gives the words back: the partner of the tokenizer |
| Day06.JoinWordsStart | crates/day06/src/main.rs:21 | words joined by spaces start with a non-space |
| Day06.Tokenize | crates/day06/src/main.rs:20-26 | the inner loop pushes exactly the non-empty pieces, in order |
| Day06.TokenGridOf | crates/day06/src/main.rs:19-28 | one token row per line |
| Day06.ReduceZero | crates/day06/src/main.rs:91 | a product over a column holding 0 is 0 |
| Day06.ReducePositive | crates/day06/src/main.rs:91 | over positive numbers the reduction is positive |
| Day06.FoldColumnIsReduce | crates/day06/src/main.rs:34-46 | over positive numbers the part-1 fold equals the left-to-right reduction |
| Day06.FoldColumnRestartsAfterZero | crates/day06/src/main.rs:37-38 | the column 3, 0, 4 under `*` folds to 4, while its product is 0 |
| Day06.CorrectedFoldColumnFacts | crates/day06/src/main.rs:34-46 | the corrected fold is 0 for a product through a 0 and agrees with the source over positive numbers |
| Day06.ColumnTokens | crates/day06/src/main.rs:33-35 | one token per number row |
| Day06.ColumnValues | crates/day06/src/main.rs:36 | one number per number row |
| Day06.Part1 | crates/day06/src/main.rs:30-48 | the part-1 loop sums the fold of every operator column and collects each column's tokens |
| Day06.FoldOne | crates/day06/src/main.rs:33-47 | the fold over one column collects its tokens and computes its part-1 value |
| Day06.MaxLengthIsUpperBound | crates/day06/src/main.rs:52 | the width is at least every token's length |
| Day06.MaxLengthAttained | crates/day06/src/main.rs:52 | a non-empty column's width is the length of one of its tokens |
| Day06.ColumnLengths | crates/day06/src/main.rs:50-53 | the width loop yields the longest token of each column |
| Day06.Field | crates/day06/src/main.rs:60 | a field is at most its column's width |
| Day06.SliceLine | crates/day06/src/main.rs:57-63 | the slicing loop yields every field of the line at its offset |
| Day06.SlicedRow | crates/day06/src/main.rs:57-63 | one field per column |
| Day06.SliceLines | crates/day06/src/main.rs:55-65 | the second pass cuts every line into its fields |
| Day06.JoinFieldsLength | crates/day06/src/main.rs:57-63 | a line laid out to the widths ends one character before the next offset |
| Day06.SlicePrefix | crates/day06/src/main.rs:60 | a slice inside the front part of a string is a slice of that part |
| Day06.JoinFieldsAt | crates/day06/src/main.rs:57-63 | in a line laid out to the widths, cell i sits at the offset of field i |
| Day06.SliceJoinFields | crates/day06/src/main.rs:57-63 | slicing a line laid out to the widths gives back its cells: the partner of the slicing |
| Day06.DigitsAtFull | crates/day06/src/main.rs:81-88 | in a column full of digits each position reads one digit per row, top to bottom |
| Day06.ColumnNumbers | crates/day06/src/main.rs:79-90 | one number per position of the column |
| Day06.ReadColumn | crates/day06/src/main.rs:74-90 | the loops read the column's numbers from the rightmost position to the leftmost |
| Day06.Part2 | crates/day06/src/main.rs:68-92 | the part-2 loop sums each column's numbers reduced under its operator |
| Day06.Rows | crates/day06/src/main.rs:31 | every line but the operator line |
| Day06.Widths | crates/day06/src/main.rs:50-53 | one width per operator |
| Day06.SlicedRows | crates/day06/src/main.rs:55-66 | the fields of every line, the operator line dropped |
| Day06.ParseWorksheet | crates/day06/src/main.rs:17-31 | the first pass yields the number rows and the operator row |
| Day06.WidthsOfColumns | crates/day06/src/main.rs:50-53 | the widths computed from the part-1 columns are the widths of the worksheet |
| Day06.Solve | crates/day06/src/main.rs:12-94 | part 1 is the sum of the folded columns and part 2 the sum of the reduced vertical numbers |
| Day07.ScanUpMeans | crates/day07/src/main.rs:20-39 | the upward walk succeeds exactly when some row at or above is fed by the start or a splitter beside it and every cell in between is in the grid, not a splitter and not fed |
| Day07.ScanUpWitness | crates/day07/src/main.rs:20-39 | a successful walk names the row that feeds it |
| Day07.ScanUpFromWitness | crates/day07/src/main.rs:20-39 | a feeding row with clear cells below it makes the walk succeed |
| Day07.OnlySplittersSplit | crates/day07/src/main.rs:17-19 | a cell that is not a splitter never splits |
| Day07.TopRowNeverSplits | crates/day07/src/main.rs:20-21 | a cell on the first row has nothing above it and never splits |
| Day07.ScanUpAbove | crates/day07/src/main.rs:20-21 | the lookup one row up fails exactly where the walk fails at once, and otherwise finds the cell above |
| Day07.WalkStep | crates/day07/src/main.rs:21-37 | one pass of the walk: a cell is fed exactly when it is `S` or has a splitter to its left or right; a fed cell succeeds, an unfed splitter fails, any other cell defers to the row above |
| Day07.WillSplitWalk | crates/day07/src/main.rs:16-40 | the `while let` loop of `will_split` decides exactly the upward-walk predicate |
| Day07.NextSplitter | crates/day07/src/main.rs:42-52 | a cell exactly when the cell directly below is in the grid and is a splitter, and it is that cell |
| Day07.PrevNeighborMeans | crates/day07/src/main.rs:54-67 | among orthogonal neighbours, a beam reaches a cell from above when that cell is `.` or `S`, and from a splitter beside it when the cell is `.`; from nowhere else |
| Day07.SumCounts | crates/day07/src/main.rs:83-86 | the sum of no counts is 0, and it bounds every count it adds |
| Day07.SumCountsAgree | crates/day07/src/main.rs:83-86 | two maps that agree on the cells give the same sum |
| Day07.PathCountsStep | crates/day07/src/main.rs:76-92 | one more loop pass visits the next cell |
| Day07.BeforeIn | crates/day07/src/main.rs:76 | cells of row-major order are strictly ordered |
| Day07.VisitWrites | crates/day07/src/main.rs:87-91 | a pass writes only its own cell and the one below, never the first row |
| Day07.StepWrites | crates/day07/src/main.rs:87-91 | the same for the pass over the i-th cell |
| Day07.FirstRowKept | crates/day07/src/main.rs:74-79 | the first row keeps its initial counts: 1 at the start, 0 elsewhere |
| Day07.VisitCounts | crates/day07/src/main.rs:80-91 | a visited cell below the first row gets the sum of its sources' counts, and a splitter below it the same |
| Day07.CountsFinal | crates/day07/src/main.rs:76-92 | a count is final once its cell has been visited |
| Day07.CountPaths | crates/day07/src/main.rs:74-92 | the loop fills the map with the specified path counts |
| Day07.SplitCount | crates/day07/src/main.rs:94 | part 1 counts each reached splitter once |
| Day07.GoalsAreLastRow | crates/day07/src/main.rs:95-96 | the goals of part 2 are exactly the cells of the last row, each once |
| Day07.Solve | crates/day07/src/main.rs:69-102 | part 1 is the number of reached splitters and part 2 the sum of the path counts of the last row |
| Day08.UnionAppend | crates/day08/src/main.rs:26 | the boxes of two lists of circuits are the boxes of each |
| Day08.UnionMembers | crates/day08/src/main.rs:31-37 | a box is in some circuit exactly when one of the circuits holds it |
| Day08.UnionAround | crates/day08/src/main.rs:31-37 | the boxes of the list are those before circuit i, of circuit i, and after it |
| Day08.Remove | crates/day08/src/main.rs:41 | `Vec::remove`: the list without entry i, the others in order |
| Day08.HolderOf | crates/day08/src/main.rs:31-33 | the last circuit holding the box, or none when no circuit holds it |
| Day08.HolderWithout | crates/day08/src/main.rs:34-36 | the last circuit holding the second box but not the first, or none |
| Day08.HolderUnique | crates/day08/src/main.rs:31-37 | with disjoint circuits, the circuit holding a box is the only one |
| Day08.FindCircuits | crates/day08/src/main.rs:29-37 | the scan finds the circuit of the first box and the circuit of the second among those not holding the first |
| Day08.ConnectNew | crates/day08/src/main.rs:48-50 | two unknown boxes start a new circuit at the end |
| Day08.ConnectJoinsFirst | crates/day08/src/main.rs:42-44 | a new box joins its known partner's circuit and nothing else changes |
| Day08.ConnectJoinsSecond | crates/day08/src/main.rs:46-47 | the same when the second box is the known one |
| Day08.ConnectSame | crates/day08/src/main.rs:38-44 | two boxes of one circuit change nothing |
| Day08.ConnectMerges | crates/day08/src/main.rs:39-41 | boxes of two circuits merge them, leaving one circuit fewer |
| Day08.ConnectTogether | crates/day08/src/main.rs:38-51 | after a pass both boxes sit in one circuit |
| Day08.UnionUpdate | crates/day08/src/main.rs:40-47 | replacing a circuit swaps its boxes in the union |
| Day08.UnionRemove | crates/day08/src/main.rs:41 | removing a circuit leaves the boxes of the others |
| Day08.UnionMerge | crates/day08/src/main.rs:40-41 | merging circuit j into circuit i and dropping j keeps the union |
| Day08.ConnectUnion | crates/day08/src/main.rs:38-51 | a pass adds exactly the two boxes to the union of the circuits |
| Day08.ConnectDisjoint | crates/day08/src/main.rs:38-51 | a pass keeps the circuits disjoint |
| Day08.AddedDisjoint | crates/day08/src/main.rs:43-47 | adding a new box to one circuit keeps them disjoint |
| Day08.MergedDisjoint | crates/day08/src/main.rs:40-41 | merging two circuits keeps them disjoint |
| Day08.ConnectNoneEmpty | crates/day08/src/main.rs:38-51 | a pass never leaves an empty circuit |
| Sets.SubsetSize | crates/day08/src/main.rs:52 | a subset is no larger, and one as large is the whole set: circuit 0 holding `box_count` boxes holds them all |
| Day08.CompleteMeansSingle | crates/day08/src/main.rs:52-54 | circuit 0 holds every box exactly when it is the only circuit and holds them all |
| Day08.CircuitsAfterFacts | crates/day08/src/main.rs:26-55 | after any number of pairs the circuits are disjoint, non-empty, and hold exactly the boxes seen |
| Day08.AsUsize | crates/day08/src/main.rs:53 | the `as usize` cast: below 2^64, and the identity on values already in range |
| Day08.DescendingAll | crates/day08/src/main.rs:56 | in a descending list each size is at least every later one |
| Day08.DescendingCons | crates/day08/src/main.rs:56 | a size at least the head extends a descending list |
| Day08.InsertDescending | crates/day08/src/main.rs:56 | inserting keeps the list descending and adds exactly that size |
| Day08.SortDescending | crates/day08/src/main.rs:56 | `sorted().rev()`: the same sizes, largest first |
| Day08.Sizes | crates/day08/src/main.rs:56 | one size per circuit |
| Day08.TopThreeLargest | crates/day08/src/main.rs:56-57 | the three sizes multiplied are the largest: no size left out is bigger |
| Day08.ConnectNonEmpty | crates/day08/src/main.rs:38-51 | after a pass there is at least one circuit |
| Day08.CircuitsAfterStep | crates/day08/src/main.rs:27-51 | one more pair is one more pass |
| Day08.FinishStep | crates/day08/src/main.rs:52-54 | a pass stops with the x product when circuit 0 holds every box, and otherwise goes on |
| Day08.CircuitsAfterNonEmpty | crates/day08/src/main.rs:27-51 | after at least one pair there is a circuit |
| Day08.FinishAtFirstComplete | crates/day08/src/main.rs:52-54 | the answer is the x product of the first pair after which circuit 0 holds every box |
| Day08.FinishWhenNoneComplete | crates/day08/src/main.rs:56-57 | when no pair completes circuit 0, the answer is the product of the three largest sizes |
| Day08.Solve | crates/day08/src/main.rs:25-58 | the loop of `solve` computes the specified answer |
| Day09.LinePoints | crates/day09/src/main.rs:54-67 | one point per step of the half-open range between the differing coordinates, with the other coordinate from `from`, then `to` |
| Day09.MakeLine | crates/day09/src/main.rs:54-67 | the two loops and the final push produce exactly those points |
| Day09.LineKeepsCoordinate | crates/day09/src/main.rs:56-63 | a vertical line keeps the x of `from`; any other keeps its y except at `to` |
| Day09.LineForward | crates/day09/src/main.rs:56-65 | walking towards larger y along a column, or larger x along a row, the line is the closed segment, each point once |
| Day09.LineBackwardMissesStart | crates/day09/src/main.rs:56-65 | from (0, 5) to (0, 2) the line is (0, 2), (0, 3), (0, 4), (0, 2), and from (5, 0) to (2, 0) it is (2, 0), (3, 0), (4, 0), (2, 0): `to` twice, `from` never |
| Day09.Segment | crates/day09/src/main.rs:54-67 | the closed segment along a column (lowest y first) or a row (lowest x first), one point per step between the ends |
| Day09.SegmentCovers | crates/day09/src/main.rs:54-67 | the segment holds both ends and exactly the points of the column or row between them, each once |
| Day09.Area | crates/day09/src/main.rs:144-151 | no rectangle for tiles sharing a row or column; otherwise the inclusive area, at least 4 |
| Day09.AreaAtLeastFour | crates/day09/src/main.rs:149 | two sides of at least two tiles enclose at least four |
| Day09.AreaSymmetric | crates/day09/src/main.rs:144-151 | swapping the corners changes nothing |
| Day09.AreasWith | crates/day09/src/main.rs:143-151 | exactly the areas the tile makes with each later tile |
| Day09.Areas | crates/day09/src/main.rs:141-151 | exactly the areas of the pairs i < j that span a rectangle |
| Day09.AreasShift | crates/day09/src/main.rs:143 | indices of the tail are the indices of the list shifted by one |
| Day09.MaxOf | crates/day09/src/main.rs:152 | `max`: none exactly for an empty list, otherwise an element no smaller than any |
| Day09.Part1IsLargest | crates/day09/src/main.rs:141-152 | part 1 is at least the area of every spanning pair, is the area of one such pair when there is any, and is 0 exactly when there is none |
| Day09.Normalize | crates/day09/src/main.rs:160 | the same two tiles, the smaller x first |
| Day09.RowCandidatesMeans | crates/day09/src/main.rs:155-161 | the candidates from one tile are the ordered spanning pairs it makes with later tiles |
| Day09.CandidatesBeforeMeans | crates/day09/src/main.rs:155-161 | the candidates so far are the ordered spanning pairs whose first tile has been visited |
| Day09.Candidates | crates/day09/src/main.rs:154-161 | the candidate loop collects exactly the candidate set |
| Day09.CandidatesFacts | crates/day09/src/main.rs:154-161 | every candidate is ordered by x, spans a rectangle whose area part 1 weighed, and every spanning pair is a candidate |
| Day10.MachineOf | crates/day10/src/main.rs:106-139 | the machine keeps the target and buttons as read and starts with every light off, one light per target entry |
| Day10.Toggle | crates/day10/src/main.rs:34-40 | exactly the listed lights flip relative to the state before the press, a light listed twice flipping once |
| Day10.Press | crates/day10/src/main.rs:35-39 | the inner loop computes that state |
| Day10.Apply | crates/day10/src/main.rs:32-40 | the fold keeps one entry per light |
| Day10.ApplySequence | crates/day10/src/main.rs:32-40 | the fold over a sequence, one press at a time, gives the specified lights |
| Day10.PressTwice | crates/day10/src/main.rs:34-40 | pressing a button twice in a row undoes it |
| Day10.MatchesPrefixMeans | crates/day10/src/main.rs:41-46 | the `&&` fold over the comparisons is true exactly when every light matches its target |
| Day10.TurnsOn | crates/day10/src/main.rs:32-46 | one round reports success exactly when the sequence turns the machine on |
| Day10.SuccessMeans | crates/day10/src/main.rs:41-46 | success means the lights equal the target |
| Day10.Last | crates/day10/src/main.rs:52-56 | the position of the last extension of the n-th sequence is at least n and at least b |
| Day10.LastIsProduct | crates/day10/src/main.rs:52-56 | it is n * b |
| Day10.Parent | crates/day10/src/main.rs:52-56 | the sequence a queue position extends lies earlier |
| Day10.Digit | crates/day10/src/main.rs:52-56 | the button a queue position ends with is a button |
| Day10.ParentDigit | crates/day10/src/main.rs:52-56 | parent and last button recompose the position |
| Day10.ChildPosition | crates/day10/src/main.rs:52-56 | the child pushed for button d has that parent and that button |
| Day10.Decode | crates/day10/src/main.rs:29-56 | the n-th sequence of the search is a non-empty sequence of buttons |
| Day10.Encode | crates/day10/src/main.rs:29-56 | every non-empty sequence of buttons has a position in the search |
| Day10.DecodeChild | crates/day10/src/main.rs:52-56 | extending the n-th sequence by button d gives the sequence at n * b + d + 1 |
| Day10.DecodeEncode | crates/day10/src/main.rs:29-56 | decoding the position of a sequence gives the sequence back |
| Day10.ButLastSnoc | crates/day10/src/main.rs:53-54 | a sequence is its front followed by its last button |
| Day10.EncodeDecode | crates/day10/src/main.rs:29-56 | encoding the n-th sequence gives n back |
| Day10.EncodeSnoc | crates/day10/src/main.rs:53-55 | the position of an extension follows from its parent's |
| Day10.ParentMonotone | crates/day10/src/main.rs:52-56 | later positions extend later sequences |
| Day10.DecodeLengthMonotone | crates/day10/src/main.rs:31-56 | later positions never hold shorter sequences: the queue is popped in nondecreasing length |
| Day10.ShorterFirst | crates/day10/src/main.rs:31-56 | a shorter sequence is popped earlier |
| Day10.QueueBetweenMeans | crates/day10/src/main.rs:29-56 | a queue segment holds the sequences of its positions, in order |
| Day10.PowerOn | crates/day10/src/main.rs:28-59 | with no buttons the result is empty; otherwise the sequence returned turns the machine on and no sequence popped before it does |
| Day10.SearchStart | crates/day10/src/main.rs:29-30 | the queue starts with the one-button sequences, and the position of a working sequence works |
| Day10.SearchNext | crates/day10/src/main.rs:31-56 | a failing round leaves the working position ahead, rules out one more position and leaves the queue of the next step |
| Day10.Enqueue | crates/day10/src/main.rs:52-56 | the inner loop appends the sequence extended by each button, in button order |
| Day10.ExtensionsMeans | crates/day10/src/main.rs:52-56 | one extension per button, the d-th ending with button d |
| Day10.QueueStart | crates/day10/src/main.rs:29-30 | the initial queue is the first b positions |
| Day10.QueueStep | crates/day10/src/main.rs:31-56 | one round pops the n-th sequence and leaves the queue of step n + 1 |
| Day10.QueuePop | crates/day10/src/main.rs:31 | popping the front of the queue of step n |
| Day10.QueuePush | crates/day10/src/main.rs:52-56 | pushing the extensions of the n-th sequence after popping it |
| Day10.QueueSplit | crates/day10/src/main.rs:29-56 | a queue segment splits at any position inside it |
| Day10.ChildrenInQueue | crates/day10/src/main.rs:52-56 | the positions right after n * b hold the extensions of the n-th sequence |
| Day10.FirstFound | crates/day10/src/main.rs:48-50 | a working sequence at the queue head with none before it is the first that works |
| Day10.FirstInWorks | crates/day10/src/main.rs:48-50 | that is the first working sequence of the machine |
| Day10.ShortestExists | crates/day10/src/main.rs:28-59 | a machine that can be turned on has a shortest working sequence |
| Day10.PowerOnIsShortest | crates/day10/src/main.rs:28-59 | the sequence found is as short as any that works: its length is the fewest presses |
| Day10.Part1 | crates/day10/src/main.rs:142 | part 1 sums the fewest presses of every machine |
| Day10.TotalPressesSnoc | crates/day10/src/main.rs:142 | one more machine adds its fewest presses |
| Day11.Entry | crates/day11/src/main.rs:45-46 | the node is the text before the first colon and has at least one neighbour entry |
| Day11.Entries | crates/day11/src/main.rs:44-47 | one entry per line, in order |
| Day11.BuildGraph | crates/day11/src/main.rs:42-47 | the loop inserts the entries in order, a later entry for a node replacing an earlier one |
| Day11.InsertMeans | crates/day11/src/main.rs:42-47 | the graph's nodes are exactly those some entry names, each with the neighbours of the last entry naming it |
| Day11.ThroughAtLeast | crates/day11/src/main.rs:29-31 | each neighbour contributes its whole count; one listed twice counts twice |
| Day11.PositiveNeighbour | crates/day11/src/main.rs:29-31 | a positive sum has a neighbour with a positive count |
| Day11.RouteOfPaths | crates/day11/src/main.rs:25-32 | a positive count has a route from the start to the goal behind it |
| Day11.PathsOfRoute | crates/day11/src/main.rs:25-32 | a route from the start to the goal makes the count positive |
| Day11.PathsPositive | crates/day11/src/main.rs:15-36 | the count is positive exactly when a route exists |
| Day11.Memo.constructor | crates/day11/src/main.rs:49 | the memo starts empty |
| Day11.CountPaths | crates/day11/src/main.rs:15-36 | the count is the memo-free recursion's; the memo stays sound, gains the pair and loses nothing, and a cached pair changes nothing |
| Day11.ProductZero | crates/day11/src/main.rs:56 | the fold's product is zero exactly when one of the counts is |
| Day11.ProductOfThree | crates/day11/src/main.rs:52-56 | the fold over three counts multiplies them |
| Day11.Solve | crates/day11/src/main.rs:49-57 | part 1 counts the routes from `you` to `out`; part 2 multiplies the counts of `svr` to `fft`, `fft` to `dac` and `dac` to `out`, all through one memo |
| Day11.Part2Positive | crates/day11/src/main.rs:52-56 | part 2 is positive exactly when each of its three segments has a route |
| Day12.IndexOfBlank | crates/day12/src/main.rs:37 | a blank-line separator starts at the result unless it is the length, and none starts before it, so the length means there is none |
| Day12.SplitBlocks | crates/day12/src/main.rs:37 | `split("\n\n")` yields at least one piece and no piece holds the separator; with `JoinSplitBlocks` this fixes every cut |
| Day12.JoinSplitBlocks | crates/day12/src/main.rs:37 | joining the pieces with the separator gives the input back |
| Day12.ParseShape | crates/day12/src/main.rs:41-53 | a shape holds exactly the (row, column) of every `#` in the lines after the header |
| Day12.ParseAll | crates/day12/src/main.rs:61-63 | the counts parse exactly when every piece is a numeral, one value per piece |
| Day12.FormatParseRegion | crates/day12/src/main.rs:56-73 | reading a region line back gives the region: the width before the `x`, the height after it, then the counts |
| Day12.NumeralHasNoSeparator | crates/day12/src/main.rs:57-62 | a numeral holds none of the separators and no whitespace |
| Day12.JoinNumbersChars | crates/day12/src/main.rs:59-62 | the joined counts hold no colon and no `x`, and start and end with a digit |
| Day12.SplitOnceAt | crates/day12/src/main.rs:57-58 | `split_once` splits at the first separator |
| Day12.TrimLeadingSpace | crates/day12/src/main.rs:60 | `trim` removes the space in front of the counts and nothing else |
| Day12.SplitJoinNumbers | crates/day12/src/main.rs:59-63 | splitting the joined counts on spaces and parsing gives the counts back |
| Day12.SplitJoinOne | crates/day12/src/main.rs:59-63 | the same for a single count |
| Day12.SplitJoinStep | crates/day12/src/main.rs:59-63 | the same, one more count at the front |
| Day12.SplitAt | crates/day12/src/main.rs:61 | `split` cuts at a separator the first piece does not contain |
| Day12.ParseAllCons | crates/day12/src/main.rs:62 | parsing a list of pieces splits over the first piece |
| Day12.IndexOfMissing | crates/day12/src/main.rs:57-58 | a character that does not occur is found at the end |
| Day12.CanFitMonotone | crates/day12/src/main.rs:22-31 | a region at least as large in both directions accepts whatever a smaller one accepts |
| Day12.AreaMonotone | crates/day12/src/main.rs:23 | a larger region has a larger area |
| Day12.CanFitFewer | crates/day12/src/main.rs:22-31 | asking for no more presents of any shape keeps a region accepted |
| Day12.PresentsAreaMonotone | crates/day12/src/main.rs:24-28 | fewer presents need no more cells |
| Day12.Copies | crates/day12/src/main.rs:27 | n copies of the shape |
| Day12.TotalCellsAppend | crates/day12/src/main.rs:24-28 | the cells of two lists of presents add up |
| Day12.TotalCellsCopies | crates/day12/src/main.rs:27 | n copies of a shape have n times its cells |
| Day12.MultiplyStep | crates/day12/src/main.rs:27 | one more copy adds the shape's cells |
| Day12.PresentsAreaIsTotal | crates/day12/src/main.rs:24-28 | the sum `can_fit` computes is the number of cells of all the presents |
| Day12.UnionOfPacking | crates/day12/src/main.rs:30 | the pieces of a packing cover as many cells as the presents have, all inside the region |
| Day12.UnionMember | crates/day12/src/main.rs:30 | a covered cell belongs to some piece |
| Day12.BoxSize | crates/day12/src/main.rs:23 | a region has `rows * cols` cells |
| Day12.AreaStep | crates/day12/src/main.rs:23 | one more row adds `cols` cells |
| Day12.RowSize | crates/day12/src/main.rs:23 | a row has `cols` cells |
| Day12.PackingNeedsArea | crates/day12/src/main.rs:30 | presents that can be packed into a region have no more cells than the region |
| Day12.RejectedCannotPack | crates/day12/src/main.rs:22-31 | a region failing the area test cannot hold its presents, however they are placed |
| Day12.CountFittingMeans | crates/day12/src/main.rs:76 | part 1 is the number of regions `can_fit` accepts |
| Day12.Shapes | crates/day12/src/main.rs:37-54 | one shape per block before the last |
| Day12.Spaces | crates/day12/src/main.rs:56-73 | one region per line of the last block, each with a count for every shape |
| Day12.ParseShapes | crates/day12/src/main.rs:39-54 | the collect over the shape blocks gives one shape per block |
| Day12.Solve | crates/day12/src/main.rs:33-80 | part 1 counts the regions that fit and part 2 is 0 |

## Left out

- Reading the input file, the command line and printing (`utils::read_input`, `env::args`, `println!`, the `Display` impls). The solvers take the input text, or the values extracted from it, as parameters.
- Extracting values from the text: the regular expressions of day02, day05 and day10, and the `split(",")` of day08 and day09 lines. The extracted numbers, points and machines are passed in (`Day02.IdRange`, `Day05.Range`, `Day08.Pair`, `Day09.Point`, `Day10.MachineOf`).
- Floating point: `JBox::distance` in day08 and `Line::intersects` in day09. Day08 takes the box pairs already ordered by distance, cut to 1000 pairs for part 1 and all pairs for part 2; the number of boxes is a parameter.
- Day09 part 2 (the edge tests over the candidate set) is not modelled. Its edge lists stay empty and the code is unfinished. Only the candidate set it filters is modelled.
- Day10 part 2, `configure_joltages`, hands the problem to the Z3 optimiser, a foreign library. It is not modelled.
- `find_paths_bfs`, called in src/main.rs:26, is not defined in src/grid.rs, so it is not part of this model. Neither is any multi-start or depth-first search: src/grid.rs has only the single-start `bfs`.
- The solvers call grid operations that src/grid.rs does not define: `find_cell`, `find_cells`, `iter_cardinal_neighbors_with`, `count_neighbors_at`, `rows`, `cols`, `parse` through `FromStr`, and `From<(usize, usize)>`. They are modelled from how the solvers use them (`Grids.FindCell`, `Grids.FindCells`, `Grids.CardinalNeighborsWith`, `Grids.CountNeighborsWith`, `Grids.Grid.Rows`/`Cols`, `Grids.Grid.Parse`, `Grids.Grid.Filled`). Day04 calls `update_cells` with its arguments in the other order; the model uses the src/grid.rs order.
- `get_cell` casts each index through `i32` before `usize`. Indices of 2^31 and above, which alias in the source, are not modelled: an index is in bounds exactly when it is below the row count or row length.
- Integer widths: all arithmetic is unbounded. Overflow is not modelled for `i32` (day01), `i64` (the sums of days 02, 03 and 04, and the coordinates and areas of day09), `isize` (the coordinates and the x product of day08) or `usize` (the sums and products of days 05, 06, 07, 08, 10, 11 and 12). The cast `(jbox.0 * other.0) as usize` in day08 can change a negative product and is modelled (`Day08.AsUsize`). The other explicit casts change no value, so they are not modelled: `as i32` at day01:45 turns a bool into 0 or 1; `as i64` at day03:57 widens a digit and at day04:25,27 a count of cells; `as usize` at day05:60 and day10:37 is applied to a `usize`, and at day09:248-249 to an area that is never negative.
- `Text.ParseNat` accepts only a run of decimal digits. Rust's `parse` also accepts a leading `+`, and a `-` for signed types. The solvers' inputs never contain either.
- `Day06.Pieces` treats only ASCII whitespace as `\s`. The regex also matches Unicode whitespace.
- Strings are sequences of characters, so lengths, offsets and slices are counted in characters. The source counts them in UTF-8 bytes in day06: `c.len()` for the column widths and `line[current..]` for the fields, which also panics off a character boundary. It counts characters in `chars().nth(l)`. The two agree only on ASCII input, which is what the model describes. Likewise `Text.IsSpace` and `Text.Trim` cover the ASCII whitespace characters only, while the `trim()` calls of day11 and day12 strip Unicode whitespace too.
- Day09 has no solver entry point in the model. The source's `main` indexes the first and last point, so it panics on an input with no points, where `Day09.Part1` of no points is 0.
- A path is an index into an arena of nodes rather than a chain of boxes. Cloning a path is sharing its parent index.
- Day10 sequences are sequences of button indices rather than of references to buttons. `Day10.WellFormed` requires every listed light index to be below the number of lights, and at least one light, even for a machine without buttons. The source panics on a bad index only when that button is pressed before the machine turns on.
- `Grids.Grid.Filled`: the fill character of the grid day12 builds from `(rows, cols)` is a parameter, because the conversion is not defined in src/grid.rs. Day12 uses only its dimensions, so `Day12.Space` keeps just the `Dimensions`.
- `Day10.PowerOn`: requires that some sequence turns the machine on when it has buttons. Otherwise the source's queue grows forever and never returns.
- `Day11.CountPaths`: requires a ranking of all nodes that every edge descends (an acyclic graph). The source only needs the part reachable from the start to be acyclic. On a cycle it recurses until the stack overflows.
- `Day05.Solve`: requires every range to have `start <= end`. The source underflows only when such a range survives the merge into the final sum.
- `Text.Lines`: its contract states only that no line holds a newline and when the result is empty. The rest is stated by the partner lemma `Text.LinesOfJoinLines`.
- `Text.Split`: its contract states only that no piece holds the separator. `Day12.SplitAt` and `Day12.SplitJoinNumbers` state what the solvers rely on.
- `Text.Trim`: its contract states only that the result neither starts nor ends with whitespace, not that it is a slice of the input. `Day12.TrimLeadingSpace` states the case the solvers meet.
- `Day06.Pieces`: its contract states only that there is at least one piece. `Day06.PiecesNoSpace` and `Day06.TokensOfJoinWords` state the rest.

## Findings

Each row names a member that models the code as written, with the counterexample proved, and a corrected definition with the intended property proved.

| source | as written | input that shows it | evidently intended | confidence | as-written member | corrected member |
|---|---|---|---|---|---|---|
| crates/day01/src/main.rs:39-41 | a turn that ends on 0 adds a zero even when it started on 0 and the full-turn count already counted that landing | `R100` from dial 0 counts two zeros for one landing | count each landing on 0 once; the `new_dial == 0` branch should also need a dial above 0 before the move, as the `new_dial < 0` branch does | medium, not executed | `Day01.TurnOvercounts`, `Day01.TurnAgainstClicks` | `Day01.CorrectedTurn`, proved by `Day01.CorrectedTurnCountsClicks` |
| crates/day01/src/main.rs:45 | part 1 tests the dial before each turn, so a last turn that lands on 0 is never counted | the single line `L50` leaves the dial at 0 with part 1 equal to 0 | count the turns after which the dial points at 0 | medium, not executed | `Day01.Part1MissesFinalZero` | `Day01.CorrectedPart1`, proved by `Day01.CorrectedPart1CountsLandings` |
| crates/day02/src/main.rs:33-44 | `seq_length` grows by one per mismatch, so it can stop short of the real block length and the chunks then differ | 112112112, which is `112` three times, is passed over as valid | flag every number whose digits are one block repeated at least twice | high, not executed | `Day02.KindMissesTripleBlock` | `Day02.CorrectedKind`, proved by `Day02.CorrectedKindExact` |
| crates/day06/src/main.rs:37-38 | the part-1 fold reads an accumulator of 0 as "no number yet", so a product restarts after a 0 | a `*` column holding 3, 0, 4 folds to 4 | the column's numbers reduced under its operator, 0 here | low (puzzle numbers are positive), not executed | `Day06.FoldColumnRestartsAfterZero` | `Day06.CorrectedFoldColumn`, proved by `Day06.CorrectedFoldColumnFacts` |
| crates/day09/src/main.rs:56-65 | the range always starts at the smaller coordinate and `to` is pushed after it, so walking towards smaller coordinates pushes `to` twice and never `from` | from (0, 5) to (0, 2) gives (0, 2), (0, 3), (0, 4), (0, 2); from (5, 0) to (2, 0) gives (2, 0), (3, 0), (4, 0), (2, 0) | the closed segment between the two points, each point once | medium (the function's only calls are commented out), not executed | `Day09.LineBackwardMissesStart` | `Day09.Segment`, proved by `Day09.SegmentCovers` |
