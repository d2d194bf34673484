/**
 * Day 6: a worksheet of numbers in columns with an operator row at the
 * bottom. Part 1 reads each line as whitespace-separated tokens and folds
 * every column under its operator; part 2 cuts every line into fixed-width
 * fields (each column as wide as its longest token, one character between
 * columns) and reads each column's numbers vertically, right to left.
 */
module Day06 {
  import opened Text

  datatype Solution = Solution(part1: nat, part2: nat)

  // -------------------------------------------------------------- tokenising

  /** The length of the leading run of non-space characters. */
  function WordLength(s: string): (n: nat)
    ensures n <= |s|
    ensures forall k :: 0 <= k < n ==> !IsSpace(s[k])
    ensures n < |s| ==> IsSpace(s[n])
  {
    if s == [] || IsSpace(s[0]) then 0 else 1 + WordLength(s[1..])
  }

  /** The length of the leading run of space characters. */
  function SpaceLength(s: string): (n: nat)
    ensures n <= |s|
    ensures forall k :: 0 <= k < n ==> IsSpace(s[k])
    ensures n < |s| ==> !IsSpace(s[n])
  {
    if s == [] || !IsSpace(s[0]) then 0 else 1 + SpaceLength(s[1..])
  }

  predicate NoSpace(t: string) {
    forall k :: 0 <= k < |t| ==> !IsSpace(t[k])
  }

  /**
   * Splitting on the pattern `\s+`: the pieces between maximal runs of
   * whitespace, with an empty piece before leading and after trailing
   * whitespace.
   */
  function Pieces(s: string): (r: seq<string>)
    ensures |r| >= 1
    decreases |s|
  {
    var n := WordLength(s);
    if n == |s| then [s]
    else [s[..n]] + Pieces(s[n + SpaceLength(s[n..])..])
  }

  /** No piece contains whitespace. */
  lemma {:induction false} PiecesNoSpace(s: string)
    ensures forall k :: 0 <= k < |Pieces(s)| ==> NoSpace(Pieces(s)[k])
    decreases |s|
  {
    var n := WordLength(s);
    if n < |s| {
      var m := SpaceLength(s[n..]);
      PiecesStep(s, n, m);
      PiecesNoSpace(s[n + m..]);
    }
  }

  /** The non-empty strings of `ps`, in order. */
  function NonEmpty(ps: seq<string>): seq<string> {
    if ps == [] then []
    else NonEmpty(ps[..|ps| - 1]) + (if ps[|ps| - 1] == [] then [] else [ps[|ps| - 1]])
  }

  /** The tokens of a line: the pieces of the split that are not empty. */
  function Tokens(line: string): seq<string> {
    NonEmpty(Pieces(line))
  }

  predicate IsWord(t: string) {
    |t| > 0 && NoSpace(t)
  }

  /** The tokens are non-empty and free of whitespace. */
  lemma {:induction false} NonEmptyWords(ps: seq<string>)
    requires forall k :: 0 <= k < |ps| ==> NoSpace(ps[k])
    ensures forall k :: 0 <= k < |NonEmpty(ps)| ==> IsWord(NonEmpty(ps)[k])
  {
    if ps != [] {
      NonEmptyWords(ps[..|ps| - 1]);
    }
  }

  lemma TokensAreWords(line: string)
    ensures forall k :: 0 <= k < |Tokens(line)| ==> IsWord(Tokens(line)[k])
  {
    PiecesNoSpace(line);
    NonEmptyWords(Pieces(line));
  }

  /** Words separated by single spaces. */
  function JoinWords(ws: seq<string>): string {
    if ws == [] then "" else if |ws| == 1 then ws[0] else ws[0] + " " + JoinWords(ws[1..])
  }

  lemma {:induction false} NonEmptyCons(p: string, ps: seq<string>)
    ensures NonEmpty([p] + ps) == (if p == [] then [] else [p]) + NonEmpty(ps)
    decreases |ps|
  {
    var all := [p] + ps;
    if ps == [] {
      assert all == [p] && all[..0] == [];
    } else {
      var init := ps[..|ps| - 1];
      assert all[..|all| - 1] == [p] + init;
      assert all[|all| - 1] == ps[|ps| - 1];
      NonEmptyCons(p, init);
    }
  }

  /** A word followed by a space and text not starting with a space splits off as one piece. */
  lemma PiecesCons(w: string, rest: string)
    requires IsWord(w) && (|rest| > 0 ==> !IsSpace(rest[0]))
    ensures Pieces(w + " " + rest) == [w] + Pieces(rest)
  {
    var s := w + " " + rest;
    WordLengthOf(w, " " + rest);
    assert s == w + (" " + rest);
    assert s[|w|..] == " " + rest;
    SpaceLengthOne(rest);
    PiecesStep(s, |w|, 1);
    assert s[|w| + 1..] == rest;
    assert s[..|w|] == w;
  }

  lemma PiecesStep(s: string, n: nat, m: nat)
    requires n == WordLength(s) && n < |s| && m == SpaceLength(s[n..])
    ensures Pieces(s) == [s[..n]] + Pieces(s[n + m..])
  {
  }

  lemma {:induction false} WordLengthOf(w: string, rest: string)
    requires NoSpace(w) && |rest| > 0 && IsSpace(rest[0])
    ensures WordLength(w + rest) == |w|
  {
    if w != [] {
      assert (w + rest)[1..] == w[1..] + rest;
      WordLengthOf(w[1..], rest);
    } else {
      assert w + rest == rest;
    }
  }

  lemma SpaceLengthOne(rest: string)
    requires |rest| > 0 ==> !IsSpace(rest[0])
    ensures SpaceLength(" " + rest) == 1
  {
    assert (" " + rest)[1..] == rest;
  }

  /** Tokenising words joined by single spaces gives the words back. */
  lemma {:induction false} TokensOfJoinWords(ws: seq<string>)
    requires forall k :: 0 <= k < |ws| ==> IsWord(ws[k])
    ensures Tokens(JoinWords(ws)) == ws
  {
    if ws == [] {
      assert Pieces("") == [""];
    } else if |ws| == 1 {
      assert WordLength(ws[0]) == |ws[0]|;
      assert ws[0][..|ws[0]|] == ws[0];
      NonEmptyCons(ws[0], []);
    } else {
      var rest := JoinWords(ws[1..]);
      JoinWordsStart(ws[1..]);
      PiecesCons(ws[0], rest);
      NonEmptyCons(ws[0], Pieces(rest));
      TokensOfJoinWords(ws[1..]);
      assert ws == [ws[0]] + ws[1..];
    }
  }

  lemma JoinWordsStart(ws: seq<string>)
    requires |ws| > 0 && IsWord(ws[0])
    ensures |JoinWords(ws)| > 0 && !IsSpace(JoinWords(ws)[0])
  {
  }

  /** The inner loop over the split pieces: empty pieces are skipped, the rest pushed. */
  method Tokenize(line: string) returns (columns: seq<string>)
    ensures columns == Tokens(line)
  {
    var pieces := Pieces(line);
    columns := [];
    for k := 0 to |pieces|
      invariant columns == NonEmpty(pieces[..k])
    {
      assert pieces[..k + 1][..k] == pieces[..k];
      if pieces[k] == [] {
        continue;
      }
      columns := columns + [pieces[k]];
    }
    assert pieces[..|pieces|] == pieces;
  }

  /** The first loop: one row of tokens per line. */
  method TokenGridOf(lines: seq<string>) returns (grid: seq<seq<string>>)
    ensures |grid| == |lines|
    ensures forall k :: 0 <= k < |lines| ==> grid[k] == Tokens(lines[k])
  {
    grid := [];
    for k := 0 to |lines|
      invariant |grid| == k
      invariant forall j :: 0 <= j < k ==> grid[j] == Tokens(lines[j])
    {
      var columns := Tokenize(lines[k]);
      grid := grid + [columns];
    }
  }

  // ------------------------------------------------------------------ part 1

  /** `+` unless the operator token is `*`. */
  function Apply(op: string, a: nat, b: nat): nat {
    if op == "*" then a * b else a + b
  }

  /** One step of the part-1 fold: a zero accumulator is taken to mean "no number yet". */
  function Step(acc: nat, num: nat, op: string): nat {
    if acc == 0 then num else Apply(op, acc, num)
  }

  /** The part-1 fold over the first `n` numbers, starting from 0. */
  function FoldColumn(nums: seq<nat>, n: nat, op: string): nat
    requires n <= |nums|
  {
    if n == 0 then 0 else Step(FoldColumn(nums, n - 1, op), nums[n - 1], op)
  }

  /** `reduce`: the operator applied left to right over the first `n` numbers. */
  function Reduce(nums: seq<nat>, n: nat, op: string): nat
    requires 1 <= n <= |nums|
  {
    if n == 1 then nums[0] else Apply(op, Reduce(nums, n - 1, op), nums[n - 1])
  }

  /** The product of a column containing a 0 is 0. */
  lemma {:induction false} ReduceZero(nums: seq<nat>, n: nat, k: nat)
    requires 1 <= n <= |nums| && k < n && nums[k] == 0
    ensures Reduce(nums, n, "*") == 0
  {
    if n > 1 && k < n - 1 {
      ReduceZero(nums, n - 1, k);
    }
  }

  /** Over positive numbers the reduction is positive. */
  lemma {:induction false} ReducePositive(nums: seq<nat>, n: nat, op: string)
    requires 1 <= n <= |nums| && forall k :: 0 <= k < n ==> nums[k] > 0
    ensures Reduce(nums, n, op) > 0
  {
    if n > 1 {
      ReducePositive(nums, n - 1, op);
    }
  }

  /**
   * Over positive numbers the part-1 fold is the reduction: the zero test
   * only fires on the first number.
   */
  lemma {:induction false} FoldColumnIsReduce(nums: seq<nat>, n: nat, op: string)
    requires 1 <= n <= |nums| && forall k :: 0 <= k < n ==> nums[k] > 0
    ensures FoldColumn(nums, n, op) == Reduce(nums, n, op)
  {
    if n > 1 {
      FoldColumnIsReduce(nums, n - 1, op);
      ReducePositive(nums, n - 1, op);
    }
  }

  /**
   * A product that reaches 0 restarts at the next number: the column 3, 0, 4
   * under `*` folds to 4, while its product is 0.
   */
  lemma FoldColumnRestartsAfterZero()
    ensures FoldColumn([3, 0, 4], 3, "*") == 4
    ensures Reduce([3, 0, 4], 3, "*") == 0
  {
  }

  /** The part-1 value of a column as intended: 0 for no rows, else the reduction. */
  function CorrectedFoldColumn(nums: seq<nat>, n: nat, op: string): nat
    requires n <= |nums|
  {
    if n == 0 then 0 else Reduce(nums, n, op)
  }

  /**
   * The corrected fold multiplies through a 0 and otherwise agrees with the
   * fold as written.
   */
  lemma CorrectedFoldColumnFacts(nums: seq<nat>, n: nat, op: string)
    requires n <= |nums|
    ensures op == "*" && (exists k :: 0 <= k < n && nums[k] == 0) ==> CorrectedFoldColumn(nums, n, op) == 0
    ensures (forall k :: 0 <= k < n ==> nums[k] > 0) ==> CorrectedFoldColumn(nums, n, op) == FoldColumn(nums, n, op)
  {
    if op == "*" && exists k :: 0 <= k < n && nums[k] == 0 {
      var k :| 0 <= k < n && nums[k] == 0;
      ReduceZero(nums, n, k);
    }
    if n > 0 && forall k :: 0 <= k < n ==> nums[k] > 0 {
      FoldColumnIsReduce(nums, n, op);
    }
  }

  /** Every number row has a numeral in each operator column. */
  predicate NumbersReady(rows: seq<seq<string>>, width: nat) {
    forall r :: 0 <= r < |rows| ==> width <= |rows[r]| && forall i :: 0 <= i < width ==> IsNumeral(rows[r][i])
  }

  /** Column `i` of the token rows, top to bottom. */
  function ColumnTokens(rows: seq<seq<string>>, i: nat): (column: seq<string>)
    requires forall r :: 0 <= r < |rows| ==> i < |rows[r]|
    ensures |column| == |rows|
  {
    seq(|rows|, r requires 0 <= r < |rows| => rows[r][i])
  }

  /** The numbers of column `i`. */
  function ColumnValues(rows: seq<seq<string>>, width: nat, i: nat): (nums: seq<nat>)
    requires NumbersReady(rows, width) && i < width
    ensures |nums| == |rows|
  {
    seq(|rows|, r requires 0 <= r < |rows| => NumeralValue(rows[r][i]))
  }

  /** Part 1 over the first `n` operator columns. */
  function Part1Total(rows: seq<seq<string>>, ops: seq<string>, n: nat): nat
    requires NumbersReady(rows, |ops|) && n <= |ops|
  {
    if n == 0 then 0
    else Part1Total(rows, ops, n - 1) + FoldColumn(ColumnValues(rows, |ops|, n - 1), |rows|, ops[n - 1])
  }

  /**
   * The part-1 loop: for each operator, fold its column of numbers and
   * collect the column's tokens for the width pass.
   */
  method Part1(rows: seq<seq<string>>, ops: seq<string>) returns (part1: nat, columns: seq<seq<string>>)
    requires NumbersReady(rows, |ops|)
    ensures part1 == Part1Total(rows, ops, |ops|)
    ensures |columns| == |ops|
    ensures forall i :: 0 <= i < |ops| ==> columns[i] == ColumnTokens(rows, i)
  {
    part1 := 0;
    columns := [];
    for i := 0 to |ops|
      invariant part1 == Part1Total(rows, ops, i)
      invariant |columns| == i
      invariant forall j :: 0 <= j < i ==> columns[j] == ColumnTokens(rows, j)
    {
      var column, value := FoldOne(rows, |ops|, i, ops[i]);
      part1 := part1 + value;
      columns := columns + [column];
    }
  }

  /** The fold over one column, pushing each token into `column` as it goes. */
  method FoldOne(rows: seq<seq<string>>, width: nat, i: nat, op: string) returns (column: seq<string>, acc: nat)
    requires NumbersReady(rows, width) && i < width
    ensures column == ColumnTokens(rows, i)
    ensures acc == FoldColumn(ColumnValues(rows, width, i), |rows|, op)
  {
    ghost var nums := ColumnValues(rows, width, i);
    column := [];
    acc := 0;
    for r := 0 to |rows|
      invariant |column| == r && forall k :: 0 <= k < r ==> column[k] == rows[k][i]
      invariant acc == FoldColumn(nums, r, op)
    {
      column := column + [rows[r][i]];
      var num := NumeralValue(rows[r][i]);
      assert num == nums[r];
      acc := Step(acc, num, op);
    }
  }

  // ------------------------------------------------------------- widths

  function Max(a: nat, b: nat): nat {
    if a >= b then a else b
  }

  /** The longest of the first `n` tokens of a column, 0 when there are none. */
  function MaxLength(column: seq<string>, n: nat): nat
    requires n <= |column|
  {
    if n == 0 then 0 else Max(MaxLength(column, n - 1), |column[n - 1]|)
  }

  /** The width is at least every token's length. */
  lemma {:induction false} MaxLengthIsUpperBound(column: seq<string>, n: nat)
    requires n <= |column|
    ensures forall k :: 0 <= k < n ==> |column[k]| <= MaxLength(column, n)
  {
    if n > 0 {
      MaxLengthIsUpperBound(column, n - 1);
    }
  }

  /** A non-empty column's width is the length of one of its tokens. */
  lemma {:induction false} MaxLengthAttained(column: seq<string>, n: nat) returns (k: nat)
    requires 0 < n <= |column|
    ensures k < n && |column[k]| == MaxLength(column, n)
  {
    if n == 1 || |column[n - 1]| >= MaxLength(column, n - 1) {
      k := n - 1;
    } else {
      k := MaxLengthAttained(column, n - 1);
    }
  }

  /** The width loop: the longest token of each collected column. */
  method ColumnLengths(columns: seq<seq<string>>) returns (lengths: seq<nat>)
    ensures |lengths| == |columns|
    ensures forall i :: 0 <= i < |columns| ==> lengths[i] == MaxLength(columns[i], |columns[i]|)
  {
    lengths := [];
    for i := 0 to |columns|
      invariant |lengths| == i
      invariant forall j :: 0 <= j < i ==> lengths[j] == MaxLength(columns[j], |columns[j]|)
    {
      var column := columns[i];
      var acc := 0;
      for k := 0 to |column|
        invariant acc == MaxLength(column, k)
      {
        acc := Max(acc, |column[k]|);
      }
      lengths := lengths + [acc];
    }
  }

  // ------------------------------------------------------------- slicing

  function Min(a: nat, b: nat): nat {
    if a <= b then a else b
  }

  /** Where field `i` starts: the widths before it, each followed by one separator. */
  function Offset(lengths: seq<nat>, i: nat): nat
    requires i <= |lengths|
  {
    if i == 0 then 0 else Offset(lengths, i - 1) + lengths[i - 1] + 1
  }

  /** No field starts past the end of the line; the source panics on such a slice. */
  predicate CanSlice(line: string, lengths: seq<nat>) {
    forall i :: 0 <= i < |lengths| ==> Offset(lengths, i) <= |line|
  }

  /** Field `i` of a line: `lengths[i]` characters from its offset, cut short at the end of the line. */
  function Field(line: string, lengths: seq<nat>, i: nat): (f: string)
    requires CanSlice(line, lengths) && i < |lengths|
    ensures |f| <= lengths[i]
  {
    var start := Offset(lengths, i);
    assert start <= |line|;
    line[start..Min(|line|, start + lengths[i])]
  }

  /** The slicing loop for one line, advancing `current` past each field and its separator. */
  method SliceLine(line: string, lengths: seq<nat>) returns (row: seq<string>)
    requires CanSlice(line, lengths)
    ensures |row| == |lengths|
    ensures forall i :: 0 <= i < |lengths| ==> row[i] == Field(line, lengths, i)
  {
    var current := 0;
    row := [];
    for i := 0 to |lengths|
      invariant current == Offset(lengths, i)
      invariant |row| == i
      invariant forall j :: 0 <= j < i ==> row[j] == Field(line, lengths, j)
    {
      var col := line[current..Min(|line|, current + lengths[i])];
      row := row + [col];
      current := current + lengths[i] + 1;
    }
  }

  /** All fields of a line. */
  function SlicedRow(line: string, lengths: seq<nat>): (row: seq<string>)
    requires CanSlice(line, lengths)
    ensures |row| == |lengths|
  {
    seq(|lengths|, i requires 0 <= i < |lengths| => Field(line, lengths, i))
  }

  /** The second pass over the lines: every line, the operator line included, cut into fields. */
  method SliceLines(lines: seq<string>, lengths: seq<nat>) returns (sliced: seq<seq<string>>)
    requires forall k :: 0 <= k < |lines| ==> CanSlice(lines[k], lengths)
    ensures |sliced| == |lines|
    ensures forall k :: 0 <= k < |lines| ==> sliced[k] == SlicedRow(lines[k], lengths)
  {
    sliced := [];
    for k := 0 to |lines|
      invariant |sliced| == k
      invariant forall j :: 0 <= j < k ==> sliced[j] == SlicedRow(lines[j], lengths)
    {
      var row := SliceLine(lines[k], lengths);
      sliced := sliced + [row];
    }
  }

  /** The first `n` cells separated by single spaces. */
  function JoinFields(cells: seq<string>, n: nat): string
    requires n <= |cells|
  {
    if n == 0 then "" else if n == 1 then cells[0] else JoinFields(cells, n - 1) + " " + cells[n - 1]
  }

  /** Every cell is exactly as wide as its column. */
  predicate FitsWidths(cells: seq<string>, lengths: seq<nat>) {
    |cells| == |lengths| && forall i :: 0 <= i < |cells| ==> |cells[i]| == lengths[i]
  }

  /** A line of `n` cells laid out to the column widths ends one character before `Offset(lengths, n)`. */
  lemma {:induction false} JoinFieldsLength(cells: seq<string>, lengths: seq<nat>, n: nat)
    requires FitsWidths(cells, lengths) && 0 < n <= |cells|
    ensures |JoinFields(cells, n)| + 1 == Offset(lengths, n)
  {
    if n > 1 {
      JoinFieldsLength(cells, lengths, n - 1);
    }
  }

  lemma SlicePrefix(front: string, back: string, a: nat, b: nat)
    requires a <= b <= |front|
    ensures (front + back)[a..b] == front[a..b]
  {
  }

  /**
   * In a line laid out with each cell padded to its column's width and one
   * space between columns, cell `i` sits at `Offset(lengths, i)`.
   */
  lemma {:induction false} JoinFieldsAt(cells: seq<string>, lengths: seq<nat>, n: nat, i: nat)
    requires FitsWidths(cells, lengths) && i < n <= |cells|
    ensures Offset(lengths, i) + lengths[i] <= |JoinFields(cells, n)|
    ensures JoinFields(cells, n)[Offset(lengths, i)..Offset(lengths, i) + lengths[i]] == cells[i]
  {
    if n == 1 {
      assert cells[0][0..lengths[0]] == cells[0];
    } else {
      var front := JoinFields(cells, n - 1);
      JoinFieldsLength(cells, lengths, n - 1);
      if i < n - 1 {
        JoinFieldsAt(cells, lengths, n - 1, i);
        SlicePrefix(front, " " + cells[n - 1], Offset(lengths, i), Offset(lengths, i) + lengths[i]);
        assert front + " " + cells[n - 1] == front + (" " + cells[n - 1]);
      } else {
        assert (front + " " + cells[n - 1])[|front| + 1..] == cells[n - 1];
      }
    }
  }

  /** Slicing a line laid out to the column widths gives back its cells. */
  lemma SliceJoinFields(cells: seq<string>, lengths: seq<nat>)
    requires FitsWidths(cells, lengths) && |cells| > 0
    ensures CanSlice(JoinFields(cells, |cells|), lengths)
    ensures forall i :: 0 <= i < |cells| ==> Field(JoinFields(cells, |cells|), lengths, i) == cells[i]
  {
    var line := JoinFields(cells, |cells|);
    forall i | 0 <= i < |cells| ensures Offset(lengths, i) + lengths[i] <= |line| {
      JoinFieldsAt(cells, lengths, |cells|, i);
    }
    forall i | 0 <= i < |cells| ensures Field(line, lengths, i) == cells[i] {
      JoinFieldsAt(cells, lengths, |cells|, i);
    }
  }

  // -------------------------------------------------------- transposition

  /**
   * The characters at index `l` of the first `n` cells, top to bottom,
   * leaving out cells too short to have one and the character ' '.
   */
  function DigitsAt(column: seq<string>, l: nat, n: nat): string
    requires n <= |column|
  {
    if n == 0 then ""
    else DigitsAt(column, l, n - 1) + (if l < |column[n - 1]| && column[n - 1][l] != ' ' then [column[n - 1][l]] else "")
  }

  /** Every position of the column yields a numeral; the source panics on parsing anything else. */
  predicate DigitsReady(column: seq<string>, width: nat) {
    forall l :: 0 <= l < width ==> IsNumeral(DigitsAt(column, l, |column|))
  }

  /** The numbers of a column read vertically: position `width - 1` first, position 0 last. */
  function ColumnNumbers(column: seq<string>, width: nat): (nums: seq<nat>)
    requires DigitsReady(column, width)
    ensures |nums| == width
  {
    seq(width, k requires 0 <= k < width => VerticalNumber(column, width, k))
  }

  /** The `k`-th number of a column, counting from its rightmost position. */
  function VerticalNumber(column: seq<string>, width: nat, k: nat): nat
    requires DigitsReady(column, width) && k < width
  {
    var l := width - 1 - k;
    assert IsNumeral(DigitsAt(column, l, |column|));
    NumeralValue(DigitsAt(column, l, |column|))
  }

  /**
   * A column in which every cell holds a digit at each position reads, at
   * each position, one digit per row: the vertical number has as many digits
   * as the column has rows.
   */
  lemma {:induction false} DigitsAtFull(column: seq<string>, l: nat, n: nat)
    requires n <= |column|
    requires forall r :: 0 <= r < n ==> l < |column[r]| && IsDigit(column[r][l])
    ensures |DigitsAt(column, l, n)| == n
    ensures forall r :: 0 <= r < n ==> DigitsAt(column, l, n)[r] == column[r][l]
  {
    if n > 0 {
      DigitsAtFull(column, l, n - 1);
    }
  }

  /** The loops of part 2 for one column: positions right to left, cells top to bottom. */
  method ReadColumn(column: seq<string>, width: nat) returns (numbers: seq<nat>)
    requires DigitsReady(column, width)
    ensures numbers == ColumnNumbers(column, width)
  {
    numbers := [];
    for k := 0 to width
      invariant |numbers| == k
      invariant forall j :: 0 <= j < k ==> numbers[j] == VerticalNumber(column, width, j)
    {
      var l := width - 1 - k;
      var number := "";
      for m := 0 to |column|
        invariant number == DigitsAt(column, l, m)
      {
        if l < |column[m]| && column[m][l] != ' ' {
          number := number + [column[m][l]];
        }
      }
      numbers := numbers + [NumeralValue(number)];
    }
  }

  // ------------------------------------------------------------------ part 2

  /** Every sliced row has one field per column, and every column reads as numbers. */
  predicate Part2Ready(grid: seq<seq<string>>, lengths: seq<nat>) {
    (forall r :: 0 <= r < |grid| ==> |grid[r]| == |lengths|)
    && forall i :: 0 <= i < |lengths| ==> lengths[i] >= 1 && DigitsReady(ColumnTokens(grid, i), lengths[i])
  }

  /** Part 2 over the first `n` columns: each column's numbers reduced under its operator. */
  function Part2Total(grid: seq<seq<string>>, ops: seq<string>, lengths: seq<nat>, n: nat): nat
    requires Part2Ready(grid, lengths) && |ops| == |lengths| && n <= |ops|
  {
    if n == 0 then 0
    else
      var nums := ColumnNumbers(ColumnTokens(grid, n - 1), lengths[n - 1]);
      Part2Total(grid, ops, lengths, n - 1) + Reduce(nums, |nums|, ops[n - 1])
  }

  /** The part-2 loop over the operators. */
  method Part2(grid: seq<seq<string>>, ops: seq<string>, lengths: seq<nat>) returns (part2: nat)
    requires Part2Ready(grid, lengths) && |ops| == |lengths|
    ensures part2 == Part2Total(grid, ops, lengths, |ops|)
  {
    part2 := 0;
    for i := 0 to |ops|
      invariant part2 == Part2Total(grid, ops, lengths, i)
    {
      var column := [];
      for r := 0 to |grid|
        invariant |column| == r && forall k :: 0 <= k < r ==> column[k] == grid[k][i]
      {
        column := column + [grid[r][i]];
      }
      assert column == ColumnTokens(grid, i);
      var numbers := ReadColumn(column, lengths[i]);
      part2 := part2 + Reduce(numbers, |numbers|, ops[i]);
    }
  }

  // ---------------------------------------------------------------- puzzle

  /** The number rows: every line's tokens but the last line's. */
  function Rows(lines: seq<string>): (rows: seq<seq<string>>)
    requires |lines| >= 1
    ensures |rows| == |lines| - 1
  {
    seq(|lines| - 1, k requires 0 <= k < |lines| - 1 => Tokens(lines[k]))
  }

  /** The operator row: the tokens of the last line. */
  function Operators(lines: seq<string>): seq<string>
    requires |lines| >= 1
  {
    Tokens(lines[|lines| - 1])
  }

  /** The column widths: the longest token of each operator column. */
  function Widths(lines: seq<string>): (lengths: seq<nat>)
    requires |lines| >= 1 && NumbersReady(Rows(lines), |Operators(lines)|)
    ensures |lengths| == |Operators(lines)|
  {
    var rows := Rows(lines);
    seq(|Operators(lines)|, i requires 0 <= i < |Operators(lines)| => MaxLength(ColumnTokens(rows, i), |rows|))
  }

  /** The fixed-width fields of every line but the last. */
  function SlicedRows(lines: seq<string>, lengths: seq<nat>): (grid: seq<seq<string>>)
    requires forall k :: 0 <= k < |lines| ==> CanSlice(lines[k], lengths)
    ensures |grid| == Max(|lines|, 1) - 1
  {
    seq(Max(|lines|, 1) - 1, k requires 0 <= k < |lines| - 1 => SlicedRow(lines[k], lengths))
  }

  /**
   * What the source needs not to panic: an operator line, a numeral in
   * every operator column of every number row, no field starting past the
   * end of a line, and a numeral at every position of every column.
   */
  predicate Ready(lines: seq<string>) {
    |lines| >= 1
    && NumbersReady(Rows(lines), |Operators(lines)|)
    && (forall k :: 0 <= k < |lines| ==> CanSlice(lines[k], Widths(lines)))
    && Part2Ready(SlicedRows(lines, Widths(lines)), Widths(lines))
  }

  /** The first pass: the token rows, with the last row taken off as the operators. */
  method ParseWorksheet(lines: seq<string>) returns (rows: seq<seq<string>>, operators: seq<string>)
    requires |lines| >= 1
    ensures rows == Rows(lines) && operators == Operators(lines)
  {
    var grid := TokenGridOf(lines);
    operators := grid[|grid| - 1];
    rows := grid[..|grid| - 1];
  }

  /** The widths the width loop computes from the part-1 columns are `Widths(lines)`. */
  lemma WidthsOfColumns(lines: seq<string>, columns: seq<seq<string>>, lengths: seq<nat>)
    requires |lines| >= 1 && NumbersReady(Rows(lines), |Operators(lines)|)
    requires |columns| == |Operators(lines)|
    requires forall i :: 0 <= i < |columns| ==> columns[i] == ColumnTokens(Rows(lines), i)
    requires |lengths| == |columns|
    requires forall i :: 0 <= i < |columns| ==> lengths[i] == MaxLength(columns[i], |columns[i]|)
    ensures lengths == Widths(lines)
  {
  }

  /** The puzzle answer for the lines of the input. */
  method Solve(lines: seq<string>) returns (solution: Solution)
    requires Ready(lines)
    ensures solution.part1 == Part1Total(Rows(lines), Operators(lines), |Operators(lines)|)
    ensures solution.part2 == Part2Total(SlicedRows(lines, Widths(lines)), Operators(lines), Widths(lines), |Operators(lines)|)
  {
    var grid, operators := ParseWorksheet(lines);
    var part1, columns := Part1(grid, operators);
    var lengths := ColumnLengths(columns);
    WidthsOfColumns(lines, columns, lengths);
    var sliced := SliceLines(lines, lengths);
    sliced := sliced[..|sliced| - 1];
    assert sliced == SlicedRows(lines, lengths);
    var part2 := Part2(sliced, operators, lengths);
    solution := Solution(part1, part2);
  }
}
