/**
 * Day 12: presents of a few shapes are to be packed into rectangular
 * regions. The input lists the shapes as blocks of `#` cells, then one line
 * per region: its width and height and how many presents of each shape it
 * must hold. `can_fit` accepts a region when the presents' cells do not
 * outnumber the region's cells and the region has at least nine cells per
 * shape; part 1 counts the regions it accepts.
 */
module Day12 {
  import opened Wrappers
  import opened Text
  import opened Grids
  import Sets

  /** `Shape`: the (row, column) cells marked `#`, rows counted after the header line. */
  type Shape = set<(nat, nat)>

  /** `Space`: the region's grid, of which only the dimensions are read, and the presents it needs. */
  datatype Space = Space(dimensions: Dimensions, required: seq<nat>)

  // -------------------------------------------------------------- blocks

  /** A blank-line separator `"\n\n"` starts at index `k` of `s`. */
  predicate BlankAt(s: string, k: int) {
    0 <= k && k + 1 < |s| && s[k] == '\n' && s[k + 1] == '\n'
  }

  /** A piece holds no separator. */
  predicate NoBlank(s: string) {
    forall k :: 0 <= k < |s| ==> !BlankAt(s, k)
  }

  /** Index of the first blank-line separator `"\n\n"` in `s`, or `|s|` when there is none. */
  function IndexOfBlank(s: string): (i: nat)
    ensures i <= |s|
    ensures i < |s| ==> BlankAt(s, i)
    ensures forall k :: 0 <= k < i ==> !BlankAt(s, k)
    decreases |s|
  {
    if |s| < 2 then |s|
    else if s[0] == '\n' && s[1] == '\n' then 0
    else
      var j := IndexOfBlank(s[1..]);
      assert forall k :: 1 <= k <= j ==> (BlankAt(s, k) <==> BlankAt(s[1..], k - 1));
      1 + j
  }

  /**
   * `input.split("\n\n")`: the pieces between separators, scanning from the
   * left; never empty, and no piece holds a separator.
   */
  function SplitBlocks(s: string): (blocks: seq<string>)
    ensures |blocks| >= 1
    ensures forall b :: 0 <= b < |blocks| ==> NoBlank(blocks[b])
    decreases |s|
  {
    var i := IndexOfBlank(s);
    if i == |s| then [s]
    else
      var rest := SplitBlocks(s[i + 2..]);
      assert forall k :: 0 <= k < i ==> (BlankAt(s[..i], k) ==> BlankAt(s, k));
      [s[..i]] + rest
  }

  /** The pieces joined back with the separator. */
  function JoinBlocks(blocks: seq<string>): string
    requires |blocks| >= 1
  {
    if |blocks| == 1 then blocks[0] else blocks[0] + "\n\n" + JoinBlocks(blocks[1..])
  }

  /** Splitting loses nothing: joining the pieces with the separator gives the input back. */
  lemma {:induction false} JoinSplitBlocks(s: string)
    ensures JoinBlocks(SplitBlocks(s)) == s
    decreases |s|
  {
    var i := IndexOfBlank(s);
    if i < |s| {
      var rest := s[i + 2..];
      var blocks := SplitBlocks(s);
      JoinSplitBlocks(rest);
      assert blocks == [s[..i]] + SplitBlocks(rest);
      assert blocks[1..] == SplitBlocks(rest);
      assert JoinBlocks(blocks) == s[..i] + "\n\n" + JoinBlocks(SplitBlocks(rest));
      assert s == s[..i] + "\n\n" + rest;
    }
  }

  // -------------------------------------------------------------- shapes

  /** The lines of a shape block after its header line. */
  function ShapeRows(block: string): seq<string> {
    var lines := Lines(block);
    if lines == [] then [] else lines[1..]
  }

  /** The shape a block describes. */
  function ShapeOf(block: string): Shape {
    var rows := ShapeRows(block);
    set r: nat, c: nat | r < |rows| && c < |rows[r]| && rows[r][c] == '#' :: (r, c)
  }

  /** The closure over one block: every `#` of the rows after the header is inserted, and nothing else. */
  method ParseShape(block: string) returns (cells: Shape)
    ensures forall r: nat, c: nat :: (r, c) in cells <==>
              var rows := ShapeRows(block); r < |rows| && c < |rows[r]| && rows[r][c] == '#'
    ensures cells == ShapeOf(block)
  {
    var rows := ShapeRows(block);
    cells := {};
    for r := 0 to |rows|
      invariant forall p :: p in cells <==> p.0 < r && p.1 < |rows[p.0]| && rows[p.0][p.1] == '#'
    {
      for c := 0 to |rows[r]|
        invariant forall p :: p in cells <==>
                    (p.0 < r && p.1 < |rows[p.0]| && rows[p.0][p.1] == '#') || (p.0 == r && p.1 < c && rows[r][p.1] == '#')
      {
        if rows[r][c] == '#' {
          cells := cells + {(r, c)};
        }
      }
    }
  }

  // ------------------------------------------------------------- regions

  /** `map(|i| i.parse::<usize>().unwrap())`: `None` where the source panics. */
  function ParseAll(pieces: seq<string>): (r: Option<seq<nat>>)
    ensures r.Some? <==> forall k :: 0 <= k < |pieces| ==> IsNumeral(pieces[k])
    ensures r.Some? ==> |r.value| == |pieces| && forall k :: 0 <= k < |pieces| ==> r.value[k] == NumeralValue(pieces[k])
  {
    if pieces == [] then Some([])
    else match (ParseNat(pieces[0]), ParseAll(pieces[1..]))
      case (Some(n), Some(rest)) => Some([n] + rest)
      case _ => None
  }

  /**
   * A region line `WxH: a b c`: the width before the `x`, the height after
   * it, and the grid built from `(rows, cols)`, that is `(H, W)`. `None`
   * where the source panics on an `unwrap`.
   */
  function ParseRegion(line: string): Option<Space> {
    match SplitOnce(line, ':')
    case None => None
    case Some((dim, rest)) =>
      match SplitOnce(dim, 'x')
      case None => None
      case Some((width, height)) =>
        match (ParseAll(Split(Trim(rest), ' ')), ParseNat(height), ParseNat(width))
        case (Some(required), Some(rows), Some(cols)) => Some(Space(Dimensions(rows, cols), required))
        case _ => None
  }

  /** A numeral list joined with single spaces. */
  function JoinNumbers(ns: seq<nat>): string
    requires |ns| >= 1
  {
    if |ns| == 1 then ToDecimal(ns[0]) else ToDecimal(ns[0]) + " " + JoinNumbers(ns[1..])
  }

  /** The line that describes a region: width, `x`, height, `:`, then the counts after a space. */
  function FormatRegion(space: Space): string
    requires |space.required| >= 1
  {
    ToDecimal(space.dimensions.cols) + "x" + ToDecimal(space.dimensions.rows) + ": " + JoinNumbers(space.required)
  }

  /** Reading a region line back gives the region: width first, then height, then the counts. */
  lemma FormatParseRegion(space: Space)
    requires |space.required| >= 1
    ensures ParseRegion(FormatRegion(space)) == Some(space)
  {
    var width, height := ToDecimal(space.dimensions.cols), ToDecimal(space.dimensions.rows);
    var counts := JoinNumbers(space.required);
    var dim := width + "x" + height;
    NumeralHasNoSeparator(width);
    NumeralHasNoSeparator(height);
    JoinNumbersChars(space.required);
    assert FormatRegion(space) == dim + [':'] + (" " + counts);
    SplitOnceAt(dim, ':', " " + counts);
    assert dim == width + ['x'] + height;
    SplitOnceAt(width, 'x', height);
    TrimLeadingSpace(counts);
    SplitJoinNumbers(space.required);
    ParseToDecimal(space.dimensions.cols);
    ParseToDecimal(space.dimensions.rows);
  }

  lemma NumeralHasNoSeparator(s: string)
    requires IsNumeral(s)
    ensures ':' !in s && 'x' !in s && ' ' !in s && |s| >= 1 && !IsSpace(s[0]) && !IsSpace(s[|s| - 1])
  {
  }

  /** What `JoinNumbers` is made of: digits and spaces, with a digit at both ends. */
  lemma {:induction false} JoinNumbersChars(ns: seq<nat>)
    requires |ns| >= 1
    ensures var s := JoinNumbers(ns);
              ':' !in s && 'x' !in s && |s| >= 1 && IsDigit(s[0]) && IsDigit(s[|s| - 1])
  {
    var first := ToDecimal(ns[0]);
    NumeralHasNoSeparator(first);
    if |ns| > 1 {
      JoinNumbersChars(ns[1..]);
      var rest := JoinNumbers(ns[1..]);
      assert JoinNumbers(ns) == first + " " + rest;
    }
  }

  /** `split_once` splits at a separator that the first part does not contain. */
  lemma SplitOnceAt(l: string, c: char, r: string)
    requires c !in l
    ensures SplitOnce(l + [c] + r, c) == Some((l, r))
  {
    var s := l + [c] + r;
    IndexOfAfter(l, c, r);
    assert s[..|l|] == l;
    assert s[|l| + 1..] == r;
  }

  /** `trim` removes the single space in front of the counts and nothing else. */
  lemma TrimLeadingSpace(s: string)
    requires |s| >= 1 && IsDigit(s[0]) && IsDigit(s[|s| - 1])
    ensures Trim(" " + s) == s
  {
    assert (" " + s)[1..] == s;
  }

  /** Splitting the joined counts on spaces gives back one numeral per count. */
  lemma {:induction false} SplitJoinNumbers(ns: seq<nat>)
    requires |ns| >= 1
    ensures ParseAll(Split(JoinNumbers(ns), ' ')) == Some(ns)
  {
    if |ns| == 1 {
      SplitJoinOne(ns[0]);
      assert ns == [ns[0]];
    } else {
      SplitJoinNumbers(ns[1..]);
      SplitJoinStep(ns);
    }
  }

  lemma SplitJoinOne(n: nat)
    ensures ParseAll(Split(JoinNumbers([n]), ' ')) == Some([n])
  {
    var first := ToDecimal(n);
    NumeralHasNoSeparator(first);
    ParseToDecimal(n);
    IndexOfMissing(first, ' ');
    assert JoinNumbers([n]) == first;
    assert Split(first, ' ') == [first] + [];
    ParseAllCons(first, []);
    assert [n] + [] == [n];
  }

  lemma SplitJoinStep(ns: seq<nat>)
    requires |ns| > 1 && ParseAll(Split(JoinNumbers(ns[1..]), ' ')) == Some(ns[1..])
    ensures ParseAll(Split(JoinNumbers(ns), ' ')) == Some(ns)
  {
    var first, rest := ToDecimal(ns[0]), JoinNumbers(ns[1..]);
    NumeralHasNoSeparator(first);
    ParseToDecimal(ns[0]);
    assert JoinNumbers(ns) == first + [' '] + rest;
    SplitAt(first, ' ', rest);
    ParseAllCons(first, Split(rest, ' '));
    assert ns == [ns[0]] + ns[1..];
  }

  /** `split` cuts at a separator that the first piece does not contain. */
  lemma SplitAt(l: string, c: char, r: string)
    requires c !in l
    ensures Split(l + [c] + r, c) == [l] + Split(r, c)
  {
    var s := l + [c] + r;
    IndexOfAfter(l, c, r);
    assert s[..|l|] == l;
    assert s[|l| + 1..] == r;
  }

  lemma ParseAllCons(piece: string, pieces: seq<string>)
    ensures ParseAll([piece] + pieces) ==
              match (ParseNat(piece), ParseAll(pieces))
              case (Some(n), Some(rest)) => Some([n] + rest)
              case _ => None
  {
    assert ([piece] + pieces)[1..] == pieces;
  }

  lemma IndexOfMissing(s: string, c: char)
    requires c !in s
    ensures IndexOf(s, c) == |s|
  {
  }

  // -------------------------------------------------------------- can_fit

  /** `rows * cols`: the number of cells of the region. */
  function Area(d: Dimensions): nat {
    d.rows * d.cols
  }

  /** `Σ required[idx] * |shapes[idx]|` over the first `count` shapes. */
  function PresentsArea(required: seq<nat>, shapes: seq<Shape>, count: nat): nat
    requires count <= |shapes| <= |required|
  {
    if count == 0 then 0
    else PresentsArea(required, shapes, count - 1) + required[count - 1] * |shapes[count - 1]|
  }

  /**
   * `can_fit`: the presents' cells fit in the region's area, and the region
   * has nine cells for every shape. Indexing `required_presents` by shape
   * panics unless there is a count for every shape.
   */
  predicate CanFit(space: Space, shapes: seq<Shape>)
    requires |space.required| >= |shapes|
  {
    PresentsArea(space.required, shapes, |shapes|) <= Area(space.dimensions)
    && |shapes| * 9 <= Area(space.dimensions)
  }

  /** A region at least as large in both directions accepts whatever the smaller one accepts. */
  lemma CanFitMonotone(space: Space, larger: Dimensions, shapes: seq<Shape>)
    requires |space.required| >= |shapes|
    requires larger.rows >= space.dimensions.rows && larger.cols >= space.dimensions.cols
    requires CanFit(space, shapes)
    ensures CanFit(Space(larger, space.required), shapes)
  {
    AreaMonotone(space.dimensions, larger);
  }

  lemma AreaMonotone(d: Dimensions, e: Dimensions)
    requires e.rows >= d.rows && e.cols >= d.cols
    ensures Area(e) >= Area(d)
  {
    assert e.rows * e.cols >= d.rows * e.cols;
  }

  /** Asking for no more presents of any shape keeps the region accepted. */
  lemma CanFitFewer(space: Space, fewer: seq<nat>, shapes: seq<Shape>)
    requires |space.required| >= |shapes| && |fewer| == |space.required|
    requires forall k :: 0 <= k < |fewer| ==> fewer[k] <= space.required[k]
    requires CanFit(space, shapes)
    ensures CanFit(Space(space.dimensions, fewer), shapes)
  {
    PresentsAreaMonotone(fewer, space.required, shapes, |shapes|);
  }

  lemma {:induction false} PresentsAreaMonotone(fewer: seq<nat>, required: seq<nat>, shapes: seq<Shape>, count: nat)
    requires count <= |shapes| <= |required| && |fewer| == |required|
    requires forall k :: 0 <= k < |fewer| ==> fewer[k] <= required[k]
    ensures PresentsArea(fewer, shapes, count) <= PresentsArea(required, shapes, count)
  {
    if count > 0 {
      PresentsAreaMonotone(fewer, required, shapes, count - 1);
      var k := count - 1;
      assert fewer[k] * |shapes[k]| <= required[k] * |shapes[k]|;
    }
  }

  // -------------------------------------------- what the area test means

  /** The presents one by one: `required[idx]` copies of shape `idx`, shape by shape. */
  function Presents(required: seq<nat>, shapes: seq<Shape>, count: nat): seq<Shape>
    requires count <= |shapes| <= |required|
  {
    if count == 0 then []
    else Presents(required, shapes, count - 1) + Copies(shapes[count - 1], required[count - 1])
  }

  function Copies(shape: Shape, n: nat): (r: seq<Shape>)
    ensures |r| == n && forall k :: 0 <= k < n ==> r[k] == shape
  {
    if n == 0 then [] else Copies(shape, n - 1) + [shape]
  }

  /** The cells of the presents, counted one present at a time. */
  function TotalCells(presents: seq<Shape>): nat {
    if presents == [] then 0 else TotalCells(presents[..|presents| - 1]) + |presents[|presents| - 1]|
  }

  lemma {:induction false} TotalCellsAppend(a: seq<Shape>, b: seq<Shape>)
    ensures TotalCells(a + b) == TotalCells(a) + TotalCells(b)
    decreases |b|
  {
    if b != [] {
      var init := b[..|b| - 1];
      TotalCellsAppend(a, init);
      assert (a + b)[..|a + b| - 1] == a + init;
      assert (a + b)[|a + b| - 1] == b[|b| - 1];
      assert TotalCells(a + b) == TotalCells(a + init) + |b[|b| - 1]|;
    } else {
      assert a + b == a;
    }
  }

  lemma {:induction false} TotalCellsCopies(shape: Shape, n: nat)
    ensures TotalCells(Copies(shape, n)) == n * |shape|
  {
    if n > 0 {
      TotalCellsCopies(shape, n - 1);
      assert Copies(shape, n)[..n - 1] == Copies(shape, n - 1);
      MultiplyStep(n, |shape|);
    }
  }

  lemma MultiplyStep(n: nat, m: nat)
    requires n > 0
    ensures (n - 1) * m + m == n * m
  {
  }

  /** The sum `can_fit` computes is the number of cells of all the presents. */
  lemma {:induction false} PresentsAreaIsTotal(required: seq<nat>, shapes: seq<Shape>, count: nat)
    requires count <= |shapes| <= |required|
    ensures PresentsArea(required, shapes, count) == TotalCells(Presents(required, shapes, count))
  {
    if count > 0 {
      PresentsAreaIsTotal(required, shapes, count - 1);
      TotalCellsAppend(Presents(required, shapes, count - 1), Copies(shapes[count - 1], required[count - 1]));
      TotalCellsCopies(shapes[count - 1], required[count - 1]);
    }
  }

  /** The cells of a `rows` x `cols` region. */
  ghost function Box(d: Dimensions): set<(nat, nat)> {
    set r: nat, c: nat | r < d.rows && c < d.cols :: (r, c)
  }

  /**
   * A packing: each present placed as a set of region cells of its own size
   * (any translation, rotation or reflection keeps the size), no two
   * presents sharing a cell.
   */
  ghost predicate Packing(pieces: seq<set<(nat, nat)>>, presents: seq<Shape>, d: Dimensions) {
    |pieces| == |presents|
    && (forall k :: 0 <= k < |pieces| ==> |pieces[k]| == |presents[k]| && pieces[k] <= Box(d))
    && forall j, k :: 0 <= j < k < |pieces| ==> pieces[j] !! pieces[k]
  }

  /** Every cell of the union of the pieces. */
  ghost function Union(pieces: seq<set<(nat, nat)>>): set<(nat, nat)> {
    if pieces == [] then {} else Union(pieces[..|pieces| - 1]) + pieces[|pieces| - 1]
  }

  lemma {:induction false} UnionOfPacking(pieces: seq<set<(nat, nat)>>, presents: seq<Shape>, d: Dimensions)
    requires Packing(pieces, presents, d)
    ensures |Union(pieces)| == TotalCells(presents) && Union(pieces) <= Box(d)
  {
    if pieces != [] {
      var n := |pieces| - 1;
      var init, last := pieces[..n], pieces[n];
      assert Packing(init, presents[..n], d);
      UnionOfPacking(init, presents[..n], d);
      forall p | p in Union(init) ensures p !in last {
        var j := UnionMember(init, p);
        assert init[j] == pieces[j];
      }
      assert Union(init) * last == {};
    }
  }

  lemma {:induction false} UnionMember(pieces: seq<set<(nat, nat)>>, p: (nat, nat)) returns (j: nat)
    requires p in Union(pieces)
    ensures j < |pieces| && p in pieces[j]
  {
    var n := |pieces| - 1;
    if p in pieces[n] {
      j := n;
    } else {
      j := UnionMember(pieces[..n], p);
    }
  }

  lemma {:induction false} BoxSize(d: Dimensions)
    ensures |Box(d)| == Area(d)
    decreases d.rows
  {
    if d.rows > 0 {
      var above := Dimensions(d.rows - 1, d.cols);
      BoxSize(above);
      var row := Row(d.rows - 1, d.cols);
      RowSize(d.rows - 1, d.cols);
      assert Box(d) == Box(above) + row;
      assert Box(above) * row == {};
      assert |Box(d)| == |Box(above)| + |row|;
      AreaStep(d);
    }
  }

  lemma AreaStep(d: Dimensions)
    requires d.rows > 0
    ensures Area(d) == Area(Dimensions(d.rows - 1, d.cols)) + d.cols
  {
    assert d.rows * d.cols == (d.rows - 1) * d.cols + d.cols;
  }

  /** The cells of row `r` of a region `cols` wide. */
  ghost function Row(r: nat, cols: nat): set<(nat, nat)> {
    set c: nat | c < cols :: (r, c)
  }

  lemma {:induction false} RowSize(r: nat, cols: nat)
    ensures |Row(r, cols)| == cols
  {
    if cols > 0 {
      RowSize(r, cols - 1);
      assert Row(r, cols) == Row(r, cols - 1) + {(r, cols - 1)};
    }
  }

  /** Presents that can be packed into a region never have more cells than the region. */
  lemma PackingNeedsArea(pieces: seq<set<(nat, nat)>>, presents: seq<Shape>, d: Dimensions)
    requires Packing(pieces, presents, d)
    ensures TotalCells(presents) <= Area(d)
  {
    UnionOfPacking(pieces, presents, d);
    Sets.SubsetSize(Union(pieces), Box(d));
    BoxSize(d);
  }

  /** A region that fails the area test cannot hold its presents, however they are placed. */
  lemma RejectedCannotPack(space: Space, shapes: seq<Shape>, pieces: seq<set<(nat, nat)>>)
    requires |space.required| >= |shapes|
    requires PresentsArea(space.required, shapes, |shapes|) > Area(space.dimensions)
    ensures !Packing(pieces, Presents(space.required, shapes, |shapes|), space.dimensions)
  {
    PresentsAreaIsTotal(space.required, shapes, |shapes|);
    if Packing(pieces, Presents(space.required, shapes, |shapes|), space.dimensions) {
      PackingNeedsArea(pieces, Presents(space.required, shapes, |shapes|), space.dimensions);
    }
  }

  // ---------------------------------------------------------------- main

  /** `spaces.filter(|p| can_fit(p, shapes.clone())).count()`. */
  function CountFitting(spaces: seq<Space>, shapes: seq<Shape>): nat
    requires forall k :: 0 <= k < |spaces| ==> |spaces[k].required| >= |shapes|
  {
    if spaces == [] then 0
    else CountFitting(spaces[..|spaces| - 1], shapes) + (if CanFit(spaces[|spaces| - 1], shapes) then 1 else 0)
  }

  /** The count is the number of regions accepted. */
  lemma {:induction false} CountFittingMeans(spaces: seq<Space>, shapes: seq<Shape>)
    requires forall k :: 0 <= k < |spaces| ==> |spaces[k].required| >= |shapes|
    ensures CountFitting(spaces, shapes) == |set k | 0 <= k < |spaces| && CanFit(spaces[k], shapes)|
  {
    if spaces != [] {
      var n := |spaces| - 1;
      var init := spaces[..n];
      CountFittingMeans(init, shapes);
      var before := set k | 0 <= k < n && CanFit(init[k], shapes);
      var all := set k | 0 <= k < |spaces| && CanFit(spaces[k], shapes);
      assert before == set k | 0 <= k < n && CanFit(spaces[k], shapes);
      if CanFit(spaces[n], shapes) {
        assert all == before + {n};
      } else {
        assert all == before;
      }
    }
  }

  /** The shape blocks are every block but the last; the last holds the region lines. */
  function ShapeBlocks(input: string): seq<string> {
    var blocks := SplitBlocks(input);
    blocks[..|blocks| - 1]
  }

  function RegionLines(input: string): seq<string> {
    var blocks := SplitBlocks(input);
    Lines(blocks[|blocks| - 1])
  }

  function Shapes(input: string): (shapes: seq<Shape>)
    ensures |shapes| == |ShapeBlocks(input)|
    ensures forall k :: 0 <= k < |shapes| ==> shapes[k] == ShapeOf(ShapeBlocks(input)[k])
  {
    var blocks := ShapeBlocks(input);
    seq(|blocks|, k requires 0 <= k < |blocks| => ShapeOf(blocks[k]))
  }

  /** Every region line parses and names a count for every shape: otherwise the source panics. */
  predicate WellFormed(input: string) {
    var lines := RegionLines(input);
    forall k :: 0 <= k < |lines| ==>
      ParseRegion(lines[k]).Some? && |ParseRegion(lines[k]).value.required| >= |ShapeBlocks(input)|
  }

  function Spaces(input: string): (spaces: seq<Space>)
    requires WellFormed(input)
    ensures |spaces| == |RegionLines(input)|
    ensures forall k :: 0 <= k < |spaces| ==> |spaces[k].required| >= |Shapes(input)|
  {
    var lines := RegionLines(input);
    seq(|lines|, k requires 0 <= k < |lines| => ParseRegion(lines[k]).value)
  }

  /** The `map(...).collect()` over the shape blocks. */
  method ParseShapes(blocks: seq<string>) returns (shapes: seq<Shape>)
    ensures |shapes| == |blocks| && forall k :: 0 <= k < |blocks| ==> shapes[k] == ShapeOf(blocks[k])
  {
    shapes := [];
    for k := 0 to |blocks|
      invariant |shapes| == k && forall j :: 0 <= j < k ==> shapes[j] == ShapeOf(blocks[j])
    {
      var cells := ParseShape(blocks[k]);
      shapes := shapes + [cells];
    }
  }

  /** `main`: parse the shapes and the regions, count the regions that fit; part 2 is 0. */
  method Solve(input: string) returns (part1: nat, part2: nat)
    requires WellFormed(input)
    ensures part1 == CountFitting(Spaces(input), Shapes(input))
    ensures part2 == 0
  {
    var shapes := ParseShapes(ShapeBlocks(input));
    assert shapes == Shapes(input);
    part1 := CountFitting(Spaces(input), shapes);
    part2 := 0;
  }
}
