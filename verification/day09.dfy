/**
 * Day 9: red tiles at integer points. Part 1 is the largest rectangle with two
 * tiles at opposite corners, its area counted in tiles; pairs on a common row
 * or column do not span a rectangle and are skipped. The file also holds the
 * axis-aligned line expansion `make_line` and the set of candidate corner
 * pairs, each ordered by x, that part 2 starts from.
 */
module Day09 {
  import opened Wrappers

  /** `Point { x, y }` with `i64` coordinates. */
  datatype Point = Point(x: int, y: int)

  function Min(a: int, b: int): int {
    if a <= b then a else b
  }

  function Max(a: int, b: int): int {
    if a <= b then b else a
  }

  function Abs(a: int): nat {
    if a < 0 then -a else a
  }

  // -------------------------------------------------------------- make_line

  /**
   * The points `make_line` collects: every step of the half-open range between
   * the two coordinates that differ (y when the x are equal, x otherwise), the
   * other coordinate taken from `from`, and then `to` itself.
   */
  function LinePoints(from: Point, to: Point): (line: seq<Point>)
    ensures from.x == to.x ==> |line| == Abs(from.y - to.y) + 1
    ensures from.x != to.x ==> |line| == Abs(from.x - to.x) + 1
    ensures line[|line| - 1] == to
    ensures from.x == to.x ==> forall k :: 0 <= k < |line| - 1 ==> line[k] == Point(from.x, Min(from.y, to.y) + k)
    ensures from.x != to.x ==> forall k :: 0 <= k < |line| - 1 ==> line[k] == Point(Min(from.x, to.x) + k, from.y)
  {
    if from.x == to.x then
      var lo := Min(from.y, to.y);
      seq(Max(from.y, to.y) - lo, k => Point(from.x, lo + k)) + [to]
    else
      var lo := Min(from.x, to.x);
      seq(Max(from.x, to.x) - lo, k => Point(lo + k, from.y)) + [to]
  }

  /** `make_line`: the two loops of the source push the range, then `to` is pushed. */
  method MakeLine(from: Point, to: Point) returns (line: seq<Point>)
    ensures line == LinePoints(from, to)
  {
    line := [];
    if from.x == to.x {
      var lo := Min(from.y, to.y);
      for y := lo to Max(from.y, to.y)
        invariant |line| == y - lo
        invariant forall k :: 0 <= k < |line| ==> line[k] == Point(from.x, lo + k)
      {
        line := line + [Point(from.x, y)];
      }
    } else {
      var lo := Min(from.x, to.x);
      for x := lo to Max(from.x, to.x)
        invariant |line| == x - lo
        invariant forall k :: 0 <= k < |line| ==> line[k] == Point(lo + k, from.y)
      {
        line := line + [Point(x, from.y)];
      }
    }
    line := line + [to];
  }

  /** Along a vertical line every point keeps the x of `from`; along any other, all but `to` keep its y. */
  lemma LineKeepsCoordinate(from: Point, to: Point)
    ensures from.x == to.x ==> forall k :: 0 <= k < |LinePoints(from, to)| ==> LinePoints(from, to)[k].x == from.x
    ensures from.x != to.x ==> forall k :: 0 <= k < |LinePoints(from, to)| - 1 ==> LinePoints(from, to)[k].y == from.y
  {
  }

  /**
   * Walking towards larger coordinates along a row or a column, the line is
   * the whole segment from `from` to `to`, each point once.
   */
  lemma LineForward(from: Point, to: Point)
    requires (from.x == to.x && from.y <= to.y) || (from.x < to.x && from.y == to.y)
    ensures LinePoints(from, to) == Segment(from, to)
  {
    var line := LinePoints(from, to);
    var segment := Segment(from, to);
    assert |line| == |segment|;
    forall k | 0 <= k < |line| ensures line[k] == segment[k] {
    }
  }

  /**
   * Walking towards smaller coordinates, the line starts at `to`, ends at `to`
   * again and never reaches `from`: from (0, 5) to (0, 2) it is (0, 2), (0, 3),
   * (0, 4), (0, 2), and from (5, 0) to (2, 0) it is (2, 0), (3, 0), (4, 0),
   * (2, 0).
   */
  lemma LineBackwardMissesStart()
    ensures LinePoints(Point(0, 5), Point(0, 2)) == [Point(0, 2), Point(0, 3), Point(0, 4), Point(0, 2)]
    ensures Point(0, 5) !in LinePoints(Point(0, 5), Point(0, 2))
    ensures LinePoints(Point(5, 0), Point(2, 0)) == [Point(2, 0), Point(3, 0), Point(4, 0), Point(2, 0)]
    ensures Point(5, 0) !in LinePoints(Point(5, 0), Point(2, 0))
  {
    var column := LinePoints(Point(0, 5), Point(0, 2));
    assert column[0] == Point(0, 2) && column[1] == Point(0, 3) && column[2] == Point(0, 4);
    var row := LinePoints(Point(5, 0), Point(2, 0));
    assert row[0] == Point(2, 0) && row[1] == Point(3, 0) && row[2] == Point(4, 0);
  }

  /**
   * The closed segment between two points of one column (lowest y first) or
   * of one row (lowest x first): what the expansion is evidently meant to
   * produce in either direction.
   */
  function Segment(from: Point, to: Point): (line: seq<Point>)
    requires from.x == to.x || from.y == to.y
    ensures from.x == to.x ==> |line| == Abs(from.y - to.y) + 1
    ensures from.x != to.x ==> |line| == Abs(from.x - to.x) + 1
    ensures from.x == to.x ==> forall k :: 0 <= k < |line| ==> line[k] == Point(from.x, Min(from.y, to.y) + k)
    ensures from.x != to.x ==> forall k :: 0 <= k < |line| ==> line[k] == Point(Min(from.x, to.x) + k, from.y)
  {
    if from.x == to.x then
      var lo := Min(from.y, to.y);
      seq(Max(from.y, to.y) - lo + 1, k => Point(from.x, lo + k))
    else
      var lo := Min(from.x, to.x);
      seq(Max(from.x, to.x) - lo + 1, k => Point(lo + k, from.y))
  }

  /**
   * The segment holds both ends and exactly the points of the row or column
   * between them, each once.
   */
  lemma SegmentCovers(from: Point, to: Point)
    requires from.x == to.x || from.y == to.y
    ensures from in Segment(from, to) && to in Segment(from, to)
    ensures forall p :: p in Segment(from, to) <==>
              Min(from.x, to.x) <= p.x <= Max(from.x, to.x) && Min(from.y, to.y) <= p.y <= Max(from.y, to.y)
    ensures forall i, j :: 0 <= i < j < |Segment(from, to)| ==> Segment(from, to)[i] != Segment(from, to)[j]
  {
    var line := Segment(from, to);
    if from.x == to.x {
      var lo := Min(from.y, to.y);
      assert line[from.y - lo] == from;
      assert line[to.y - lo] == to;
      forall p: Point | p.x == from.x && lo <= p.y <= Max(from.y, to.y) ensures p in line {
        assert line[p.y - lo] == p;
      }
    } else {
      var lo := Min(from.x, to.x);
      assert line[from.x - lo] == from;
      assert line[to.x - lo] == to;
      forall p: Point | lo <= p.x <= Max(from.x, to.x) && p.y == from.y ensures p in line {
        assert line[p.x - lo] == p;
      }
    }
  }

  // ------------------------------------------------------------------ part 1

  /** The tiles of the rectangle with corners `p` and `q`, both inclusive. */
  function RectArea(p: Point, q: Point): nat {
    (Abs(p.x - q.x) + 1) * (Abs(p.y - q.y) + 1)
  }

  /** The `filter_map` closure: no rectangle for two tiles on a common row or column. */
  function Area(p: Point, q: Point): (r: Option<nat>)
    ensures r.Some? <==> p.x != q.x && p.y != q.y
    ensures r.Some? ==> r.value == RectArea(p, q) && r.value >= 4
  {
    if p.x == q.x || p.y == q.y then None
    else
      AreaAtLeastFour(Abs(p.x - q.x), Abs(p.y - q.y));
      Some(RectArea(p, q))
  }

  lemma AreaAtLeastFour(a: nat, b: nat)
    requires a >= 1 && b >= 1
    ensures (a + 1) * (b + 1) >= 4
  {
    assert (a + 1) * (b + 1) == a * b + a + b + 1;
    assert a * b >= 1 by {
      assert a * b >= 1 * b;
    }
  }

  /** Swapping the corners changes neither whether there is a rectangle nor its area. */
  lemma AreaSymmetric(p: Point, q: Point)
    ensures Area(p, q) == Area(q, p)
  {
  }

  /** The areas `p` makes with each of `rest`, in order. */
  function AreasWith(p: Point, rest: seq<Point>): (areas: seq<nat>)
    ensures forall a :: a in areas <==> exists j :: 0 <= j < |rest| && Area(p, rest[j]) == Some(a)
  {
    if rest == [] then []
    else
      var tail := AreasWith(p, rest[1..]);
      assert forall j :: 1 <= j < |rest| ==> rest[j] == rest[1..][j - 1];
      (match Area(p, rest[0]) case Some(a) => [a] case None => []) + tail
  }

  /** `combinations(2).filter_map(...)`: the areas of the pairs i < j, in that order. */
  function Areas(points: seq<Point>): (areas: seq<nat>)
    ensures forall a :: a in areas <==>
              exists i, j :: 0 <= i < j < |points| && Area(points[i], points[j]) == Some(a)
  {
    if |points| < 2 then []
    else
      var rest := Areas(points[1..]);
      var first := AreasWith(points[0], points[1..]);
      AreasShift(points);
      first + rest
  }

  lemma AreasShift(points: seq<Point>)
    requires |points| >= 2
    ensures forall i, j :: 0 <= i < j < |points| - 1 ==>
              points[1..][i] == points[i + 1] && points[1..][j] == points[j + 1]
  {
  }

  /** `.max()`: the largest element, `None` for the empty sequence. */
  function MaxOf(s: seq<nat>): (r: Option<nat>)
    ensures r.None? <==> s == []
    ensures r.Some? ==> r.value in s && forall a :: a in s ==> a <= r.value
  {
    if s == [] then None
    else
      assert forall a :: a in s ==> a == s[0] || a in s[1..];
      match MaxOf(s[1..])
      case None => Some(s[0])
      case Some(m) => Some(if s[0] >= m then s[0] else m)
  }

  /** Part 1: `max().unwrap_or(0)`. */
  function Part1(points: seq<Point>): nat {
    MaxOf(Areas(points)).UnwrapOr(0)
  }

  /**
   * Part 1 is at least the area of every pair of tiles that spans a
   * rectangle, equals the area of one such pair when there is any, and is 0
   * when there is none.
   */
  lemma Part1IsLargest(points: seq<Point>)
    ensures forall i, j :: 0 <= i < j < |points| && points[i].x != points[j].x && points[i].y != points[j].y ==>
              RectArea(points[i], points[j]) <= Part1(points)
    ensures Part1(points) == 0 <==>
              forall i, j :: 0 <= i < j < |points| ==> points[i].x == points[j].x || points[i].y == points[j].y
    ensures Part1(points) != 0 ==>
              exists i, j :: 0 <= i < j < |points| && Area(points[i], points[j]) == Some(Part1(points))
  {
    var areas := Areas(points);
    forall i, j | 0 <= i < j < |points| && points[i].x != points[j].x && points[i].y != points[j].y
      ensures RectArea(points[i], points[j]) <= Part1(points)
    {
      assert RectArea(points[i], points[j]) in areas;
    }
  }

  // -------------------------------------------------------------- candidates

  /** The pair ordered so that the smaller x comes first. */
  function Normalize(p: Point, q: Point): (r: (Point, Point))
    requires p.x != q.x
    ensures r.0.x < r.1.x
    ensures r == (p, q) || r == (q, p)
  {
    if p.x < q.x then (p, q) else (q, p)
  }

  /** Whether the pair of the `i`-th and `j`-th tiles spans a rectangle. */
  predicate Spans(points: seq<Point>, i: nat, j: nat)
    requires i < |points| && j < |points|
  {
    points[i].x != points[j].x && points[i].y != points[j].y
  }

  /** The candidates from the `i`-th tile paired with each later tile before index `j`. */
  function RowCandidates(points: seq<Point>, i: nat, j: nat): set<(Point, Point)>
    requires i < |points| && j <= |points|
  {
    if j <= i + 1 then {}
    else
      RowCandidates(points, i, j - 1)
      + if Spans(points, i, j - 1) then {Normalize(points[i], points[j - 1])} else {}
  }

  /** The candidates from the pairs whose first tile comes before index `i`. */
  function CandidatesBefore(points: seq<Point>, i: nat): set<(Point, Point)>
    requires i <= |points|
  {
    if i == 0 then {} else CandidatesBefore(points, i - 1) + RowCandidates(points, i - 1, |points|)
  }

  lemma {:induction false} RowCandidatesMeans(points: seq<Point>, i: nat, j: nat, c: (Point, Point))
    requires i < |points| && j <= |points|
    ensures c in RowCandidates(points, i, j) <==>
              exists b :: i < b < j && Spans(points, i, b) && c == Normalize(points[i], points[b])
  {
    if j > i + 1 {
      RowCandidatesMeans(points, i, j - 1, c);
    }
  }

  lemma {:induction false} CandidatesBeforeMeans(points: seq<Point>, i: nat, c: (Point, Point))
    requires i <= |points|
    ensures c in CandidatesBefore(points, i) <==>
              exists a, b :: 0 <= a < i && a < b < |points| && Spans(points, a, b) && c == Normalize(points[a], points[b])
  {
    if i > 0 {
      CandidatesBeforeMeans(points, i - 1, c);
      RowCandidatesMeans(points, i - 1, |points|, c);
    }
  }

  /** The candidate set: every pair i < j spanning a rectangle, ordered by x. */
  function CandidateSet(points: seq<Point>): set<(Point, Point)> {
    CandidatesBefore(points, |points|)
  }

  /**
   * The candidate loop over the pairs i < j: pairs on a common row or column are
   * skipped, the others are inserted with the smaller x first.
   */
  method Candidates(points: seq<Point>) returns (candidates: set<(Point, Point)>)
    ensures candidates == CandidateSet(points)
  {
    candidates := {};
    for i := 0 to |points|
      invariant candidates == CandidatesBefore(points, i)
    {
      for j := i + 1 to |points|
        invariant candidates == CandidatesBefore(points, i) + RowCandidates(points, i, j)
      {
        if points[i].x == points[j].x || points[i].y == points[j].y {
          continue;
        }
        candidates := candidates + {Normalize(points[i], points[j])};
      }
    }
  }

  /** Every candidate is ordered by x and spans a rectangle whose area part 1 already weighed. */
  lemma CandidatesFacts(points: seq<Point>)
    ensures forall c :: c in CandidateSet(points) ==>
              c.0.x < c.1.x && c.0.y != c.1.y && RectArea(c.0, c.1) in Areas(points)
    ensures forall i, j :: 0 <= i < j < |points| && Spans(points, i, j) ==>
              Normalize(points[i], points[j]) in CandidateSet(points)
  {
    forall c | c in CandidateSet(points)
      ensures c.0.x < c.1.x && c.0.y != c.1.y && RectArea(c.0, c.1) in Areas(points)
    {
      CandidatesBeforeMeans(points, |points|, c);
      var i, j :| 0 <= i < |points| && i < j < |points| && Spans(points, i, j) && c == Normalize(points[i], points[j]);
      AreaSymmetric(points[i], points[j]);
    }
    forall i, j | 0 <= i < j < |points| && Spans(points, i, j)
      ensures Normalize(points[i], points[j]) in CandidateSet(points)
    {
      CandidatesBeforeMeans(points, |points|, Normalize(points[i], points[j]));
    }
  }
}
