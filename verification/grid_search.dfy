/**
 * The breadth-first search of `src/grid.rs` and the parent-linked `Path` it
 * returns.
 *
 * A `Path` in the source is a cell with an optional boxed parent path; every
 * path pushed by the search points at the path it was popped from. Here all
 * the links of one search live in one sequence (an arena) and a parent is an
 * index into it, always smaller than the index of its child.
 */
module GridSearch {
  import opened Wrappers
  import opened Grids

  /** One link of a `Path`: a cell and the index of its parent link, if any. */
  datatype Node = Node(cell: Cell, parent: Option<nat>)

  /** A `Path`: the link at index `end` of `links`, followed through its parents. */
  datatype Path = Path(links: seq<Node>, end: nat)

  /** Every parent index points to an earlier link. */
  predicate WellLinked(links: seq<Node>) {
    forall i :: 0 <= i < |links| && links[i].parent.Some? ==> links[i].parent.value < i
  }

  predicate ValidPath(path: Path) {
    WellLinked(path.links) && path.end < |path.links|
  }

  function PositionAt(links: seq<Node>, i: nat): Position
    requires i < |links|
  {
    links[i].cell.position
  }

  /** The number of parent links from link `i` to its root: the number of steps. */
  function Depth(links: seq<Node>, i: nat): nat
    requires WellLinked(links) && i < |links|
    decreases i
  {
    match links[i].parent
    case None => 0
    case Some(j) => Depth(links, j) + 1
  }

  /** The positions from the root of link `i` to link `i`, root first. */
  function Route(links: seq<Node>, i: nat): (r: seq<Position>)
    requires WellLinked(links) && i < |links|
    ensures |r| == Depth(links, i) + 1
    ensures r[|r| - 1] == PositionAt(links, i)
    decreases i
  {
    match links[i].parent
    case None => [PositionAt(links, i)]
    case Some(j) => Route(links, j) + [PositionAt(links, i)]
  }

  /**
   * `Into<Vec<GridCell>>` as a function: the cells from link `i` up to, but
   * not including, its root.
   */
  function Trail(links: seq<Node>, i: nat): seq<Cell>
    requires WellLinked(links) && i < |links|
    decreases i
  {
    match links[i].parent
    case None => []
    case Some(j) => [links[i].cell] + Trail(links, j)
  }

  /**
   * The trail lists the route backwards without its root: one cell per step,
   * the end cell first.
   */
  lemma {:induction false} TrailReversesRoute(links: seq<Node>, i: nat)
    requires WellLinked(links) && i < |links|
    ensures |Trail(links, i)| == Depth(links, i) == |Route(links, i)| - 1
    ensures forall k :: 0 <= k < |Trail(links, i)| ==>
              Trail(links, i)[k].position == Route(links, i)[|Route(links, i)| - 1 - k]
    decreases i
  {
    match links[i].parent
    case None =>
    case Some(j) =>
      TrailReversesRoute(links, j);
      var t, r := Trail(links, i), Route(links, i);
      assert t == [links[i].cell] + Trail(links, j);
      assert r == Route(links, j) + [PositionAt(links, i)];
      forall k | 0 <= k < |t| ensures t[k].position == r[|r| - 1 - k] {
        if k > 0 {
          assert t[k] == Trail(links, j)[k - 1];
        }
      }
  }

  /** `Into<Vec<GridCell>>`: walks the parent links, pushing each cell that has a parent. */
  method PathCells(path: Path) returns (cells: seq<Cell>)
    requires ValidPath(path)
    ensures cells == Trail(path.links, path.end)
  {
    var links := path.links;
    var current: nat := path.end;
    cells := [];
    while links[current].parent.Some?
      invariant current < |links|
      invariant cells + Trail(links, current) == Trail(links, path.end)
      decreases current
    {
      cells := cells + [links[current].cell];
      current := links[current].parent.value;
    }
  }

  // ------------------------------------------------------------------- walks

  /** A sequence of in-bounds positions, each one of the eight neighbours of the one before. */
  predicate IsWalk(grid: Buffer, w: seq<Position>) {
    |w| > 0
    && (forall k :: 0 <= k < |w| ==> InBounds(grid, w[k]))
    && (forall k :: 0 < k < |w| ==> Adjacent(w[k - 1], w[k]))
  }

  /** Every in-bounds position of the buffer. */
  ghost function AllPositions(grid: Buffer): set<Position> {
    set r: nat, c: nat | r < |grid| && c < |grid[r]| :: Position(r, c)
  }

  // ---------------------------------------------------------- search state

  /** Every visited position is in bounds: the search cannot visit more than the grid holds. */
  lemma VisitedInBounds(grid: Buffer, start: Position, links: seq<Node>, index: map<Position, nat>)
    requires Links(grid, start, links, index)
    ensures index.Keys <= AllPositions(grid)
  {
    forall q | q in index ensures q in AllPositions(grid) {
      assert PositionAt(links, index[q]) == q && LinkAt(grid, links, index, index[q]);
      assert q == Position(q.row, q.col);
    }
  }

  /** Each link holds the stored cell at its position, and no position is pushed twice. */
  lemma LinksDistinct(grid: Buffer, start: Position, links: seq<Node>, index: map<Position, nat>)
    requires Links(grid, start, links, index)
    ensures forall i :: 0 <= i < |links| ==>
              InBounds(grid, PositionAt(links, i)) && links[i].cell == StoredCell(grid, PositionAt(links, i))
    ensures forall i, j :: 0 <= i < j < |links| ==> PositionAt(links, i) != PositionAt(links, j)
  {
    forall i | 0 <= i < |links|
      ensures InBounds(grid, PositionAt(links, i)) && links[i].cell == StoredCell(grid, PositionAt(links, i))
    {
      assert LinkAt(grid, links, index, i);
    }
    forall i, j | 0 <= i < j < |links| ensures PositionAt(links, i) != PositionAt(links, j) {
      assert LinkAt(grid, links, index, i) && LinkAt(grid, links, index, j);
    }
  }

  /** Link `i` is one of the eight neighbours of its parent. */
  predicate StepsFromParent(links: seq<Node>, i: nat)
    requires WellLinked(links) && i < |links| && links[i].parent.Some?
  {
    Adjacent(PositionAt(links, links[i].parent.value), PositionAt(links, i))
  }

  /**
   * The links are the paths pushed so far: the first is the start, every
   * other one steps from its parent to an in-bounds neighbour, and `index`
   * maps each position pushed (the source's visited set) to its unique link.
   */
  ghost predicate Links(grid: Buffer, start: Position, links: seq<Node>, index: map<Position, nat>) {
    |links| > 0 && WellLinked(links)
    && InBounds(grid, start) && links[0] == Node(StoredCell(grid, start), None)
    && (forall i :: 0 <= i < |links| ==> LinkAt(grid, links, index, i))
    && (forall q :: q in index ==> index[q] < |links| && PositionAt(links, index[q]) == q)
  }

  /**
   * Link `i` holds the stored cell of an in-bounds position, is the link
   * `index` names for that position, and (unless it is the start) steps
   * from its parent.
   */
  ghost predicate LinkAt(grid: Buffer, links: seq<Node>, index: map<Position, nat>, i: nat)
    requires WellLinked(links) && i < |links|
  {
    InBounds(grid, PositionAt(links, i)) && links[i].cell == StoredCell(grid, PositionAt(links, i))
    && PositionAt(links, i) in index && index[PositionAt(links, i)] == i
    && (i > 0 ==> links[i].parent.Some? && StepsFromParent(links, i))
  }

  /**
   * Links are pushed in order of depth, and the queue from `head` on spans
   * at most two consecutive depths.
   */
  ghost predicate Layered(links: seq<Node>, head: nat)
    requires WellLinked(links)
  {
    (forall i, j :: 0 <= i <= j < |links| ==> Depth(links, i) <= Depth(links, j))
    && (head < |links| ==> forall j :: head <= j < |links| ==> Depth(links, j) <= Depth(links, head) + 1)
  }

  /** Every in-bounds neighbour of link `j` has been pushed, at most one step deeper. */
  ghost predicate NeighborsPushed(grid: Buffer, links: seq<Node>, index: map<Position, nat>, j: nat)
    requires WellLinked(links) && j < |links|
    requires forall q :: q in index ==> index[q] < |links|
  {
    forall q :: InBounds(grid, q) && Adjacent(PositionAt(links, j), q) ==>
      q in index && Depth(links, index[q]) <= Depth(links, j) + 1
  }

  /** Every popped link has its neighbours pushed. */
  ghost predicate Closed(grid: Buffer, links: seq<Node>, index: map<Position, nat>, head: nat)
    requires WellLinked(links) && head <= |links|
    requires forall q :: q in index ==> index[q] < |links|
  {
    forall j :: 0 <= j < head ==> NeighborsPushed(grid, links, index, j)
  }

  /** The state of the search loop before popping the link at `head`. */
  ghost predicate SearchState(grid: Buffer, start: Position, pred: (Cell, Buffer) -> bool,
                              links: seq<Node>, index: map<Position, nat>, head: nat)
  {
    Links(grid, start, links, index) && head <= |links|
    && Layered(links, head)
    && Closed(grid, links, index, head)
    && (forall j :: 0 <= j < head ==> !pred(links[j].cell, grid))
  }

  /** Appending a link leaves the depth of every earlier link unchanged. */
  lemma {:induction false} DepthAppend(links: seq<Node>, n: Node, i: nat)
    requires WellLinked(links) && WellLinked(links + [n]) && i < |links|
    ensures Depth(links + [n], i) == Depth(links, i)
    decreases i
  {
    assert (links + [n])[i] == links[i];
    match links[i].parent
    case None =>
    case Some(j) => DepthAppend(links, n, j);
  }

  /** Pushing an unvisited in-bounds neighbour of link `head` keeps the links well formed. */
  lemma PushLinks(grid: Buffer, start: Position, links: seq<Node>, index: map<Position, nat>, head: nat, cell: Cell)
    requires Links(grid, start, links, index) && head < |links|
    requires InBounds(grid, cell.position) && cell == StoredCell(grid, cell.position)
    requires Adjacent(PositionAt(links, head), cell.position) && cell.position !in index
    ensures Links(grid, start, links + [Node(cell, Some(head))], index[cell.position := |links|])
  {
    var links' := links + [Node(cell, Some(head))];
    var index' := index[cell.position := |links|];
    assert WellLinked(links');
    forall i | 0 <= i < |links'| ensures LinkAt(grid, links', index', i) {
      if i < |links| {
        assert LinkAt(grid, links, index, i);
        assert links'[i] == links[i];
        if i > 0 {
          assert links'[links[i].parent.value] == links[links[i].parent.value];
          assert StepsFromParent(links, i);
        }
        assert PositionAt(links, i) != cell.position;
      }
    }
  }

  /** Depths of the existing links survive a push, and the new link is one deeper than its parent. */
  lemma PushDepths(links: seq<Node>, head: nat, cell: Cell)
    requires WellLinked(links) && head < |links|
    ensures WellLinked(links + [Node(cell, Some(head))])
    ensures forall i :: 0 <= i < |links| ==> Depth(links + [Node(cell, Some(head))], i) == Depth(links, i)
    ensures Depth(links + [Node(cell, Some(head))], |links|) == Depth(links, head) + 1
  {
    var n := Node(cell, Some(head));
    var links' := links + [n];
    assert WellLinked(links');
    forall i | 0 <= i < |links| ensures Depth(links', i) == Depth(links, i) {
      DepthAppend(links, n, i);
    }
    assert links'[|links|] == n;
  }

  /** A pushed link is at least as deep as every earlier one and at most one deeper than the head. */
  lemma PushLayered(links: seq<Node>, head: nat, cell: Cell)
    requires WellLinked(links) && head < |links| && Layered(links, head)
    ensures WellLinked(links + [Node(cell, Some(head))])
    ensures Layered(links + [Node(cell, Some(head))], head)
  {
    var links' := links + [Node(cell, Some(head))];
    PushDepths(links, head, cell);
    forall i, j | 0 <= i <= j < |links'| ensures Depth(links', i) <= Depth(links', j) {
      if j == |links| && i < |links| {
        if i >= head {
          assert Depth(links, i) <= Depth(links, head) + 1;
        } else {
          assert Depth(links, i) <= Depth(links, head);
        }
      }
    }
  }

  /** Pushing a new position keeps every earlier popped link's neighbours pushed. */
  lemma PushClosed(grid: Buffer, links: seq<Node>, index: map<Position, nat>, head: nat, cell: Cell)
    requires WellLinked(links) && head < |links|
    requires forall q :: q in index ==> index[q] < |links|
    requires Closed(grid, links, index, head) && cell.position !in index
    ensures WellLinked(links + [Node(cell, Some(head))])
    ensures Closed(grid, links + [Node(cell, Some(head))], index[cell.position := |links|], head)
  {
    var links' := links + [Node(cell, Some(head))];
    var index' := index[cell.position := |links|];
    PushDepths(links, head, cell);
    forall j | 0 <= j < head ensures NeighborsPushed(grid, links', index', j) {
      assert links'[j] == links[j];
      assert PositionAt(links', j) == PositionAt(links, j);
      assert NeighborsPushed(grid, links, index, j);
    }
  }

  /** Pushing an unvisited neighbour of the link at `head` keeps the state of the search. */
  lemma Push(grid: Buffer, start: Position, pred: (Cell, Buffer) -> bool,
             links: seq<Node>, index: map<Position, nat>, head: nat, cell: Cell)
    requires SearchState(grid, start, pred, links, index, head) && head < |links|
    requires InBounds(grid, cell.position) && cell == StoredCell(grid, cell.position)
    requires Adjacent(PositionAt(links, head), cell.position) && cell.position !in index
    ensures var links' := links + [Node(cell, Some(head))];
            SearchState(grid, start, pred, links', index[cell.position := |links|], head)
            && links'[head] == links[head]
  {
    var links' := links + [Node(cell, Some(head))];
    PushLinks(grid, start, links, index, head, cell);
    PushLayered(links, head, cell);
    PushClosed(grid, links, index, head, cell);
    forall j | 0 <= j < head ensures !pred(links'[j].cell, grid) {
      assert links'[j] == links[j];
    }
  }

  /**
   * The core of the shortest-path argument: a walk from the start that is no
   * longer than the depth at the head of the queue (or any walk, once the
   * queue is empty) ends at a pushed position at most that many steps deep.
   */
  lemma {:induction false} WalkReached(grid: Buffer, start: Position, pred: (Cell, Buffer) -> bool,
                                       links: seq<Node>, index: map<Position, nat>, head: nat, w: seq<Position>)
    requires SearchState(grid, start, pred, links, index, head)
    requires IsWalk(grid, w) && w[0] == start
    requires head == |links| || |w| - 1 <= Depth(links, head)
    ensures w[|w| - 1] in index && Depth(links, index[w[|w| - 1]]) <= |w| - 1
    ensures links[index[w[|w| - 1]]].cell == StoredCell(grid, w[|w| - 1])
    decreases |w|
  {
    if |w| == 1 {
      assert PositionAt(links, 0) == start && LinkAt(grid, links, index, 0);
    } else {
      var u := w[..|w| - 1];
      assert IsWalk(grid, u);
      WalkReached(grid, start, pred, links, index, head, u);
      var t := index[u[|u| - 1]];
      assert t < head;
      assert NeighborsPushed(grid, links, index, t);
      assert Adjacent(PositionAt(links, t), w[|w| - 1]) by {
        assert PositionAt(links, t) == w[|w| - 2];
      }
      assert LinkAt(grid, links, index, index[w[|w| - 1]]);
    }
  }

  /** The route of every link is a walk from the start. */
  lemma {:induction false} RouteIsWalk(grid: Buffer, start: Position, links: seq<Node>, index: map<Position, nat>, i: nat)
    requires Links(grid, start, links, index) && i < |links|
    ensures IsWalk(grid, Route(links, i)) && Route(links, i)[0] == start
    decreases i
  {
    assert LinkAt(grid, links, index, i);
    match links[i].parent
    case None =>
      assert i == 0;
    case Some(j) =>
      RouteIsWalk(grid, start, links, index, j);
      assert StepsFromParent(links, i);
      var r := Route(links, i);
      assert r == Route(links, j) + [PositionAt(links, i)];
      assert r[|r| - 2] == PositionAt(links, j);
  }

  /**
   * When the link at `head` is the first popped link satisfying `pred`, no
   * walk from the start to a satisfying cell is shorter than its route.
   */
  lemma FoundIsShortest(grid: Buffer, start: Position, pred: (Cell, Buffer) -> bool,
                        links: seq<Node>, index: map<Position, nat>, head: nat)
    requires SearchState(grid, start, pred, links, index, head) && head < |links|
    ensures IsWalk(grid, Route(links, head)) && Route(links, head)[0] == start
    ensures forall w :: IsWalk(grid, w) && w[0] == start && pred(StoredCell(grid, w[|w| - 1]), grid) ==>
              |Route(links, head)| <= |w|
  {
    RouteIsWalk(grid, start, links, index, head);
    forall w | IsWalk(grid, w) && w[0] == start && pred(StoredCell(grid, w[|w| - 1]), grid)
      ensures |Route(links, head)| <= |w|
    {
      if |w| - 1 < Depth(links, head) {
        WalkReached(grid, start, pred, links, index, head, w);
        assert false;
      }
    }
  }

  /** Once every pushed link has been popped, no cell reachable from the start satisfies `pred`. */
  lemma ExhaustedUnreachable(grid: Buffer, start: Position, pred: (Cell, Buffer) -> bool,
                             links: seq<Node>, index: map<Position, nat>)
    requires SearchState(grid, start, pred, links, index, |links|)
    ensures forall w :: IsWalk(grid, w) && w[0] == start ==> !pred(StoredCell(grid, w[|w| - 1]), grid)
  {
    forall w | IsWalk(grid, w) && w[0] == start ensures !pred(StoredCell(grid, w[|w| - 1]), grid) {
      WalkReached(grid, start, pred, links, index, |links|, w);
      var t := index[w[|w| - 1]];
      assert links[t].cell == StoredCell(grid, w[|w| - 1]);
    }
  }

  /**
   * After every in-bounds neighbour of the link at `head` has been pushed,
   * popping the next link keeps the state of the search.
   */
  lemma Advance(grid: Buffer, start: Position, pred: (Cell, Buffer) -> bool,
                links: seq<Node>, index: map<Position, nat>, head: nat, neighbors: seq<Cell>)
    requires SearchState(grid, start, pred, links, index, head) && head < |links|
    requires !pred(links[head].cell, grid)
    requires forall q :: InBounds(grid, q) && Adjacent(PositionAt(links, head), q) ==> StoredCell(grid, q) in neighbors
    requires forall k :: 0 <= k < |neighbors| ==> neighbors[k].position in index
    ensures SearchState(grid, start, pred, links, index, head + 1)
    ensures index.Keys <= AllPositions(grid)
  {
    VisitedInBounds(grid, start, links, index);
    forall q | InBounds(grid, q) && Adjacent(PositionAt(links, head), q)
      ensures q in index && Depth(links, index[q]) <= Depth(links, head) + 1
    {
      assert StoredCell(grid, q) in neighbors;
      var t := index[q];
      if t < head {
        assert Depth(links, t) <= Depth(links, head);
      }
    }
    assert NeighborsPushed(grid, links, index, head);
    if head + 1 < |links| {
      assert Depth(links, head) <= Depth(links, head + 1);
    }
  }

  /** One step of the `for_each`: a neighbour not yet visited is marked visited and pushed. */
  method PushNeighbor(grid: Buffer, ghost start: Position, ghost pred: (Cell, Buffer) -> bool,
                      links: seq<Node>, visited: set<Position>, ghost index: map<Position, nat>,
                      head: nat, cell: Cell)
    returns (links': seq<Node>, visited': set<Position>, ghost index': map<Position, nat>)
    requires SearchState(grid, start, pred, links, index, head) && head < |links|
    requires visited == index.Keys
    requires InBounds(grid, cell.position) && cell == StoredCell(grid, cell.position)
    requires Adjacent(PositionAt(links, head), cell.position)
    ensures SearchState(grid, start, pred, links', index', head) && head < |links'| && links'[head] == links[head]
    ensures visited' == index'.Keys
    ensures cell.position in visited ==> links' == links && visited' == visited
    ensures cell.position !in visited ==> |links'| == |links| + 1 && visited' == visited + {cell.position}
  {
    links', visited', index' := links, visited, index;
    if cell.position !in visited {
      Push(grid, start, pred, links, index, head, cell);
      index' := index[cell.position := |links|];
      visited' := visited + {cell.position};
      links' := links + [Node(cell, Some(head))];
    }
  }

  /**
   * The `for_each` over the neighbours of the popped path: each neighbour not
   * yet visited is marked visited and pushed with the popped link as parent.
   */
  method PushNeighbors(grid: Buffer, ghost start: Position, ghost pred: (Cell, Buffer) -> bool,
                       links: seq<Node>, visited: set<Position>, ghost index: map<Position, nat>,
                       head: nat, neighbors: seq<Cell>)
    returns (links': seq<Node>, visited': set<Position>, ghost index': map<Position, nat>)
    requires SearchState(grid, start, pred, links, index, head) && head < |links|
    requires visited == index.Keys
    requires forall k :: 0 <= k < |neighbors| ==>
               InBounds(grid, neighbors[k].position) && neighbors[k] == StoredCell(grid, neighbors[k].position)
               && Adjacent(PositionAt(links, head), neighbors[k].position)
    ensures SearchState(grid, start, pred, links', index', head) && head < |links'| && links'[head] == links[head]
    ensures visited' == index'.Keys && visited <= visited'
    ensures visited' == visited ==> |links'| == |links|
    ensures forall k :: 0 <= k < |neighbors| ==> neighbors[k].position in visited'
  {
    links', visited', index' := links, visited, index;
    for k := 0 to |neighbors|
      invariant SearchState(grid, start, pred, links', index', head) && head < |links'| && links'[head] == links[head]
      invariant visited' == index'.Keys && visited <= visited'
      invariant visited' == visited ==> |links'| == |links|
      invariant forall k' :: 0 <= k' < k ==> neighbors[k'].position in visited'
    {
      links', visited', index' := PushNeighbor(grid, start, pred, links', visited', index', head, neighbors[k]);
    }
  }

  /**
   * `bfs`: a breadth-first search from `start`, testing each popped path with
   * `pred` and returning the first that satisfies it. The source unwraps the
   * start cell, so `start` must be in bounds.
   *
   * A returned path is a walk from the start to a satisfying cell, no path
   * popped before it satisfied `pred`, and no walk to a satisfying cell is
   * shorter; `None` means no cell reachable from the start satisfies `pred`.
   * Each position is pushed at most once.
   */
  method Bfs(grid: Buffer, start: Position, pred: (Cell, Buffer) -> bool) returns (r: Option<Path>)
    requires InBounds(grid, start)
    ensures r.Some? ==> ValidPath(r.value)
    ensures r.Some? ==>
              var links, end := r.value.links, r.value.end;
              IsWalk(grid, Route(links, end)) && Route(links, end)[0] == start
              && links[end].cell == StoredCell(grid, PositionAt(links, end))
              && pred(links[end].cell, grid)
              && (forall j :: 0 <= j < end ==> !pred(links[j].cell, grid))
              && (forall i, j :: 0 <= i < j < |links| ==> PositionAt(links, i) != PositionAt(links, j))
    ensures r.Some? ==>
              forall w :: IsWalk(grid, w) && w[0] == start && pred(StoredCell(grid, w[|w| - 1]), grid) ==>
                |Route(r.value.links, r.value.end)| <= |w|
    ensures r.None? ==>
              forall w :: IsWalk(grid, w) && w[0] == start ==> !pred(StoredCell(grid, w[|w| - 1]), grid)
  {
    var startCell := Node(StoredCell(grid, start), None);
    var links := [startCell];
    var visited := {start};
    ghost var index: map<Position, nat> := map[start := 0];
    var head := 0;
    while head < |links|
      invariant SearchState(grid, start, pred, links, index, head)
      invariant visited == index.Keys && visited <= AllPositions(grid)
      decreases AllPositions(grid) - visited, |links| - head
    {
      var path := links[head];
      if pred(path.cell, grid) {
        FoundIsShortest(grid, start, pred, links, index, head);
        LinksDistinct(grid, start, links, index);
        return Some(Path(links, head));
      }
      var neighbors := IterNeighbors(grid, path.cell.position);
      links, visited, index := PushNeighbors(grid, start, pred, links, visited, index, head, neighbors);
      Advance(grid, start, pred, links, index, head, neighbors);
      head := head + 1;
    }
    ExhaustedUnreachable(grid, start, pred, links, index);
    return None;
  }
}
