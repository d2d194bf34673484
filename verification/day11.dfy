/**
 * Day 11: a directed graph given as adjacency lists. `count_paths` counts the
 * routes from one node to another, recursing over the adjacency lists and
 * caching every count it computes in a memo table shared between calls.
 * Part 1 counts the routes from "you" to "out"; part 2 multiplies the counts
 * of the three segments "svr" to "fft", "fft" to "dac" and "dac" to "out".
 *
 * The recursion only ends on a graph without cycles. Every operation takes a
 * ranking of the nodes that decreases along every edge; that ranking is the
 * evidence of acyclicity and the measure the recursion decreases.
 */
module Day11 {
  import opened Wrappers
  import opened Text

  /** `Graph`: each node's adjacency list, in input order, duplicates kept. */
  type Graph = map<string, seq<string>>

  // ------------------------------------------------------------ the input

  /** One input line `node: a b c`: the node before the colon, the neighbours split on single spaces. */
  function Entry(line: string): (e: (string, seq<string>))
    requires ':' in line
    ensures ':' !in e.0 && |e.1| >= 1
  {
    var parts := SplitOnce(line, ':').value;
    (parts.0, Split(Trim(parts.1), ' '))
  }

  /** Every line has a colon (the source unwraps `split_once`). */
  predicate WellFormedInput(lines: seq<string>) {
    forall k :: 0 <= k < |lines| ==> ':' in lines[k]
  }

  /** The entries of the lines, in order. */
  function Entries(lines: seq<string>): (es: seq<(string, seq<string>)>)
    requires WellFormedInput(lines)
    ensures |es| == |lines| && forall k :: 0 <= k < |lines| ==> es[k] == Entry(lines[k])
  {
    seq(|lines|, k requires 0 <= k < |lines| => Entry(lines[k]))
  }

  /** The graph after inserting the entries in order: a later entry for the same node replaces an earlier one. */
  function Insert(entries: seq<(string, seq<string>)>): Graph {
    if entries == [] then map[]
    else
      var e := entries[|entries| - 1];
      Insert(entries[..|entries| - 1])[e.0 := e.1]
  }

  /** The loop of `main` that fills `nodes`. */
  method BuildGraph(lines: seq<string>) returns (nodes: Graph)
    requires WellFormedInput(lines)
    ensures nodes == Insert(Entries(lines))
  {
    ghost var entries := Entries(lines);
    nodes := map[];
    for k := 0 to |lines|
      invariant nodes == Insert(entries[..k])
    {
      assert entries[..k + 1][..k] == entries[..k];
      var e := Entry(lines[k]);
      nodes := nodes[e.0 := e.1];
    }
    assert entries[..|lines|] == entries;
  }

  /**
   * The nodes of the graph are those named by an entry, and each one's
   * adjacency list comes from the last entry naming it.
   */
  lemma {:induction false} InsertMeans(entries: seq<(string, seq<string>)>)
    ensures forall node :: node in Insert(entries) <==> exists k :: 0 <= k < |entries| && entries[k].0 == node
    ensures forall k :: 0 <= k < |entries| && (forall j :: k < j < |entries| ==> entries[j].0 != entries[k].0)
              ==> Insert(entries)[entries[k].0] == entries[k].1
  {
    if entries != [] {
      var init := entries[..|entries| - 1];
      InsertMeans(init);
      forall node | node in Insert(entries)
        ensures exists k :: 0 <= k < |entries| && entries[k].0 == node
      {
        if node != entries[|entries| - 1].0 {
          assert node in Insert(init);
          var k :| 0 <= k < |init| && init[k].0 == node;
          assert entries[k].0 == node;
        }
      }
      forall k | 0 <= k < |entries| && (forall j :: k < j < |entries| ==> entries[j].0 != entries[k].0)
        ensures Insert(entries)[entries[k].0] == entries[k].1
      {
        if k < |init| {
          assert init[k] == entries[k];
          assert forall j :: k < j < |init| ==> init[j] == entries[j];
        }
      }
    }
  }

  // ------------------------------------------------------ counting routes

  /** Every listed neighbour has a rank below its node's: the graph has no cycle. */
  predicate Ranked(g: Graph, rank: map<string, nat>) {
    forall u :: u in g ==>
      u in rank && forall j :: 0 <= j < |g[u]| ==> g[u][j] in rank && rank[g[u][j]] < rank[u]
  }

  /** What the recursion of `count_paths` computes, without the memo. */
  function Paths(g: Graph, rank: map<string, nat>, start: string, goal: string): nat
    requires Ranked(g, rank)
    decreases if start in g then rank[start] else 0, 1
  {
    if start == goal then 1
    else if start in g then Through(g, rank, start, goal, |g[start]|)
    else 0
  }

  /** The counts of the first `count` neighbours of `start`, summed in list order. */
  function Through(g: Graph, rank: map<string, nat>, start: string, goal: string, count: nat): nat
    requires Ranked(g, rank) && start in g && count <= |g[start]|
    decreases rank[start], 0, count
  {
    if count == 0 then 0
    else Through(g, rank, start, goal, count - 1) + Paths(g, rank, g[start][count - 1], goal)
  }

  /**
   * A route from `start` to `goal`: consecutive nodes joined by an edge, and
   * `goal` only at the end (the count stops as soon as it reaches `goal`).
   */
  predicate IsRoute(g: Graph, start: string, goal: string, route: seq<string>) {
    |route| >= 1 && route[0] == start && route[|route| - 1] == goal
    && forall i :: 0 <= i < |route| - 1 ==> route[i] != goal && route[i] in g && route[i + 1] in g[route[i]]
  }

  /** Each neighbour contributes its whole count: a neighbour listed twice is counted twice. */
  lemma {:induction false} ThroughAtLeast(g: Graph, rank: map<string, nat>, start: string, goal: string, count: nat, j: nat)
    requires Ranked(g, rank) && start in g && j < count <= |g[start]|
    ensures Through(g, rank, start, goal, count) >= Paths(g, rank, g[start][j], goal)
  {
    if j < count - 1 {
      ThroughAtLeast(g, rank, start, goal, count - 1, j);
    }
  }

  /** Some neighbour contributes to a positive sum. */
  lemma {:induction false} PositiveNeighbour(g: Graph, rank: map<string, nat>, start: string, goal: string, count: nat)
    returns (j: nat)
    requires Ranked(g, rank) && start in g && count <= |g[start]|
    requires Through(g, rank, start, goal, count) > 0
    ensures j < count && Paths(g, rank, g[start][j], goal) > 0
  {
    if Paths(g, rank, g[start][count - 1], goal) > 0 {
      j := count - 1;
    } else {
      j := PositiveNeighbour(g, rank, start, goal, count - 1);
    }
  }

  /** A positive count has a route behind it. */
  lemma {:induction false} RouteOfPaths(g: Graph, rank: map<string, nat>, start: string, goal: string)
    returns (route: seq<string>)
    requires Ranked(g, rank) && Paths(g, rank, start, goal) > 0
    ensures IsRoute(g, start, goal, route)
    decreases if start in g then rank[start] else 0
  {
    if start == goal {
      route := [start];
    } else {
      var j := PositiveNeighbour(g, rank, start, goal, |g[start]|);
      var next := g[start][j];
      var rest := RouteOfPaths(g, rank, next, goal);
      route := [start] + rest;
      forall i | 0 <= i < |route| - 1
        ensures route[i] != goal && route[i] in g && route[i + 1] in g[route[i]]
      {
        if i > 0 {
          assert route[i] == rest[i - 1] && route[i + 1] == rest[i];
        }
      }
    }
  }

  /** A route makes the count positive. */
  lemma {:induction false} PathsOfRoute(g: Graph, rank: map<string, nat>, start: string, goal: string, route: seq<string>)
    requires Ranked(g, rank) && IsRoute(g, start, goal, route)
    ensures Paths(g, rank, start, goal) > 0
    decreases |route|
  {
    if start != goal {
      var next := route[1];
      var j :| 0 <= j < |g[start]| && g[start][j] == next;
      var rest := route[1..];
      forall i | 0 <= i < |rest| - 1
        ensures rest[i] != goal && rest[i] in g && rest[i + 1] in g[rest[i]]
      {
        assert rest[i] == route[i + 1] && rest[i + 1] == route[i + 2];
      }
      PathsOfRoute(g, rank, next, goal, rest);
      ThroughAtLeast(g, rank, start, goal, |g[start]|, j);
    }
  }

  /** `count_paths` is positive exactly when a route exists. */
  lemma PathsPositive(g: Graph, rank: map<string, nat>, start: string, goal: string)
    requires Ranked(g, rank)
    ensures Paths(g, rank, start, goal) > 0 <==> exists route :: IsRoute(g, start, goal, route)
  {
    if Paths(g, rank, start, goal) > 0 {
      var route := RouteOfPaths(g, rank, start, goal);
    }
    if route :| IsRoute(g, start, goal, route) {
      PathsOfRoute(g, rank, start, goal, route);
    }
  }

  // --------------------------------------------------------------- the memo

  /** The memo table `HashMap<(&str, &str), usize>` that `count_paths` fills. */
  class Memo {
    var table: map<(string, string), nat>

    constructor ()
      ensures table == map[]
    {
      table := map[];
    }
  }

  /** Every entry of the table holds the count for its pair. */
  predicate Sound(g: Graph, rank: map<string, nat>, table: map<(string, string), nat>)
    requires Ranked(g, rank)
  {
    forall key :: key in table ==> table[key] == Paths(g, rank, key.0, key.1)
  }

  /**
   * `count_paths`: a pair already in the memo is answered from it;
   * otherwise the count is 1 at the goal, the sum of the neighbours' counts
   * when the node has an adjacency list, 0 when it has none, and the count
   * is stored before returning. A sound memo stays sound, keeps its entries
   * and gains the pair asked for.
   */
  method CountPaths(g: Graph, ghost rank: map<string, nat>, start: string, goal: string, memo: Memo)
    returns (paths: nat)
    requires Ranked(g, rank) && Sound(g, rank, memo.table)
    modifies memo
    ensures paths == Paths(g, rank, start, goal)
    ensures Sound(g, rank, memo.table)
    ensures (start, goal) in memo.table && old(memo.table).Keys <= memo.table.Keys
    ensures (start, goal) in old(memo.table) ==> memo.table == old(memo.table)
    decreases if start in g then rank[start] else 0
  {
    if (start, goal) in memo.table {
      return memo.table[(start, goal)];
    }
    paths := 0;
    if start == goal {
      paths := paths + 1;
    } else if start in g {
      var neighbors := g[start];
      for k := 0 to |neighbors|
        invariant paths == Through(g, rank, start, goal, k)
        invariant Sound(g, rank, memo.table) && old(memo.table).Keys <= memo.table.Keys
      {
        var count := CountPaths(g, rank, neighbors[k], goal, memo);
        paths := paths + count;
      }
    }
    memo.table := memo.table[(start, goal) := paths];
  }

  // ------------------------------------------------------------------ main

  /** `fold(1, |acc, b| acc * b)`: the product of the counts, from the left. */
  function Product(counts: seq<nat>): nat {
    if counts == [] then 1 else Product(counts[..|counts| - 1]) * counts[|counts| - 1]
  }

  /** The product is zero exactly when one of the counts is. */
  lemma {:induction false} ProductZero(counts: seq<nat>)
    ensures Product(counts) == 0 <==> exists k :: 0 <= k < |counts| && counts[k] == 0
  {
    if counts != [] {
      var init := counts[..|counts| - 1];
      ProductZero(init);
      if Product(init) == 0 {
        var k :| 0 <= k < |init| && init[k] == 0;
        assert counts[k] == 0;
      }
      if k :| 0 <= k < |counts| && counts[k] == 0 {
        if k < |init| {
          assert init[k] == 0;
        }
      }
    }
  }

  /** The three segment counts multiplied in order. */
  lemma ProductOfThree(a: nat, b: nat, c: nat)
    ensures Product([a, b, c]) == a * b * c
  {
    assert [a, b, c][..2] == [a, b];
    assert [a, b][..1] == [a];
    assert [a][..0] == [];
    assert Product([a]) == a;
    assert Product([a, b]) == a * b;
  }

  /**
   * `main` after reading the graph: both parts share one memo. Part 2 is
   * zero exactly when one of the three segments has no route.
   */
  method Solve(g: Graph, ghost rank: map<string, nat>) returns (part1: nat, part2: nat)
    requires Ranked(g, rank)
    ensures part1 == Paths(g, rank, "you", "out")
    ensures part2 == Paths(g, rank, "svr", "fft") * Paths(g, rank, "fft", "dac") * Paths(g, rank, "dac", "out")
  {
    var memo := new Memo();
    part1 := CountPaths(g, rank, "you", "out", memo);
    var first := CountPaths(g, rank, "svr", "fft", memo);
    var second := CountPaths(g, rank, "fft", "dac", memo);
    var third := CountPaths(g, rank, "dac", "out", memo);
    part2 := Product([first, second, third]);
    ProductOfThree(first, second, third);
  }

  /** Part 2 is positive exactly when each of its three segments has a route. */
  lemma Part2Positive(g: Graph, rank: map<string, nat>)
    requires Ranked(g, rank)
    ensures Product([Paths(g, rank, "svr", "fft"), Paths(g, rank, "fft", "dac"), Paths(g, rank, "dac", "out")]) > 0
            <==> (exists r :: IsRoute(g, "svr", "fft", r)) && (exists r :: IsRoute(g, "fft", "dac", r))
                 && (exists r :: IsRoute(g, "dac", "out", r))
  {
    var counts := [Paths(g, rank, "svr", "fft"), Paths(g, rank, "fft", "dac"), Paths(g, rank, "dac", "out")];
    ProductZero(counts);
    PathsPositive(g, rank, "svr", "fft");
    PathsPositive(g, rank, "fft", "dac");
    PathsPositive(g, rank, "dac", "out");
    if Product(counts) == 0 {
      var k :| 0 <= k < 3 && counts[k] == 0;
      assert k == 0 || k == 1 || k == 2;
    } else {
      assert counts[0] != 0 && counts[1] != 0 && counts[2] != 0;
    }
  }
}
