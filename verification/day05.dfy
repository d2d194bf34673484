/**
 * Day 5: inclusive ranges of fresh ingredient ids. Part 1 counts the listed
 * ingredients that some range contains; part 2 sorts the ranges by start,
 * merges them left to right into disjoint ranges and adds up their sizes,
 * which is the number of ids covered by any range.
 */
module Day05 {

  datatype Solution = Solution(part1: nat, part2: nat)

  /** `Range(start, end)`, both ends included. */
  datatype Range = Range(start: nat, end: nat)

  /** A range whose start does not exceed its end; the size computation needs it. */
  predicate WellFormed(r: Range) {
    r.start <= r.end
  }

  /** `contains`: inclusive at both ends. */
  predicate Contains(r: Range, n: nat) {
    r.start <= n && r.end >= n
  }

  /** `overlaps`, as written: also true when `self` starts at or after `other` ends. */
  predicate Overlaps(self: Range, other: Range) {
    self.start >= other.end || other.start <= self.end
  }

  function Min(a: nat, b: nat): nat {
    if a <= b then a else b
  }

  function Max(a: nat, b: nat): nat {
    if a >= b then a else b
  }

  /** `merge`: one covering range when the two overlap, otherwise both in order. */
  function Merge(self: Range, other: Range): (r: seq<Range>)
    ensures 1 <= |r| <= 2
    ensures |r| == 2 <==> !Overlaps(self, other)
    ensures |r| == 2 ==> r[0] == self && r[1] == other
    ensures |r| == 1 ==> r[0].start <= self.start && r[0].start <= other.start
                         && r[0].end >= self.end && r[0].end >= other.end
  {
    if Overlaps(self, other) then [Range(Min(self.start, other.start), Max(self.end, other.end))]
    else [self, other]
  }

  // ---------------------------------------------------------------- coverage

  /** The ids a range contains (the bound on `n` is what makes the set finite). */
  ghost function Ids(r: Range): set<nat> {
    set n: nat | n <= r.end && Contains(r, n)
  }

  /** The ids some range of `rs` contains. */
  ghost function Union(rs: seq<Range>): set<nat> {
    set r, n: nat | r in rs && n <= r.end && Contains(r, n) :: n
  }

  lemma InUnion(rs: seq<Range>, r: Range, n: nat)
    requires r in rs && Contains(r, n)
    ensures n in Union(rs)
  {
  }

  lemma ContainsIsIds(r: Range, n: nat)
    ensures Contains(r, n) <==> n in Ids(r)
  {
  }

  lemma UnionAppend(a: seq<Range>, b: seq<Range>)
    ensures Union(a + b) == Union(a) + Union(b)
  {
    forall n | n in Union(a + b) ensures n in Union(a) + Union(b) {
      var r :| r in a + b && Contains(r, n);
    }
  }

  lemma UnionSingle(r: Range)
    ensures Union([r]) == Ids(r)
  {
  }

  /**
   * With `self` starting no later than `other`, the ranges overlap exactly
   * when `other` starts at or before `self` ends; the first disjunct of the
   * source adds nothing then.
   */
  lemma OverlapsWhenSorted(self: Range, other: Range)
    requires WellFormed(self) && WellFormed(other) && self.start <= other.start
    ensures Overlaps(self, other) <==> other.start <= self.end
  {
  }

  /**
   * Out of start order the first disjunct fires on disjoint ranges: merging
   * (10, 20) with (1, 5) yields (1, 20), which also covers 6 to 9. The merge
   * fold only ever passes ranges in start order, where this cannot happen.
   */
  lemma OverlapsOutOfOrder()
    ensures Overlaps(Range(10, 20), Range(1, 5))
    ensures Merge(Range(10, 20), Range(1, 5)) == [Range(1, 20)]
    ensures 6 in Union(Merge(Range(10, 20), Range(1, 5))) && 6 !in Ids(Range(10, 20)) + Ids(Range(1, 5))
  {
    InUnion([Range(1, 20)], Range(1, 20), 6);
  }

  /**
   * Merging two well-formed ranges in start order covers exactly the ids of
   * the two, and yields well-formed ranges that are disjoint and in order.
   */
  lemma MergeCoverage(self: Range, other: Range)
    requires WellFormed(self) && WellFormed(other) && self.start <= other.start
    ensures Union(Merge(self, other)) == Ids(self) + Ids(other)
    ensures forall k :: 0 <= k < |Merge(self, other)| ==> WellFormed(Merge(self, other)[k])
    ensures Merge(self, other)[0].start == self.start
    ensures |Merge(self, other)| == 2 ==> self.end < other.start
  {
    var m := Merge(self, other);
    if |m| == 1 {
      UnionSingle(m[0]);
      forall n | n in Ids(m[0]) ensures n in Ids(self) + Ids(other) {
        if n > self.end {
          assert n >= other.start;
        }
      }
    } else {
      UnionAppend([self], [other]);
      assert m == [self] + [other];
    }
  }

  /** `Contains` is inclusive: exactly the ids from start to end. */
  lemma ContainsBounds(r: Range)
    ensures Contains(r, r.start) <==> WellFormed(r)
    ensures Contains(r, r.end) <==> WellFormed(r)
    ensures forall n: nat :: Contains(r, n) ==> r.start <= n <= r.end
  {
  }

  // ------------------------------------------------------------------ part 1

  /** The inner fold of part 1: whether any range of `rs` contains `n`. */
  function AnyContains(rs: seq<Range>, n: nat): bool {
    if rs == [] then false else AnyContains(rs[..|rs| - 1], n) || Contains(rs[|rs| - 1], n)
  }

  lemma {:induction false} AnyContainsIsUnion(rs: seq<Range>, n: nat)
    ensures AnyContains(rs, n) <==> n in Union(rs)
  {
    if rs != [] {
      var init := rs[..|rs| - 1];
      AnyContainsIsUnion(init, n);
      assert rs == init + [rs[|rs| - 1]];
      UnionAppend(init, [rs[|rs| - 1]]);
    }
  }

  /** The count of part 1: the ingredients for which `AnyContains` holds. */
  function CountFresh(rs: seq<Range>, ingredients: seq<nat>): nat {
    if ingredients == [] then 0
    else CountFresh(rs, ingredients[..|ingredients| - 1]) + (if AnyContains(rs, ingredients[|ingredients| - 1]) then 1 else 0)
  }

  /** The positions of the ingredients that some range contains. */
  ghost function FreshIndices(rs: seq<Range>, ingredients: seq<nat>): set<nat> {
    set k: nat | k < |ingredients| && ingredients[k] in Union(rs)
  }

  /** Part 1 counts the ingredients, with repetitions, that lie in some range. */
  lemma {:induction false} CountFreshIsFreshIndices(rs: seq<Range>, ingredients: seq<nat>)
    ensures CountFresh(rs, ingredients) == |FreshIndices(rs, ingredients)|
  {
    if ingredients != [] {
      var n := |ingredients| - 1;
      var init := ingredients[..n];
      CountFreshIsFreshIndices(rs, init);
      AnyContainsIsUnion(rs, ingredients[n]);
      if ingredients[n] in Union(rs) {
        assert FreshIndices(rs, ingredients) == FreshIndices(rs, init) + {n};
      } else {
        assert FreshIndices(rs, ingredients) == FreshIndices(rs, init);
      }
    }
  }

  /** Reordering the ranges changes nothing about which ids they cover. */
  lemma UnionOfPermutation(a: seq<Range>, b: seq<Range>)
    requires multiset(a) == multiset(b)
    ensures Union(a) == Union(b)
  {
    forall n | n in Union(a) ensures n in Union(b) {
      var r :| r in a && Contains(r, n);
      assert r in multiset(b);
      InUnion(b, r, n);
    }
    forall n | n in Union(b) ensures n in Union(a) {
      var r :| r in b && Contains(r, n);
      assert r in multiset(a);
      InUnion(a, r, n);
    }
  }

  // -------------------------------------------------------------- sorting

  predicate SortedByStart(rs: seq<Range>) {
    forall i, j :: 0 <= i < j < |rs| ==> rs[i].start <= rs[j].start
  }

  /** A range starting no later than the head of a sorted list can be put in front of it. */
  lemma SortedCons(head: Range, rs: seq<Range>)
    requires SortedByStart(rs)
    requires rs != [] ==> head.start <= rs[0].start
    ensures SortedByStart([head] + rs)
  {
    var all := [head] + rs;
    forall i, j | 0 <= i < j < |all| ensures all[i].start <= all[j].start {
      if i == 0 && j > 1 {
        assert all[j] == rs[j - 1] && rs[0].start <= rs[j - 1].start;
      }
    }
  }

  /** Insertion of `x` after every range starting no later than it. */
  function Insert(x: Range, rs: seq<Range>): (r: seq<Range>)
    requires SortedByStart(rs)
    ensures |r| == |rs| + 1
    ensures r[0] == x || (rs != [] && r[0] == rs[0])
    ensures SortedByStart(r)
    ensures multiset(r) == multiset(rs) + multiset{x}
  {
    if rs == [] || x.start < rs[0].start then
      SortedCons(x, rs);
      [x] + rs
    else
      var rest := Insert(x, rs[1..]);
      SortedCons(rs[0], rest);
      assert rs == [rs[0]] + rs[1..];
      [rs[0]] + rest
  }

  /** `sort_by_key(|r| r.0)`: the ranges in nondecreasing order of start. */
  method SortByStart(ranges: seq<Range>) returns (sorted: seq<Range>)
    ensures SortedByStart(sorted)
    ensures multiset(sorted) == multiset(ranges)
  {
    sorted := [];
    for i := 0 to |ranges|
      invariant SortedByStart(sorted)
      invariant multiset(sorted) == multiset(ranges[..i])
    {
      assert ranges[..i + 1] == ranges[..i] + [ranges[i]];
      sorted := Insert(ranges[i], sorted);
    }
    assert ranges[..|ranges|] == ranges;
  }

  // ------------------------------------------------------------------ part 2

  /** Consecutive ranges are separated: each ends before the next starts. */
  predicate Separated(rs: seq<Range>) {
    forall i :: 0 <= i < |rs| - 1 ==> rs[i].end < rs[i + 1].start
  }

  predicate AllWellFormed(rs: seq<Range>) {
    forall k :: 0 <= k < |rs| ==> WellFormed(rs[k])
  }

  /**
   * The merge fold: the first range is pushed; each later one is merged with
   * the last range so far, which is popped and replaced by the merge result.
   * Given sorted well-formed ranges, the result is well-formed and separated
   * and covers exactly the ids of the input.
   */
  method MergeAll(sorted: seq<Range>) returns (merged: seq<Range>)
    requires SortedByStart(sorted) && AllWellFormed(sorted)
    ensures AllWellFormed(merged) && Separated(merged)
    ensures Union(merged) == Union(sorted)
    ensures |merged| <= |sorted|
  {
    merged := [];
    for i := 0 to |sorted|
      invariant AllWellFormed(merged) && Separated(merged)
      invariant Union(merged) == Union(sorted[..i])
      invariant |merged| <= i
      invariant i > 0 ==> |merged| > 0 && merged[|merged| - 1].start <= sorted[i - 1].start
      invariant i == 0 ==> merged == []
    {
      var r := sorted[i];
      UnionPrefix(sorted, i);
      if |merged| == 0 {
        merged := merged + [r];
        UnionSingle(r);
      } else {
        var last := merged[|merged| - 1];
        MergeStep(merged, r);
        merged := merged[..|merged| - 1] + Merge(last, r);
      }
    }
    assert sorted[..|sorted|] == sorted;
  }

  lemma UnionPrefix(rs: seq<Range>, i: nat)
    requires i < |rs|
    ensures Union(rs[..i + 1]) == Union(rs[..i]) + Ids(rs[i])
  {
    assert rs[..i + 1] == rs[..i] + [rs[i]];
    UnionAppend(rs[..i], [rs[i]]);
    UnionSingle(rs[i]);
  }

  /** One step of the merge fold keeps the merged list well-formed, separated and covering. */
  lemma MergeStep(merged: seq<Range>, r: Range)
    requires |merged| > 0 && AllWellFormed(merged) && Separated(merged)
    requires WellFormed(r) && merged[|merged| - 1].start <= r.start
    ensures var next := merged[..|merged| - 1] + Merge(merged[|merged| - 1], r);
      AllWellFormed(next) && Separated(next)
      && Union(next) == Union(merged) + Ids(r)
      && |next| <= |merged| + 1 && |next| > 0 && next[|next| - 1].start <= r.start
  {
    var last := merged[|merged| - 1];
    var front := merged[..|merged| - 1];
    MergeCoverage(last, r);
    MergeStepShape(front, last, Merge(last, r));
    assert merged == front + [last];
    UnionAppend(front, [last]);
    UnionSingle(last);
    UnionAppend(front, Merge(last, r));
  }

  /** Replacing the last range by ranges that start where it did and stay separated keeps the list separated. */
  lemma MergeStepShape(front: seq<Range>, last: Range, step: seq<Range>)
    requires AllWellFormed(front + [last]) && Separated(front + [last])
    requires 1 <= |step| <= 2 && AllWellFormed(step) && step[0].start == last.start
    requires |step| == 2 ==> step[0].end < step[1].start
    ensures AllWellFormed(front + step) && Separated(front + step)
  {
    var old_ := front + [last];
    var next := front + step;
    forall i | 0 <= i < |next| - 1 ensures next[i].end < next[i + 1].start {
      if i < |front| - 1 {
        assert next[i] == old_[i] && next[i + 1] == old_[i + 1];
      } else if i == |front| - 1 {
        assert next[i] == old_[i] && old_[i + 1] == last && next[i + 1] == step[0];
      }
    }
    forall k | 0 <= k < |next| ensures WellFormed(next[k]) {
      if k < |front| {
        assert next[k] == old_[k];
      }
    }
  }

  /** The sum of the range sizes, `end - start + 1` each. */
  function TotalSize(rs: seq<Range>): nat
    requires AllWellFormed(rs)
  {
    if rs == [] then 0 else TotalSize(rs[..|rs| - 1]) + (rs[|rs| - 1].end - rs[|rs| - 1].start + 1)
  }

  /** A well-formed range contains `end - start + 1` ids. */
  lemma {:induction false} IdsSize(r: Range)
    requires WellFormed(r)
    ensures |Ids(r)| == r.end - r.start + 1
    decreases r.end - r.start
  {
    if r.start < r.end {
      var shorter := Range(r.start, r.end - 1);
      IdsSize(shorter);
      assert Ids(r) == Ids(shorter) + {r.end};
    } else {
      assert Ids(r) == {r.start};
    }
  }

  /** No id covered by the earlier separated ranges lies in the last one. */
  lemma SeparatedDisjoint(rs: seq<Range>)
    requires |rs| > 0 && AllWellFormed(rs) && Separated(rs)
    ensures Union(rs[..|rs| - 1]) * Ids(rs[|rs| - 1]) == {}
  {
    var init := rs[..|rs| - 1];
    if Union(init) * Ids(rs[|rs| - 1]) != {} {
      var n :| n in Union(init) * Ids(rs[|rs| - 1]);
      var r :| r in init && Contains(r, n);
      var k :| 0 <= k < |init| && init[k] == r;
      assert rs[k] == r;
      SeparatedIncreasing(rs, k);
      assert false;
    }
  }

  lemma {:induction false} SeparatedIncreasing(rs: seq<Range>, k: nat)
    requires |rs| > 0 && AllWellFormed(rs) && Separated(rs) && k < |rs| - 1
    ensures rs[k].end < rs[|rs| - 1].start
    ensures forall n: nat :: Contains(rs[k], n) ==> !Contains(rs[|rs| - 1], n)
    decreases |rs| - 1 - k
  {
    if k < |rs| - 2 {
      SeparatedIncreasing(rs, k + 1);
    }
  }

  /** For separated ranges the summed sizes are the number of covered ids. */
  lemma {:induction false} TotalSizeIsUnion(rs: seq<Range>)
    requires AllWellFormed(rs) && Separated(rs)
    ensures TotalSize(rs) == |Union(rs)|
  {
    if rs != [] {
      var init := rs[..|rs| - 1];
      var last := rs[|rs| - 1];
      assert Separated(init);
      TotalSizeIsUnion(init);
      assert rs == init + [last];
      UnionAppend(init, [last]);
      UnionSingle(last);
      IdsSize(last);
      SeparatedDisjoint(rs);
    } else {
      assert Union(rs) == {};
    }
  }

  /**
   * The puzzle answer for the extracted ranges and ingredient ids: part 1
   * counts the ingredients some range contains, part 2 the ids any range
   * contains.
   */
  method Solve(ranges: seq<Range>, ingredients: seq<nat>) returns (solution: Solution)
    requires AllWellFormed(ranges)
    ensures solution.part1 == |FreshIndices(ranges, ingredients)|
    ensures solution.part2 == |Union(ranges)|
  {
    var sorted := SortByStart(ranges);
    assert AllWellFormed(sorted) by {
      forall k | 0 <= k < |sorted| ensures WellFormed(sorted[k]) {
        assert sorted[k] in multiset(ranges);
      }
    }
    UnionOfPermutation(sorted, ranges);
    var part1 := CountFresh(sorted, ingredients);
    CountFreshIsFreshIndices(sorted, ingredients);
    var merged := MergeAll(sorted);
    TotalSizeIsUnion(merged);
    solution := Solution(part1, TotalSize(merged));
  }
}
