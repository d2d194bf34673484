/**
 * Day 8: junction boxes are joined pair by pair, closest pairs first, into
 * circuits. `solve` keeps the circuits as a list of sets: a pair whose boxes
 * sit in two circuits merges them, a pair with one known box adds the other
 * to its circuit, and a pair of unknown boxes starts a new circuit. It stops
 * at the first pair after which the first circuit holds every box and answers
 * the product of that pair's x coordinates; otherwise it answers the product
 * of the three largest circuit sizes.
 */
module Day08 {
  import opened Wrappers
  import Sets

  /** `JBox(x, y, z)`. */
  datatype JBox = JBox(x: int, y: int, z: int)

  /** One entry of the ordered pair list: `combo[0]`, `combo[1]`. */
  datatype Pair = Pair(first: JBox, second: JBox)

  /** `connected`: the circuits, in list order. */
  type Circuits = seq<set<JBox>>

  /** No box lies in two circuits. */
  predicate Disjoint(cs: Circuits) {
    forall i, j :: 0 <= i < j < |cs| ==> cs[i] !! cs[j]
  }

  /** Every box of every circuit. */
  function Union(cs: Circuits): set<JBox> {
    if cs == [] then {} else cs[0] + Union(cs[1..])
  }

  lemma {:induction false} UnionAppend(a: Circuits, b: Circuits)
    ensures Union(a + b) == Union(a) + Union(b)
  {
    if a == [] {
      assert a + b == b;
    } else {
      assert (a + b)[0] == a[0];
      assert (a + b)[1..] == a[1..] + b;
      UnionAppend(a[1..], b);
    }
  }

  /** A box lies in the union exactly when some circuit holds it. */
  lemma {:induction false} UnionMembers(cs: Circuits, box: JBox)
    ensures box in Union(cs) <==> exists i :: 0 <= i < |cs| && box in cs[i]
  {
    if cs != [] {
      UnionMembers(cs[1..], box);
      if box in Union(cs[1..]) {
        var i :| 0 <= i < |cs[1..]| && box in cs[1..][i];
        assert box in cs[i + 1];
      }
      if exists i :: 0 <= i < |cs| && box in cs[i] {
        var i :| 0 <= i < |cs| && box in cs[i];
        if i > 0 {
          assert box in cs[1..][i - 1];
        }
      }
    }
  }

  /** The union with circuit `i` cut out of the list. */
  lemma {:induction false} UnionAround(cs: Circuits, i: nat)
    requires i < |cs|
    ensures Union(cs) == Union(cs[..i]) + cs[i] + Union(cs[i + 1..])
  {
    if i == 0 {
      assert cs[..0] == [];
    } else {
      var tail := cs[1..];
      UnionAround(tail, i - 1);
      assert tail[i - 1] == cs[i] && tail[i..] == cs[i + 1..];
      assert cs[..i][0] == cs[0] && cs[..i][1..] == tail[..i - 1];
    }
  }

  /** The list without entry `i`: `Vec::remove`. */
  function Remove(cs: Circuits, i: nat): (r: Circuits)
    requires i < |cs|
    ensures |r| == |cs| - 1
    ensures forall k :: 0 <= k < i ==> r[k] == cs[k]
    ensures forall k :: i <= k < |r| ==> r[k] == cs[k + 1]
  {
    cs[..i] + cs[i + 1..]
  }

  // ------------------------------------------------------- finding circuits

  /** The last of the first `n` circuits holding `box`: `jbox_circuit`. */
  function HolderOf(cs: Circuits, n: nat, box: JBox): (r: Option<nat>)
    requires n <= |cs|
    ensures r.Some? ==> r.value < n && box in cs[r.value]
    ensures r.Some? ==> forall j :: r.value < j < n ==> box !in cs[j]
    ensures r.None? ==> forall j :: 0 <= j < n ==> box !in cs[j]
  {
    if n == 0 then None
    else if box in cs[n - 1] then Some(n - 1)
    else HolderOf(cs, n - 1, box)
  }

  /**
   * The last of the first `n` circuits holding `box` but not `other`: the
   * `else if` of the scan only looks for the second box in circuits that do
   * not hold the first.
   */
  function HolderWithout(cs: Circuits, n: nat, box: JBox, other: JBox): (r: Option<nat>)
    requires n <= |cs|
    ensures r.Some? ==> r.value < n && box in cs[r.value] && other !in cs[r.value]
    ensures r.Some? ==> forall j :: r.value < j < n ==> box !in cs[j] || other in cs[j]
    ensures r.None? ==> forall j :: 0 <= j < n ==> box !in cs[j] || other in cs[j]
  {
    if n == 0 then None
    else if box in cs[n - 1] && other !in cs[n - 1] then Some(n - 1)
    else HolderWithout(cs, n - 1, box, other)
  }

  /** With disjoint circuits, the one holding a box is the only one. */
  lemma HolderUnique(cs: Circuits, box: JBox, i: nat)
    requires Disjoint(cs) && i < |cs| && box in cs[i]
    ensures HolderOf(cs, |cs|, box) == Some(i)
  {
    var r := HolderOf(cs, |cs|, box);
  }

  /** The scan over `connected.iter_mut().enumerate()`. */
  method FindCircuits(cs: Circuits, box: JBox, other: JBox) returns (boxCircuit: Option<nat>, otherCircuit: Option<nat>)
    ensures boxCircuit == HolderOf(cs, |cs|, box)
    ensures otherCircuit == HolderWithout(cs, |cs|, other, box)
  {
    boxCircuit, otherCircuit := None, None;
    for idx := 0 to |cs|
      invariant boxCircuit == HolderOf(cs, idx, box)
      invariant otherCircuit == HolderWithout(cs, idx, other, box)
    {
      if box in cs[idx] {
        boxCircuit := Some(idx);
      } else if other in cs[idx] {
        otherCircuit := Some(idx);
      }
    }
  }

  // ---------------------------------------------------------- connecting

  /** One pass of the loop of `solve`: the circuits after joining `box` and `other`. */
  function Connect(cs: Circuits, box: JBox, other: JBox): Circuits {
    var boxCircuit := HolderOf(cs, |cs|, box);
    var otherCircuit := HolderWithout(cs, |cs|, other, box);
    if boxCircuit.Some? then
      if otherCircuit.Some? then
        Remove(cs[boxCircuit.value := cs[boxCircuit.value] + cs[otherCircuit.value]], otherCircuit.value)
      else
        cs[boxCircuit.value := cs[boxCircuit.value] + {other}]
    else if otherCircuit.Some? then
      cs[otherCircuit.value := cs[otherCircuit.value] + {box}]
    else
      cs + [{box, other}]
  }

  /** Two unknown boxes start a new circuit of their own at the end of the list. */
  lemma ConnectNew(cs: Circuits, box: JBox, other: JBox)
    requires box !in Union(cs) && other !in Union(cs)
    ensures Connect(cs, box, other) == cs + [{box, other}]
  {
    UnionMembers(cs, box);
    UnionMembers(cs, other);
  }

  /** A box joins the circuit of its known partner, and nothing else changes. */
  lemma ConnectJoinsFirst(cs: Circuits, box: JBox, other: JBox, i: nat)
    requires Disjoint(cs) && i < |cs| && box in cs[i] && other !in Union(cs)
    ensures Connect(cs, box, other) == cs[i := cs[i] + {other}]
  {
    HolderUnique(cs, box, i);
    UnionMembers(cs, other);
  }

  lemma ConnectJoinsSecond(cs: Circuits, box: JBox, other: JBox, i: nat)
    requires Disjoint(cs) && i < |cs| && other in cs[i] && box !in Union(cs)
    ensures Connect(cs, box, other) == cs[i := cs[i] + {box}]
  {
    UnionMembers(cs, box);
    assert box !in cs[i];
    var r := HolderWithout(cs, |cs|, other, box);
  }

  /** Two boxes already in one circuit change nothing. */
  lemma ConnectSame(cs: Circuits, box: JBox, other: JBox, i: nat)
    requires Disjoint(cs) && i < |cs| && box in cs[i] && other in cs[i]
    ensures Connect(cs, box, other) == cs
  {
    HolderUnique(cs, box, i);
    var r := HolderWithout(cs, |cs|, other, box);
    assert cs[i] + {other} == cs[i];
    assert cs[i := cs[i] + {other}] == cs;
  }

  /**
   * Boxes in two different circuits merge them: the second is added to the
   * first and removed from the list, so there is one circuit fewer.
   */
  lemma ConnectMerges(cs: Circuits, box: JBox, other: JBox, i: nat, j: nat)
    requires Disjoint(cs) && i < |cs| && j < |cs| && i != j && box in cs[i] && other in cs[j]
    ensures Connect(cs, box, other) == Remove(cs[i := cs[i] + cs[j]], j)
    ensures |Connect(cs, box, other)| == |cs| - 1
  {
    HolderUnique(cs, box, i);
    assert box !in cs[j];
    var r := HolderWithout(cs, |cs|, other, box);
  }

  /** After joining, both boxes sit in one circuit. */
  lemma ConnectTogether(cs: Circuits, box: JBox, other: JBox) returns (k: nat)
    ensures k < |Connect(cs, box, other)|
    ensures box in Connect(cs, box, other)[k] && other in Connect(cs, box, other)[k]
  {
    var boxCircuit := HolderOf(cs, |cs|, box);
    var otherCircuit := HolderWithout(cs, |cs|, other, box);
    var next := Connect(cs, box, other);
    if boxCircuit.Some? && otherCircuit.Some? {
      var i, j := boxCircuit.value, otherCircuit.value;
      k := if i < j then i else i - 1;
      assert next[k] == cs[i] + cs[j];
    } else if boxCircuit.Some? {
      k := boxCircuit.value;
    } else if otherCircuit.Some? {
      k := otherCircuit.value;
    } else {
      k := |cs|;
    }
  }

  /** Replacing circuit `i` by `c` swaps its boxes for those of `c` in the union. */
  lemma UnionUpdate(cs: Circuits, i: nat, c: set<JBox>)
    requires i < |cs|
    ensures Union(cs[i := c]) == Union(cs[..i]) + c + Union(cs[i + 1..])
  {
    var updated := cs[i := c];
    UnionAround(updated, i);
    assert updated[..i] == cs[..i];
    assert updated[i + 1..] == cs[i + 1..];
  }

  /** Removing circuit `j` leaves the union of the circuits around it. */
  lemma UnionRemove(cs: Circuits, j: nat)
    requires j < |cs|
    ensures Union(Remove(cs, j)) == Union(cs[..j]) + Union(cs[j + 1..])
  {
    UnionAppend(cs[..j], cs[j + 1..]);
  }

  /** Merging circuit `j` into circuit `i` and dropping `j` keeps the union. */
  lemma UnionMerge(cs: Circuits, i: nat, j: nat)
    requires i < |cs| && j < |cs| && i != j
    ensures Union(Remove(cs[i := cs[i] + cs[j]], j)) == Union(cs)
  {
    var merged := cs[i := cs[i] + cs[j]];
    var r := Remove(merged, j);
    var k := if i < j then i else i - 1;
    assert r[k] == cs[i] + cs[j];
    UnionAround(r, k);
    UnionRemove(merged, j);
    UnionAround(merged, j);
    UnionAround(merged, i);
    UnionAround(cs, i);
    UnionAround(cs, j);
    UnionUpdate(cs, i, cs[i] + cs[j]);
  }

  /** Joining adds exactly the two boxes to the union of the circuits. */
  lemma ConnectUnion(cs: Circuits, box: JBox, other: JBox)
    ensures Union(Connect(cs, box, other)) == Union(cs) + {box, other}
  {
    var boxCircuit := HolderOf(cs, |cs|, box);
    var otherCircuit := HolderWithout(cs, |cs|, other, box);
    if boxCircuit.Some? && otherCircuit.Some? {
      var i, j := boxCircuit.value, otherCircuit.value;
      UnionMerge(cs, i, j);
      UnionAround(cs, i);
      UnionAround(cs, j);
    } else if boxCircuit.Some? {
      var i := boxCircuit.value;
      UnionAround(cs, i);
      UnionUpdate(cs, i, cs[i] + {other});
    } else if otherCircuit.Some? {
      var i := otherCircuit.value;
      UnionAround(cs, i);
      UnionUpdate(cs, i, cs[i] + {box});
    } else {
      UnionAppend(cs, [{box, other}]);
      assert Union([{box, other}]) == {box, other} + Union([]);
    }
  }

  /** Joining keeps the circuits disjoint. */
  lemma ConnectDisjoint(cs: Circuits, box: JBox, other: JBox)
    requires Disjoint(cs)
    ensures Disjoint(Connect(cs, box, other))
  {
    var next := Connect(cs, box, other);
    UnionMembers(cs, box);
    UnionMembers(cs, other);
    if box in Union(cs) && other in Union(cs) {
      var i :| 0 <= i < |cs| && box in cs[i];
      var j :| 0 <= j < |cs| && other in cs[j];
      if i == j {
        ConnectSame(cs, box, other, i);
      } else {
        ConnectMerges(cs, box, other, i, j);
        MergedDisjoint(cs, i, j);
      }
    } else if box in Union(cs) {
      var i :| 0 <= i < |cs| && box in cs[i];
      ConnectJoinsFirst(cs, box, other, i);
      AddedDisjoint(cs, i, other);
    } else if other in Union(cs) {
      var i :| 0 <= i < |cs| && other in cs[i];
      ConnectJoinsSecond(cs, box, other, i);
      AddedDisjoint(cs, i, box);
    } else {
      ConnectNew(cs, box, other);
      forall k | 0 <= k < |cs| ensures cs[k] !! {box, other} {
        assert box !in cs[k] && other !in cs[k];
      }
    }
  }

  lemma AddedDisjoint(cs: Circuits, i: nat, box: JBox)
    requires Disjoint(cs) && i < |cs| && box !in Union(cs)
    ensures Disjoint(cs[i := cs[i] + {box}])
  {
    UnionMembers(cs, box);
  }

  lemma MergedDisjoint(cs: Circuits, i: nat, j: nat)
    requires Disjoint(cs) && i < |cs| && j < |cs| && i != j
    ensures Disjoint(Remove(cs[i := cs[i] + cs[j]], j))
  {
    var merged := cs[i := cs[i] + cs[j]];
    var r := Remove(merged, j);
    forall a, b | 0 <= a < b < |r| ensures r[a] !! r[b] {
      var a' := if a < j then a else a + 1;
      var b' := if b < j then b else b + 1;
      assert r[a] == merged[a'] && r[b] == merged[b'];
      assert a' < b' && a' != j && b' != j;
      if a' == i {
        assert cs[b'] !! cs[i] && cs[b'] !! cs[j];
      } else if b' == i {
        assert cs[a'] !! cs[i] && cs[a'] !! cs[j];
      }
    }
  }

  /** No circuit is empty. */
  predicate NoneEmpty(cs: Circuits) {
    forall k :: 0 <= k < |cs| ==> cs[k] != {}
  }

  /** Joining never leaves an empty circuit behind. */
  lemma ConnectNoneEmpty(cs: Circuits, box: JBox, other: JBox)
    requires NoneEmpty(cs)
    ensures NoneEmpty(Connect(cs, box, other))
  {
    var next := Connect(cs, box, other);
    forall k | 0 <= k < |next| ensures next[k] != {} {
      var boxCircuit := HolderOf(cs, |cs|, box);
      var otherCircuit := HolderWithout(cs, |cs|, other, box);
      if boxCircuit.Some? && otherCircuit.Some? {
        var i, j := boxCircuit.value, otherCircuit.value;
        var merged := cs[i := cs[i] + cs[j]];
        var k' := if k < j then k else k + 1;
        assert next[k] == merged[k'];
        assert cs[k'] <= merged[k'];
      } else if boxCircuit.Some? {
        assert cs[k] <= next[k];
      } else if otherCircuit.Some? {
        assert cs[k] <= next[k];
      } else if k < |cs| {
        assert next[k] == cs[k];
      } else {
        assert box in next[k];
      }
    }
  }

  /**
   * With disjoint, non-empty circuits drawn from `boxes`, circuit 0 holds as
   * many boxes as there are exactly when it is the only circuit and holds
   * them all: the early return of `solve` fires on the pair that links every
   * box into one circuit.
   */
  lemma CompleteMeansSingle(cs: Circuits, boxes: set<JBox>)
    requires cs != [] && Disjoint(cs) && NoneEmpty(cs) && Union(cs) <= boxes
    ensures |cs[0]| == |boxes| <==> cs == [boxes]
  {
    if |cs[0]| == |boxes| {
      UnionAround(cs, 0);
      Sets.SubsetSize(cs[0], boxes);
      if |cs| > 1 {
        assert false;
      }
    }
  }

  // ------------------------------------------------------------ the run

  /** The circuits after the first `n` pairs. */
  function CircuitsAfter(pairs: seq<Pair>, n: nat): Circuits
    requires n <= |pairs|
  {
    if n == 0 then [] else Connect(CircuitsAfter(pairs, n - 1), pairs[n - 1].first, pairs[n - 1].second)
  }

  /** The boxes named by the first `n` pairs. */
  function Seen(pairs: seq<Pair>, n: nat): set<JBox>
    requires n <= |pairs|
  {
    if n == 0 then {} else Seen(pairs, n - 1) + {pairs[n - 1].first, pairs[n - 1].second}
  }

  /** At every point the circuits are disjoint and together hold exactly the boxes seen. */
  lemma {:induction false} CircuitsAfterFacts(pairs: seq<Pair>, n: nat)
    requires n <= |pairs|
    ensures Disjoint(CircuitsAfter(pairs, n))
    ensures NoneEmpty(CircuitsAfter(pairs, n))
    ensures Union(CircuitsAfter(pairs, n)) == Seen(pairs, n)
  {
    if n > 0 {
      CircuitsAfterFacts(pairs, n - 1);
      ConnectNoneEmpty(CircuitsAfter(pairs, n - 1), pairs[n - 1].first, pairs[n - 1].second);
      ConnectDisjoint(CircuitsAfter(pairs, n - 1), pairs[n - 1].first, pairs[n - 1].second);
      ConnectUnion(CircuitsAfter(pairs, n - 1), pairs[n - 1].first, pairs[n - 1].second);
    }
  }

  /** `(jbox.0 * other.0) as usize`: a negative product wraps modulo 2^64. */
  function AsUsize(v: int): (r: nat)
    ensures r < 0x1_0000_0000_0000_0000
    ensures 0 <= v < 0x1_0000_0000_0000_0000 ==> r == v
  {
    v % 0x1_0000_0000_0000_0000
  }

  /** The product of the sequence; 1 for the empty one is never reached by `reduce`. */
  function Product(s: seq<nat>): nat {
    if s == [] then 1 else s[0] * Product(s[1..])
  }

  /** Each size is at least the next one. */
  predicate Descending(s: seq<nat>) {
    forall i :: 0 <= i < |s| - 1 ==> s[i] >= s[i + 1]
  }

  /** In a descending sequence every size is at least each later one. */
  lemma {:induction false} DescendingAll(s: seq<nat>, i: nat, j: nat)
    requires Descending(s) && i <= j < |s|
    ensures s[i] >= s[j]
    decreases j - i
  {
    if i < j {
      DescendingAll(s, i + 1, j);
    }
  }

  lemma DescendingCons(head: nat, s: seq<nat>)
    requires Descending(s) && (s == [] || head >= s[0])
    ensures Descending([head] + s)
  {
  }

  function InsertDescending(x: nat, s: seq<nat>): (r: seq<nat>)
    requires Descending(s)
    ensures |r| == |s| + 1
    ensures r[0] == x || (s != [] && r[0] == s[0])
    ensures Descending(r)
    ensures multiset(r) == multiset(s) + multiset{x}
  {
    if s == [] || x >= s[0] then
      DescendingCons(x, s);
      [x] + s
    else
      var rest := InsertDescending(x, s[1..]);
      assert s == [s[0]] + s[1..];
      assert multiset(s) == multiset{s[0]} + multiset(s[1..]);
      assert rest[0] <= s[0] by {
        if |s| > 1 { assert s[0] >= s[1]; }
      }
      DescendingCons(s[0], rest);
      [s[0]] + rest
  }

  /** `sorted().rev()`: the same sizes, largest first. */
  function SortDescending(s: seq<nat>): (r: seq<nat>)
    ensures Descending(r)
    ensures multiset(r) == multiset(s)
  {
    if s == [] then []
    else
      assert s == [s[0]] + s[1..];
      InsertDescending(s[0], SortDescending(s[1..]))
  }

  function Sizes(cs: Circuits): (r: seq<nat>)
    ensures |r| == |cs|
    ensures forall k :: 0 <= k < |cs| ==> r[k] == |cs[k]|
  {
    seq(|cs|, k requires 0 <= k < |cs| => |cs[k]|)
  }

  /** `take(3).reduce(|a, b| a * b).unwrap()` over the sizes, largest first. */
  function TopThree(cs: Circuits): nat
    requires cs != []
  {
    var sorted := SortDescending(Sizes(cs));
    assert |sorted| == |cs| by {
      assert |multiset(sorted)| == |multiset(Sizes(cs))|;
    }
    Product(sorted[..if |sorted| < 3 then |sorted| else 3])
  }

  /** The sizes multiplied are the largest ones: none left out is bigger. */
  lemma TopThreeLargest(cs: Circuits)
    requires cs != []
    ensures var sorted := SortDescending(Sizes(cs));
            |sorted| == |cs|
            && multiset(sorted) == multiset(Sizes(cs))
            && forall i, j :: 0 <= i < 3 && i < j < |sorted| ==> sorted[i] >= sorted[j]
  {
    var sorted := SortDescending(Sizes(cs));
    assert |multiset(sorted)| == |multiset(Sizes(cs))|;
    forall i, j | 0 <= i < 3 && i < j < |sorted| ensures sorted[i] >= sorted[j] {
      DescendingAll(sorted, i, j);
    }
  }

  /**
   * The answer of `solve` from the `k`-th pair on, with circuits `cs` so far:
   * stop at the first pair after which circuit 0 holds `boxCount` boxes.
   */
  function Finish(pairs: seq<Pair>, boxCount: nat, k: nat, cs: Circuits): nat
    requires 0 < |pairs| && k <= |pairs|
    requires k > 0 ==> cs != []
    decreases |pairs| - k
  {
    if k == |pairs| then TopThree(cs)
    else
      var next := Connect(cs, pairs[k].first, pairs[k].second);
      ConnectNonEmpty(cs, pairs[k].first, pairs[k].second);
      if |next[0]| == boxCount then AsUsize(pairs[k].first.x * pairs[k].second.x)
      else Finish(pairs, boxCount, k + 1, next)
  }

  lemma ConnectNonEmpty(cs: Circuits, box: JBox, other: JBox)
    ensures Connect(cs, box, other) != []
  {
    var k := ConnectTogether(cs, box, other);
  }

  /** Circuit 0 is complete after the first `n` pairs. */
  predicate CompleteAfter(pairs: seq<Pair>, boxCount: nat, n: nat)
    requires 0 < n <= |pairs|
  {
    ConnectNonEmpty(CircuitsAfter(pairs, n - 1), pairs[n - 1].first, pairs[n - 1].second);
    |CircuitsAfter(pairs, n)[0]| == boxCount
  }

  lemma CircuitsAfterStep(pairs: seq<Pair>, k: nat)
    requires k < |pairs|
    ensures CircuitsAfter(pairs, k + 1) == Connect(CircuitsAfter(pairs, k), pairs[k].first, pairs[k].second)
    ensures CircuitsAfter(pairs, k + 1) != []
  {
    ConnectNonEmpty(CircuitsAfter(pairs, k), pairs[k].first, pairs[k].second);
  }

  /** One step of `Finish`: stop on a complete circuit 0, or go on with the joined circuits. */
  lemma FinishStep(pairs: seq<Pair>, boxCount: nat, k: nat, cs: Circuits)
    requires k < |pairs| && (k > 0 ==> cs != [])
    ensures Connect(cs, pairs[k].first, pairs[k].second) != []
    ensures Finish(pairs, boxCount, k, cs)
         == if |Connect(cs, pairs[k].first, pairs[k].second)[0]| == boxCount
            then AsUsize(pairs[k].first.x * pairs[k].second.x)
            else Finish(pairs, boxCount, k + 1, Connect(cs, pairs[k].first, pairs[k].second))
  {
    ConnectNonEmpty(cs, pairs[k].first, pairs[k].second);
  }

  lemma CircuitsAfterNonEmpty(pairs: seq<Pair>, n: nat)
    requires 0 < n <= |pairs|
    ensures CircuitsAfter(pairs, n) != []
  {
    ConnectNonEmpty(CircuitsAfter(pairs, n - 1), pairs[n - 1].first, pairs[n - 1].second);
  }

  /**
   * The answer is the x product of the first pair after which circuit 0 is
   * complete.
   */
  lemma {:induction false} FinishAtFirstComplete(pairs: seq<Pair>, boxCount: nat, k: nat, n: nat)
    requires k < n <= |pairs|
    requires k > 0 ==> CircuitsAfter(pairs, k) != []
    requires CompleteAfter(pairs, boxCount, n)
    requires forall m :: k < m < n ==> !CompleteAfter(pairs, boxCount, m)
    ensures Finish(pairs, boxCount, k, CircuitsAfter(pairs, k)) == AsUsize(pairs[n - 1].first.x * pairs[n - 1].second.x)
    decreases n - k
  {
    CircuitsAfterStep(pairs, k);
    FinishStep(pairs, boxCount, k, CircuitsAfter(pairs, k));
    if k + 1 < n {
      assert !CompleteAfter(pairs, boxCount, k + 1);
      FinishAtFirstComplete(pairs, boxCount, k + 1, n);
    }
  }

  /** When no pair completes circuit 0, the answer is the product of the three largest sizes. */
  lemma {:induction false} FinishWhenNoneComplete(pairs: seq<Pair>, boxCount: nat, k: nat)
    requires 0 < |pairs| && k <= |pairs|
    requires k > 0 ==> CircuitsAfter(pairs, k) != []
    requires forall m :: k < m <= |pairs| ==> !CompleteAfter(pairs, boxCount, m)
    ensures CircuitsAfter(pairs, |pairs|) != []
    ensures Finish(pairs, boxCount, k, CircuitsAfter(pairs, k)) == TopThree(CircuitsAfter(pairs, |pairs|))
    decreases |pairs| - k
  {
    CircuitsAfterNonEmpty(pairs, |pairs|);
    if k < |pairs| {
      CircuitsAfterStep(pairs, k);
      FinishStep(pairs, boxCount, k, CircuitsAfter(pairs, k));
      assert !CompleteAfter(pairs, boxCount, k + 1);
      FinishWhenNoneComplete(pairs, boxCount, k + 1);
    }
  }

  /**
   * `solve` over the ordered pair list, with `box_count` the number of input
   * lines. The source unwraps the final `reduce`, so the list is non-empty.
   */
  method Solve(pairs: seq<Pair>, boxCount: nat) returns (answer: nat)
    requires |pairs| > 0
    ensures answer == Finish(pairs, boxCount, 0, [])
  {
    var connected: Circuits := [];
    for k := 0 to |pairs|
      invariant k > 0 ==> connected != []
      invariant Finish(pairs, boxCount, k, connected) == Finish(pairs, boxCount, 0, [])
    {
      var box, other := pairs[k].first, pairs[k].second;
      var boxCircuit, otherCircuit := FindCircuits(connected, box, other);
      ghost var before := connected;
      if boxCircuit.Some? {
        if otherCircuit.Some? {
          connected := connected[boxCircuit.value := connected[boxCircuit.value] + connected[otherCircuit.value]];
          connected := connected[..otherCircuit.value] + connected[otherCircuit.value + 1..];
        } else {
          connected := connected[boxCircuit.value := connected[boxCircuit.value] + {other}];
        }
      } else {
        if otherCircuit.Some? {
          connected := connected[otherCircuit.value := connected[otherCircuit.value] + {box}];
        } else {
          connected := connected + [{box, other}];
        }
      }
      assert connected == Connect(before, box, other);
      ConnectNonEmpty(before, box, other);
      if |connected[0]| == boxCount {
        return AsUsize(box.x * other.x);
      }
    }
    answer := TopThree(connected);
  }
}
