/**
 * Day 3: each input line is a bank of batteries, one decimal digit each.
 * Part 1 turns on two batteries, part 2 twelve, keeping their order; the
 * joltage is the number their digits spell. Both parts add up the best
 * joltage of every bank.
 */
module Day03 {
  import opened Text

  datatype Solution = Solution(part1: nat, part2: nat)

  /** The number of batteries part 2 turns on. */
  const PICKS: nat := 12

  /** Every battery holds one decimal digit. */
  predicate IsBank(bank: seq<nat>) {
    forall i :: 0 <= i < |bank| ==> bank[i] < 10
  }

  /** `line.chars().map(|c| c.to_digit(10).unwrap())`: a non-digit panics in the source. */
  function BankOf(line: string): (bank: seq<nat>)
    requires forall i :: 0 <= i < |line| ==> IsDigit(line[i])
    ensures |bank| == |line| && IsBank(bank)
  {
    seq(|line|, i requires 0 <= i < |line| => DigitValue(line[i]))
  }

  /** A sequence with a first element. */
  lemma ConsParts(all: seq<nat>, x: nat, rest: seq<nat>)
    requires all == [x] + rest
    ensures |all| == |rest| + 1 && all[0] == x && all[1..] == rest
  {
  }

  /** Appending one element, then the rest. */
  lemma AppendOne(front: seq<nat>, x: nat, rest: seq<nat>)
    ensures front + ([x] + rest) == (front + [x]) + rest
  {
  }

  // ---------------------------------------------------------------- part 1

  function Max(a: nat, b: nat): nat {
    if a >= b then a else b
  }

  /** The largest of the first `n` digits of `s`, 0 when `n` is 0. */
  function MaxDigit(s: seq<nat>, n: nat): nat
    requires n <= |s|
  {
    if n == 0 then 0 else Max(MaxDigit(s, n - 1), s[n - 1])
  }

  /** `MaxDigit` is at least every digit it covers and, when it covers any, equal to one of them. */
  lemma {:induction false} MaxDigitIsMax(s: seq<nat>, n: nat)
    requires n <= |s|
    ensures forall i :: 0 <= i < n ==> s[i] <= MaxDigit(s, n)
    ensures n > 0 ==> exists i :: 0 <= i < n && s[i] == MaxDigit(s, n)
  {
    if n > 0 {
      MaxDigitIsMax(s, n - 1);
    }
  }

  /**
   * The best two-digit joltage among the first `n` batteries: the largest
   * `10 * s[i] + s[j]` with `i < j < n`. A lone battery counts as its own
   * digit, as the source computes it.
   */
  function MaxPair(s: seq<nat>, n: nat): nat
    requires n <= |s|
  {
    if n == 0 then 0
    else Max(MaxPair(s, n - 1), 10 * MaxDigit(s, n - 1) + s[n - 1])
  }

  /** `MaxPair` bounds every ordered pair among the first `n` batteries. */
  lemma {:induction false} MaxPairBounds(s: seq<nat>, n: nat)
    requires n <= |s|
    ensures forall i, j :: 0 <= i < j < n ==> 10 * s[i] + s[j] <= MaxPair(s, n)
  {
    if n > 0 {
      MaxPairBounds(s, n - 1);
      MaxDigitIsMax(s, n - 1);
    }
  }

  /** Once there are two batteries, `MaxPair` is the joltage of one ordered pair. */
  lemma MaxPairAttained(s: seq<nat>, n: nat)
    requires 2 <= n <= |s|
    ensures exists i, j :: 0 <= i < j < n && 10 * s[i] + s[j] == MaxPair(s, n)
  {
    var i, j := MaxPairWitness(s, n);
  }

  /** The ordered pair whose joltage `MaxPair` is. */
  lemma {:induction false} MaxPairWitness(s: seq<nat>, n: nat) returns (i: nat, j: nat)
    requires 2 <= n <= |s|
    ensures i < j < n && 10 * s[i] + s[j] == MaxPair(s, n)
  {
    MaxDigitIsMax(s, n - 1);
    var d := MaxDigit(s, n - 1);
    if n == 2 {
      assert MaxPair(s, 1) == s[0];
    }
    if n == 2 || MaxPair(s, n) == 10 * d + s[n - 1] {
      var k :| 0 <= k < n - 1 && s[k] == d;
      i, j := k, n - 1;
    } else {
      i, j := MaxPairWitness(s, n - 1);
    }
  }

  /**
   * The scan for `left` and `right`: `left` ends as the largest digit before
   * the last battery, and `10 * left + right` as the best two-digit joltage.
   * An empty line makes `bank.len() - 1` underflow in the source.
   */
  method BestPair(bank: seq<nat>) returns (left: nat, right: nat)
    requires |bank| >= 1 && IsBank(bank)
    ensures left == MaxDigit(bank, |bank| - 1)
    ensures 10 * left + right == MaxPair(bank, |bank|)
    ensures left < 10 && right < 10
  {
    left, right := 0, 0;
    for idx := 0 to |bank| - 1
      invariant left == MaxDigit(bank, idx) && left < 10 && right < 10
      invariant 10 * left + Max(right, bank[idx]) == MaxPair(bank, idx + 1)
    {
      if bank[idx] > left {
        left := bank[idx];
        right := bank[idx + 1];
      } else if bank[idx] > right {
        right := bank[idx];
      }
    }
    if bank[|bank| - 1] > right {
      right := bank[|bank| - 1];
    }
  }

  // ---------------------------------------------------------------- part 2

  /**
   * `enumerate().reduce(|acc, item| if acc.1 >= item.1 { acc } else { item })`:
   * the index of the largest digit, the earliest one on a tie.
   */
  function FirstMax(w: seq<nat>): (k: nat)
    requires |w| >= 1
    ensures k < |w|
  {
    if |w| == 1 then 0
    else
      var a := FirstMax(w[..|w| - 1]);
      if w[a] >= w[|w| - 1] then a else |w| - 1
  }

  /** The reduce keeps the earliest of the largest digits: nothing is larger, nothing before it is as large. */
  lemma {:induction false} FirstMaxIsFirstLargest(w: seq<nat>)
    requires |w| >= 1
    ensures forall j :: 0 <= j < |w| ==> w[j] <= w[FirstMax(w)]
    ensures forall j :: 0 <= j < FirstMax(w) ==> w[j] < w[FirstMax(w)]
  {
    if |w| > 1 {
      FirstMaxIsFirstLargest(w[..|w| - 1]);
    }
  }

  /**
   * The indices the greedy loop picks when `remaining` batteries are still to
   * come from `from` on: the first largest digit of the window that leaves
   * room for the rest, then the same after it.
   */
  function GreedyPicks(bank: seq<nat>, from: nat, remaining: nat): (r: seq<nat>)
    requires from + remaining <= |bank|
    ensures |r| == remaining
    ensures forall i :: 0 <= i < |r| ==> from <= r[i] < |bank|
    decreases remaining
  {
    if remaining == 0 then []
    else
      var k := from + FirstMax(bank[from..|bank| - remaining + 1]);
      [k] + GreedyPicks(bank, k + 1, remaining - 1)
  }

  lemma GreedyPicksUnfold(bank: seq<nat>, from: nat, remaining: nat, k: nat)
    requires remaining >= 1 && from + remaining <= |bank|
    requires k == from + FirstMax(bank[from..|bank| - remaining + 1])
    ensures k + remaining <= |bank|
    ensures GreedyPicks(bank, from, remaining) == [k] + GreedyPicks(bank, k + 1, remaining - 1)
  {
  }

  /** The first pick is the window's first largest digit; the rest are the picks after it. */
  lemma GreedyPicksCons(bank: seq<nat>, from: nat, remaining: nat)
    requires remaining >= 1 && from + remaining <= |bank|
    ensures var r := GreedyPicks(bank, from, remaining);
            r[0] == from + FirstMax(bank[from..|bank| - remaining + 1])
            && r[0] + remaining <= |bank|
            && r[1..] == GreedyPicks(bank, r[0] + 1, remaining - 1)
  {
    var k := from + FirstMax(bank[from..|bank| - remaining + 1]);
    GreedyPicksUnfold(bank, from, remaining, k);
    ConsParts(GreedyPicks(bank, from, remaining), k, GreedyPicks(bank, k + 1, remaining - 1));
  }

  /** The `i`-th pick leaves at least `remaining - 1 - i` batteries after it for the picks still to come. */
  lemma {:induction false} GreedyPicksRoom(bank: seq<nat>, from: nat, remaining: nat)
    requires from + remaining <= |bank|
    ensures forall i :: 0 <= i < remaining ==> GreedyPicks(bank, from, remaining)[i] <= |bank| - remaining + i
    decreases remaining
  {
    if remaining > 0 {
      var r := GreedyPicks(bank, from, remaining);
      GreedyPicksCons(bank, from, remaining);
      var rest := GreedyPicks(bank, r[0] + 1, remaining - 1);
      GreedyPicksRoom(bank, r[0] + 1, remaining - 1);
      forall i | 0 < i < remaining
        ensures r[i] <= |bank| - remaining + i
      {
        assert r[i] == rest[i - 1];
      }
    }
  }

  /** The indices strictly increase. */
  predicate Increasing(idxs: seq<nat>) {
    forall i, j :: 0 <= i < j < |idxs| ==> idxs[i] < idxs[j]
  }

  /** An index below all of an increasing sequence extends it at the front. */
  lemma IncreasingCons(all: seq<nat>, k: nat, rest: seq<nat>)
    requires all == [k] + rest && Increasing(rest)
    requires forall i :: 0 <= i < |rest| ==> k < rest[i]
    ensures Increasing(all)
  {
    forall i, j | 0 <= i < j < |all|
      ensures all[i] < all[j]
    {
      assert all[j] == rest[j - 1];
      if i > 0 {
        assert all[i] == rest[i - 1];
      }
    }
  }

  /** The picks strictly increase. */
  lemma {:induction false} GreedyPicksIncrease(bank: seq<nat>, from: nat, remaining: nat)
    requires from + remaining <= |bank|
    ensures Increasing(GreedyPicks(bank, from, remaining))
    decreases remaining
  {
    if remaining > 0 {
      var k := from + FirstMax(bank[from..|bank| - remaining + 1]);
      GreedyPicksUnfold(bank, from, remaining, k);
      GreedyPicksIncrease(bank, k + 1, remaining - 1);
      IncreasingCons(GreedyPicks(bank, from, remaining), k, GreedyPicks(bank, k + 1, remaining - 1));
    }
  }

  /** The digits at the given indices, in order. */
  function Select(bank: seq<nat>, idxs: seq<nat>): (ds: seq<nat>)
    requires forall i :: 0 <= i < |idxs| ==> idxs[i] < |bank|
    ensures |ds| == |idxs|
  {
    if idxs == [] then [] else [bank[idxs[0]]] + Select(bank, idxs[1..])
  }

  lemma SelectUnfold(bank: seq<nat>, idxs: seq<nat>)
    requires |idxs| >= 1 && forall i :: 0 <= i < |idxs| ==> idxs[i] < |bank|
    ensures Select(bank, idxs) == [bank[idxs[0]]] + Select(bank, idxs[1..])
  {
  }

  /** The `i`-th selected digit is the digit at the `i`-th index. */
  lemma {:induction false} SelectAt(bank: seq<nat>, idxs: seq<nat>)
    requires forall i :: 0 <= i < |idxs| ==> idxs[i] < |bank|
    ensures forall i :: 0 <= i < |idxs| ==> Select(bank, idxs)[i] == bank[idxs[i]]
  {
    if idxs != [] {
      SelectAt(bank, idxs[1..]);
    }
  }

  /**
   * The digits the greedy loop turns on when `remaining` are still to come
   * from `from` on: the first largest digit of the window that leaves room
   * for the rest, then the same after it.
   */
  function GreedyDigits(bank: seq<nat>, from: nat, remaining: nat): seq<nat>
    requires from + remaining <= |bank|
    decreases remaining
  {
    if remaining == 0 then []
    else
      var window := bank[from..|bank| - remaining + 1];
      var idx := FirstMax(window);
      [window[idx]] + GreedyDigits(bank, from + idx + 1, remaining - 1)
  }

  lemma GreedyDigitsUnfold(bank: seq<nat>, from: nat, remaining: nat, window: seq<nat>, idx: nat)
    requires remaining >= 1 && from + remaining <= |bank|
    requires window == bank[from..|bank| - remaining + 1] && idx == FirstMax(window)
    ensures from + idx + remaining <= |bank| && window[idx] == bank[from + idx]
    ensures GreedyDigits(bank, from, remaining) == [window[idx]] + GreedyDigits(bank, from + idx + 1, remaining - 1)
  {
  }

  /** The digits turned on are the digits at the greedy picks. */
  lemma {:induction false} GreedyDigitsArePicks(bank: seq<nat>, from: nat, remaining: nat)
    requires from + remaining <= |bank|
    ensures GreedyDigits(bank, from, remaining) == Select(bank, GreedyPicks(bank, from, remaining))
    decreases remaining
  {
    if remaining > 0 {
      var window := bank[from..|bank| - remaining + 1];
      var idx := FirstMax(window);
      GreedyDigitsUnfold(bank, from, remaining, window, idx);
      GreedyPicksCons(bank, from, remaining);
      GreedyDigitsArePicks(bank, from + idx + 1, remaining - 1);
      SelectUnfold(bank, GreedyPicks(bank, from, remaining));
    }
  }

  /**
   * The loop that turns on `count` batteries (twelve in part 2): the search
   * window always leaves room for the picks still to come. A bank shorter than
   * `count` makes the window empty and the source panics.
   */
  method PickDigits(bank: seq<nat>, count: nat) returns (turnedOn: seq<nat>)
    requires |bank| >= count
    ensures turnedOn == GreedyDigits(bank, 0, count)
  {
    var remaining := count;
    var currentIdx: nat := 0;
    turnedOn := [];
    while remaining > 0
      invariant currentIdx + remaining <= |bank|
      invariant turnedOn + GreedyDigits(bank, currentIdx, remaining) == GreedyDigits(bank, 0, count)
    {
      var window := bank[currentIdx..|bank| - remaining + 1];
      var idx := FirstMax(window);
      GreedyDigitsUnfold(bank, currentIdx, remaining, window, idx);
      AppendOne(turnedOn, window[idx], GreedyDigits(bank, currentIdx + idx + 1, remaining - 1));
      turnedOn := turnedOn + [window[idx]];
      currentIdx := currentIdx + idx + 1;
      remaining := remaining - 1;
    }
  }

  /** The number whose decimal digits are `ds`, most significant first. */
  function DigitsValue(ds: seq<nat>): nat {
    if ds == [] then 0 else 10 * DigitsValue(ds[..|ds| - 1]) + ds[|ds| - 1]
  }

  /** The picked digits, each printed with `to_string`, joined and parsed back. */
  method Joltage(digits: seq<nat>) returns (joltage: nat)
    requires |digits| >= 1 && IsBank(digits)
    ensures joltage == DigitsValue(digits)
  {
    var text := "";
    for i := 0 to |digits|
      invariant text == seq(i, k requires 0 <= k < i => DigitChar(digits[k]))
    {
      text := text + ToDecimal(digits[i]);
    }
    NumeralOfDigits(digits);
    joltage := ParseNat(text).value;
  }

  /** Writing digits one by one and reading them back as a decimal numeral gives their value. */
  lemma {:induction false} NumeralOfDigits(ds: seq<nat>)
    requires |ds| >= 1 && IsBank(ds)
    ensures IsNumeral(seq(|ds|, k requires 0 <= k < |ds| => DigitChar(ds[k])))
    ensures NumeralValue(seq(|ds|, k requires 0 <= k < |ds| => DigitChar(ds[k]))) == DigitsValue(ds)
  {
    var text := seq(|ds|, k requires 0 <= k < |ds| => DigitChar(ds[k]));
    if |ds| > 1 {
      var init := ds[..|ds| - 1];
      NumeralOfDigits(init);
      assert text[..|text| - 1] == seq(|init|, k requires 0 <= k < |init| => DigitChar(init[k]));
    }
  }

  // ---------------------------------------------------- greedy is optimal

  function Pow10(n: nat): (p: nat)
    ensures p >= 1
  {
    if n == 0 then 1 else 10 * Pow10(n - 1)
  }

  /** A leading digit `d` followed by `n` more digits contributes `d * 10^n`. */
  function Scale(d: nat, n: nat): nat {
    if n == 0 then d else 10 * Scale(d, n - 1)
  }

  /** `ds` is `n` digits long and spells a number below `10^n`. */
  lemma {:induction false} DigitsValueBound(ds: seq<nat>)
    requires IsBank(ds)
    ensures DigitsValue(ds) < Pow10(|ds|)
  {
    if ds != [] {
      DigitsValueBound(ds[..|ds| - 1]);
    }
  }

  /** The leading digit contributes its value times `10^(n-1)`. */
  lemma {:induction false} DigitsValueCons(d: nat, ds: seq<nat>)
    ensures DigitsValue([d] + ds) == Scale(d, |ds|) + DigitsValue(ds)
  {
    if ds != [] {
      var init := ds[..|ds| - 1];
      assert ([d] + ds)[..|ds|] == [d] + init;
      DigitsValueCons(d, init);
    } else {
      assert [d] + ds == [d];
      assert [d][..0] == [];
    }
  }

  lemma DigitsValueSplit(all: seq<nat>, d: nat, ds: seq<nat>)
    requires all == [d] + ds
    ensures DigitsValue(all) == Scale(d, |ds|) + DigitsValue(ds)
  {
    DigitsValueCons(d, ds);
  }

  /** `idxs` are `count` strictly increasing indices of `bank`, all at least `from`. */
  predicate IsSelection(bank: seq<nat>, idxs: seq<nat>, from: nat, count: nat) {
    |idxs| == count
    && (forall i :: 0 <= i < |idxs| ==> from <= idxs[i] < |bank|)
    && Increasing(idxs)
  }

  /** The first of `count` increasing indices below `|bank|` is at most `|bank| - count`. */
  lemma {:induction false} SelectionHeadRoom(bank: seq<nat>, idxs: seq<nat>, from: nat, count: nat)
    requires count >= 1 && IsSelection(bank, idxs, from, count)
    ensures idxs[0] + count <= |bank|
    decreases count
  {
    if count > 1 {
      SelectionHeadRoom(bank, idxs[1..], idxs[0] + 1, count - 1);
    }
  }

  /** A leading digit one larger outweighs any `n` digits that follow. */
  lemma {:induction false} ScaleGap(a: nat, b: nat, n: nat)
    requires a < b
    ensures Scale(a, n) + Pow10(n) <= Scale(b, n)
  {
    if n > 0 {
      ScaleGap(a, b, n - 1);
    }
  }

  /** A smaller leading digit loses, whatever follows it. */
  lemma LeadingDigitDecides(a: nat, b: nat, x: nat, y: nat, n: nat)
    requires a < b && x < Pow10(n)
    ensures Scale(a, n) + x < Scale(b, n) + y
  {
    ScaleGap(a, b, n);
  }

  /** A selection's first index lies in the window the greedy step searches. */
  lemma {:induction false} HeadInWindow(bank: seq<nat>, from: nat, count: nat, idxs: seq<nat>)
    requires count >= 1 && from + count <= |bank|
    requires IsSelection(bank, idxs, from, count)
    ensures bank[idxs[0]] <= bank[GreedyPicks(bank, from, count)[0]]
    ensures bank[idxs[0]] == bank[GreedyPicks(bank, from, count)[0]] ==> GreedyPicks(bank, from, count)[0] <= idxs[0]
  {
    var w := bank[from..|bank| - count + 1];
    var k := from + FirstMax(w);
    FirstMaxIsFirstLargest(w);
    GreedyPicksCons(bank, from, count);
    SelectionHeadRoom(bank, idxs, from, count);
    var i0 := idxs[0];
    assert bank[i0] == w[i0 - from];
    assert bank[k] == w[k - from];
  }

  /** A selection's tail is a selection after its head. */
  lemma SelectionTail(bank: seq<nat>, idxs: seq<nat>, from: nat, count: nat, after: nat)
    requires count >= 1 && IsSelection(bank, idxs, from, count) && after <= idxs[0]
    ensures IsSelection(bank, idxs[1..], after + 1, count - 1)
  {
  }

  /** Selecting a head index, then the rest. */
  lemma SelectCons(bank: seq<nat>, idxs: seq<nat>)
    requires |idxs| >= 1 && forall i :: 0 <= i < |idxs| ==> idxs[i] < |bank|
    ensures DigitsValue(Select(bank, idxs)) == Scale(bank[idxs[0]], |idxs| - 1) + DigitsValue(Select(bank, idxs[1..]))
  {
    SelectUnfold(bank, idxs);
    DigitsValueSplit(Select(bank, idxs), bank[idxs[0]], Select(bank, idxs[1..]));
  }

  /** A choice whose first digit is below the greedy first digit spells a smaller number. */
  lemma SmallerHeadLoses(bank: seq<nat>, from: nat, count: nat, idxs: seq<nat>)
    requires IsBank(bank) && count >= 1 && from + count <= |bank|
    requires IsSelection(bank, idxs, from, count)
    requires bank[idxs[0]] < bank[GreedyPicks(bank, from, count)[0]]
    ensures DigitsValue(Select(bank, idxs)) < DigitsValue(Select(bank, GreedyPicks(bank, from, count)))
  {
    var g := GreedyPicks(bank, from, count);
    SelectCons(bank, idxs);
    SelectCons(bank, g);
    SelectAt(bank, idxs[1..]);
    DigitsValueBound(Select(bank, idxs[1..]));
    LeadingDigitDecides(bank[idxs[0]], bank[g[0]], DigitsValue(Select(bank, idxs[1..])), DigitsValue(Select(bank, g[1..])), count - 1);
  }

  /**
   * No choice of `count` batteries from `from` on, kept in order, spells a
   * larger number than the greedy picks.
   */
  lemma {:induction false} GreedyIsBest(bank: seq<nat>, from: nat, count: nat, idxs: seq<nat>)
    requires IsBank(bank) && from + count <= |bank|
    requires IsSelection(bank, idxs, from, count)
    ensures DigitsValue(Select(bank, idxs)) <= DigitsValue(Select(bank, GreedyPicks(bank, from, count)))
    decreases count, 1
  {
    if count > 0 {
      HeadInWindow(bank, from, count, idxs);
      if bank[idxs[0]] < bank[GreedyPicks(bank, from, count)[0]] {
        SmallerHeadLoses(bank, from, count, idxs);
      } else {
        EqualHeadKeepsUp(bank, from, count, idxs, GreedyPicks(bank, from, count)[0]);
      }
    }
  }

  /** A choice that starts on the greedy digit, at or after the greedy pick, is no better than the greedy rest. */
  lemma {:induction false} EqualHeadKeepsUp(bank: seq<nat>, from: nat, count: nat, idxs: seq<nat>, g0: nat)
    requires IsBank(bank) && count >= 1 && from + count <= |bank|
    requires IsSelection(bank, idxs, from, count)
    requires g0 == GreedyPicks(bank, from, count)[0]
    requires bank[idxs[0]] == bank[g0] && g0 <= idxs[0]
    ensures DigitsValue(Select(bank, idxs)) <= DigitsValue(Select(bank, GreedyPicks(bank, from, count)))
    decreases count, 0
  {
    GreedyValueCons(bank, from, count, g0);
    SelectionTail(bank, idxs, from, count, g0);
    GreedyIsBest(bank, g0 + 1, count - 1, idxs[1..]);
    SelectCons(bank, idxs);
  }

  /** The greedy number is its first digit followed by the greedy number of the rest. */
  lemma GreedyValueCons(bank: seq<nat>, from: nat, count: nat, g0: nat)
    requires count >= 1 && from + count <= |bank|
    requires g0 == GreedyPicks(bank, from, count)[0]
    ensures g0 + count <= |bank|
    ensures DigitsValue(Select(bank, GreedyPicks(bank, from, count)))
            == Scale(bank[g0], count - 1) + DigitsValue(Select(bank, GreedyPicks(bank, g0 + 1, count - 1)))
  {
    var g := GreedyPicks(bank, from, count);
    GreedyPicksCons(bank, from, count);
    SelectUnfold(bank, g);
    DigitsValueSplit(Select(bank, g), bank[g0], Select(bank, GreedyPicks(bank, g0 + 1, count - 1)));
  }

  /** The joltage of one bank with `count` batteries on (twelve in part 2). */
  function BestJoltage(bank: seq<nat>, count: nat): nat
    requires |bank| >= count
  {
    DigitsValue(GreedyDigits(bank, 0, count))
  }

  /**
   * The greedy picks are a valid choice of `count` ordered batteries, and no
   * such choice spells a larger number.
   */
  lemma BestJoltageIsMax(bank: seq<nat>, count: nat, idxs: seq<nat>)
    requires |bank| >= count && IsBank(bank)
    requires IsSelection(bank, idxs, 0, count)
    ensures DigitsValue(Select(bank, idxs)) <= BestJoltage(bank, count)
    ensures IsSelection(bank, GreedyPicks(bank, 0, count), 0, count)
  {
    GreedyIsBest(bank, 0, count, idxs);
    GreedyPicksIncrease(bank, 0, count);
    GreedyDigitsArePicks(bank, 0, count);
  }

  // ------------------------------------------------------------- the fold

  /**
   * A line the source accepts when it turns on `count` batteries: digits
   * only, and at least `count` of them (and at least one).
   */
  predicate IsBankLine(line: string, count: nat) {
    |line| >= count && |line| >= 1 && forall i :: 0 <= i < |line| ==> IsDigit(line[i])
  }

  /** The best two-battery joltage of one bank line. */
  function LinePair(line: string, count: nat): nat
    requires IsBankLine(line, count)
  {
    MaxPair(BankOf(line), |line|)
  }

  /** The best `count`-battery joltage of one bank line. */
  function LineJoltage(line: string, count: nat): nat
    requires IsBankLine(line, count)
  {
    BestJoltage(BankOf(line), count)
  }

  /** Part 1 over the first `n` lines: the sum of their best pairs. */
  function Part1Total(lines: seq<string>, n: nat, count: nat): nat
    requires n <= |lines| && forall i :: 0 <= i < |lines| ==> IsBankLine(lines[i], count)
  {
    if n == 0 then 0 else Part1Total(lines, n - 1, count) + LinePair(lines[n - 1], count)
  }

  /** Part 2 over the first `n` lines: the sum of their best `count`-battery joltages. */
  function Part2Total(lines: seq<string>, n: nat, count: nat): nat
    requires n <= |lines| && forall i :: 0 <= i < |lines| ==> IsBankLine(lines[i], count)
  {
    if n == 0 then 0 else Part2Total(lines, n - 1, count) + LineJoltage(lines[n - 1], count)
  }

  /** Both joltages of one bank: the best pair, then the best `count`. */
  method SolveBank(line: string, count: nat) returns (pair: nat, joltage: nat)
    requires IsBankLine(line, count) && count >= 1
    ensures pair == LinePair(line, count) && pair <= 99
    ensures joltage == LineJoltage(line, count)
  {
    var bank := BankOf(line);
    var left, right := BestPair(bank);
    pair := 10 * left + right;
    joltage := TurnOn(bank, count);
  }

  /** Turn on `count` batteries greedily and read the joltage they spell. */
  method TurnOn(bank: seq<nat>, count: nat) returns (joltage: nat)
    requires IsBank(bank) && 1 <= count <= |bank|
    ensures joltage == BestJoltage(bank, count)
  {
    var turnedOn := PickDigits(bank, count);
    GreedyDigitsArePicks(bank, 0, count);
    SelectAt(bank, GreedyPicks(bank, 0, count));
    joltage := Joltage(turnedOn);
  }

  /** The fold over the input lines, one bank per line, turning on `count` batteries in part 2. */
  method Fold(lines: seq<string>, count: nat) returns (solution: Solution)
    requires count >= 1
    requires forall i :: 0 <= i < |lines| ==> IsBankLine(lines[i], count)
    ensures solution.part1 == Part1Total(lines, |lines|, count)
    ensures solution.part2 == Part2Total(lines, |lines|, count)
  {
    solution := Solution(0, 0);
    for n := 0 to |lines|
      invariant solution.part1 == Part1Total(lines, n, count)
      invariant solution.part2 == Part2Total(lines, n, count)
    {
      var pair, joltage := SolveBank(lines[n], count);
      solution := Solution(solution.part1 + pair, solution.part2 + joltage);
    }
  }

  /** The puzzle answer: part 2 turns on twelve batteries per bank. */
  method Solve(lines: seq<string>) returns (solution: Solution)
    requires forall i :: 0 <= i < |lines| ==> IsBankLine(lines[i], PICKS)
    ensures solution.part1 == Part1Total(lines, |lines|, PICKS)
    ensures solution.part2 == Part2Total(lines, |lines|, PICKS)
  {
    solution := Fold(lines, PICKS);
  }
}
