/**
 * Day 10: a machine has indicator lights and buttons, each button toggling a
 * listed set of lights. `power_on` searches breadth-first over button
 * sequences for one that turns the lights from their initial state into the
 * target pattern; part 1 sums the lengths of the sequences found.
 *
 * A sequence of buttons is a sequence of button indices (the source holds
 * references into the machine's button list). With `b` buttons the search
 * queue holds the sequences in shortlex order: the `n`-th one dequeued is
 * `Decode(b, n)`, the bijective base-`b` numeral of `n`.
 */
module Day10 {
  /** `Button`: the indices of the lights it toggles. */
  type Button = seq<nat>

  datatype Machine = Machine(indicators: seq<bool>, target: seq<bool>, buttons: seq<Button>, joltages: seq<nat>)

  /**
   * The machine built from one input line: the target pattern, the buttons
   * and the joltages as read, with every light off.
   */
  function MachineOf(target: seq<bool>, buttons: seq<Button>, joltages: seq<nat>): (m: Machine)
    ensures |m.indicators| == |target| && forall i :: 0 <= i < |target| ==> !m.indicators[i]
    ensures m.target == target && m.buttons == buttons
  {
    Machine(seq(|target|, _ => false), target, buttons, joltages)
  }

  /**
   * What pressing requires: at least one light (the comparison `reduce` is
   * unwrapped), a target for every light, and every listed light present
   * (the source indexes the state with it).
   */
  predicate WellFormed(m: Machine) {
    |m.indicators| > 0 && |m.target| == |m.indicators|
    && forall k, j :: 0 <= k < |m.buttons| && 0 <= j < |m.buttons[k]| ==> m.buttons[k][j] < |m.indicators|
  }

  // ----------------------------------------------------------------- toggling

  /** The state after one press: exactly the listed lights flip, a light listed twice flipping once. */
  function Toggle(state: seq<bool>, button: Button): (r: seq<bool>)
    ensures |r| == |state|
    ensures forall i :: 0 <= i < |state| ==> r[i] == (if i in button then !state[i] else state[i])
  {
    seq(|state|, i requires 0 <= i < |state| => if i in button then !state[i] else state[i])
  }

  /**
   * The inner loop of the fold: each listed light of the new state is set to
   * the negation of its value in the state before the press.
   */
  method Press(state: seq<bool>, button: Button) returns (next: seq<bool>)
    requires forall j :: 0 <= j < |button| ==> button[j] < |state|
    ensures next == Toggle(state, button)
  {
    next := state;
    for j := 0 to |button|
      invariant |next| == |state|
      invariant forall i :: 0 <= i < |state| ==> next[i] == (if i in button[..j] then !state[i] else state[i])
    {
      next := next[button[j] := !state[button[j]]];
      assert button[..j + 1] == button[..j] + [button[j]];
    }
    assert button[..|button|] == button;
  }

  /** The sequence uses only buttons of the machine. */
  predicate ValidSequence(m: Machine, s: seq<nat>) {
    forall k :: 0 <= k < |s| ==> s[k] < |m.buttons|
  }

  /** The fold of `power_on`: the lights after pressing the buttons of `s` in order, from the initial state. */
  function Apply(m: Machine, s: seq<nat>): (state: seq<bool>)
    requires WellFormed(m) && ValidSequence(m, s)
    ensures |state| == |m.indicators|
  {
    if s == [] then m.indicators
    else Toggle(Apply(m, s[..|s| - 1]), m.buttons[s[|s| - 1]])
  }

  /** The fold over a sequence, pressing one button at a time. */
  method ApplySequence(m: Machine, s: seq<nat>) returns (state: seq<bool>)
    requires WellFormed(m) && ValidSequence(m, s)
    ensures state == Apply(m, s)
  {
    state := m.indicators;
    for k := 0 to |s|
      invariant state == Apply(m, s[..k])
    {
      assert s[..k + 1][..k] == s[..k];
      state := Press(state, m.buttons[s[k]]);
    }
    assert s[..|s|] == s;
  }

  /** Pressing a button twice in a row undoes it. */
  lemma PressTwice(m: Machine, s: seq<nat>, k: nat)
    requires WellFormed(m) && ValidSequence(m, s) && k < |m.buttons|
    ensures Apply(m, s + [k, k]) == Apply(m, s)
  {
    var once := s + [k];
    assert (s + [k, k])[..|s| + 1] == once;
    assert once[..|s|] == s;
  }

  /**
   * The `enumerate().map(...).reduce(&&)` test: the comparisons of the first
   * `count` lights with the target, folded with `&&` from the left.
   */
  predicate MatchesPrefix(state: seq<bool>, target: seq<bool>, count: nat)
    requires 1 <= count <= |state| && |target| >= |state|
  {
    if count == 1 then state[0] == target[0]
    else MatchesPrefix(state, target, count - 1) && state[count - 1] == target[count - 1]
  }

  predicate Matches(state: seq<bool>, target: seq<bool>)
    requires |state| > 0 && |target| >= |state|
  {
    MatchesPrefix(state, target, |state|)
  }

  /** The fold is true exactly when every one of the first `count` lights matches. */
  lemma {:induction false} MatchesPrefixMeans(state: seq<bool>, target: seq<bool>, count: nat)
    requires 1 <= count <= |state| && |target| >= |state|
    ensures MatchesPrefix(state, target, count) <==> forall i :: 0 <= i < count ==> state[i] == target[i]
  {
    if count > 1 {
      MatchesPrefixMeans(state, target, count - 1);
    }
  }

  /** The sequence turns the machine on. */
  predicate Success(m: Machine, s: seq<nat>)
    requires WellFormed(m) && ValidSequence(m, s)
  {
    Matches(Apply(m, s), m.target)
  }

  /** One round of `power_on`'s test: press the sequence, then compare every light with the target. */
  method TurnsOn(m: Machine, s: seq<nat>) returns (success: bool)
    requires WellFormed(m) && ValidSequence(m, s)
    ensures success == Success(m, s)
  {
    var turnedOn := ApplySequence(m, s);
    success := Matches(turnedOn, m.target);
  }

  lemma SuccessMeans(m: Machine, s: seq<nat>)
    requires WellFormed(m) && ValidSequence(m, s)
    ensures Success(m, s) <==> Apply(m, s) == m.target
  {
    var state := Apply(m, s);
    MatchesPrefixMeans(state, m.target, |state|);
  }

  // --------------------------------------------------------- the BFS order

  /** `n * b`, the position of the last extension of the `n`-th sequence, by repeated addition. */
  function Last(b: nat, n: nat): (last: nat)
    requires b >= 1 && n >= 1
    ensures last >= n && last >= b
  {
    if n == 1 then b else Last(b, n - 1) + b
  }

  lemma {:induction false} LastIsProduct(b: nat, n: nat)
    requires b >= 1 && n >= 1
    ensures Last(b, n) == n * b
  {
    if n > 1 {
      LastIsProduct(b, n - 1);
      assert (n - 1) * b + b == n * b;
    }
  }

  /** `(n - 1) / b`, the position of the sequence that position `n` extends, by repeated subtraction. */
  function Parent(b: nat, n: nat): (p: nat)
    requires b >= 1 && n > b
    ensures 1 <= p < n
  {
    if n <= 2 * b then 1 else Parent(b, n - b) + 1
  }

  /** `(n - 1) % b`, the button that the sequence at position `n` ends with. */
  function Digit(b: nat, n: nat): (d: nat)
    requires b >= 1 && n >= 1
    ensures d < b
  {
    if n <= b then n - 1 else Digit(b, n - b)
  }

  /** Parent and digit recompose the position: `n - 1 == Parent * b + Digit`. */
  lemma {:induction false} ParentDigit(b: nat, n: nat)
    requires b >= 1 && n > b
    ensures Last(b, Parent(b, n)) + Digit(b, n) + 1 == n
  {
    if n > 2 * b {
      ParentDigit(b, n - b);
    }
  }

  /** The child at offset `d` of position `n` has parent `n` and digit `d`. */
  lemma {:induction false} ChildPosition(b: nat, n: nat, d: nat)
    requires b >= 1 && n >= 1 && d < b
    ensures Parent(b, Last(b, n) + d + 1) == n && Digit(b, Last(b, n) + d + 1) == d
  {
    if n > 1 {
      ChildPosition(b, n - 1, d);
    }
  }

  /** The `n`-th non-empty sequence over `b` buttons in shortlex order, counting from 1. */
  function Decode(b: nat, n: nat): (s: seq<nat>)
    requires b >= 1 && n >= 1
    ensures |s| >= 1 && forall k :: 0 <= k < |s| ==> s[k] < b
    decreases n
  {
    if n <= b then [n - 1]
    else Decode(b, Parent(b, n)) + [Digit(b, n)]
  }

  /** The position of a non-empty sequence in shortlex order: the inverse of `Decode`. */
  function Encode(b: nat, s: seq<nat>): (n: nat)
    requires b >= 1 && |s| >= 1 && forall k :: 0 <= k < |s| ==> s[k] < b
    ensures n >= 1
  {
    if |s| == 1 then s[0] + 1
    else Last(b, Encode(b, s[..|s| - 1])) + s[|s| - 1] + 1
  }

  /** Extending the `n`-th sequence by button `d` gives the sequence numbered `n * b + d + 1`. */
  lemma DecodeChild(b: nat, n: nat, d: nat)
    requires b >= 1 && n >= 1 && d < b
    ensures Decode(b, Last(b, n) + d + 1) == Decode(b, n) + [d]
  {
    ChildPosition(b, n, d);
  }

  lemma {:induction false} DecodeEncode(b: nat, s: seq<nat>)
    requires b >= 1 && |s| >= 1 && forall k :: 0 <= k < |s| ==> s[k] < b
    ensures Decode(b, Encode(b, s)) == s
  {
    if |s| == 1 {
      assert s == [s[0]];
    } else {
      var prefix, d := s[..|s| - 1], s[|s| - 1];
      var e := Encode(b, prefix);
      DecodeEncode(b, prefix);
      assert Encode(b, s) == Last(b, e) + d + 1;
      DecodeChild(b, e, d);
      ButLastSnoc(s);
    }
  }

  lemma ButLastSnoc(s: seq<nat>)
    requires |s| >= 1
    ensures s[..|s| - 1] + [s[|s| - 1]] == s
  {
  }

  lemma {:induction false} EncodeDecode(b: nat, n: nat)
    requires b >= 1 && n >= 1
    ensures Encode(b, Decode(b, n)) == n
    decreases n
  {
    if n > b {
      var q, r := Parent(b, n), Digit(b, n);
      EncodeDecode(b, q);
      var p := Decode(b, q);
      assert Decode(b, n) == p + [r];
      EncodeSnoc(b, p, r);
      ParentDigit(b, n);
    }
  }

  lemma EncodeSnoc(b: nat, p: seq<nat>, d: nat)
    requires b >= 1 && |p| >= 1 && forall k :: 0 <= k < |p| ==> p[k] < b
    requires d < b
    ensures Encode(b, p + [d]) == Last(b, Encode(b, p)) + d + 1
  {
    assert (p + [d])[..|p|] == p;
  }

  lemma {:induction false} ParentMonotone(b: nat, m: nat, n: nat)
    requires b >= 1 && b < m <= n
    ensures Parent(b, m) <= Parent(b, n)
  {
    if m > 2 * b {
      ParentMonotone(b, m - b, n - b);
    }
  }

  /** Later positions never hold shorter sequences: the queue is dequeued in nondecreasing length. */
  lemma {:induction false} DecodeLengthMonotone(b: nat, m: nat, n: nat)
    requires b >= 1 && 1 <= m <= n
    ensures |Decode(b, m)| <= |Decode(b, n)|
    decreases n
  {
    if m > b {
      ParentMonotone(b, m, n);
      DecodeLengthMonotone(b, Parent(b, m), Parent(b, n));
    }
  }

  /** A shorter sequence comes earlier in the search. */
  lemma ShorterFirst(b: nat, s: seq<nat>, t: seq<nat>)
    requires b >= 1 && |s| >= 1 && forall k :: 0 <= k < |s| ==> s[k] < b
    requires |t| >= 1 && forall k :: 0 <= k < |t| ==> t[k] < b
    requires |s| < |t|
    ensures Encode(b, s) < Encode(b, t)
  {
    if Encode(b, s) >= Encode(b, t) {
      DecodeLengthMonotone(b, Encode(b, t), Encode(b, s));
      DecodeEncode(b, s);
      DecodeEncode(b, t);
    }
  }

  /** The queue between two positions, inclusive. */
  function QueueBetween(b: nat, lo: nat, hi: int): seq<seq<nat>>
    requires b >= 1 && lo >= 1
    decreases if hi >= lo then hi - lo + 1 else 0
  {
    if hi < lo then [] else QueueBetween(b, lo, hi - 1) + [Decode(b, hi)]
  }

  lemma {:induction false} QueueBetweenMeans(b: nat, lo: nat, hi: int)
    requires b >= 1 && lo >= 1
    ensures var q := QueueBetween(b, lo, hi);
              |q| == (if hi >= lo then hi - lo + 1 else 0)
              && forall k :: 0 <= k < |q| ==> q[k] == Decode(b, lo + k)
    decreases if hi >= lo then hi - lo + 1 else 0
  {
    if hi >= lo {
      QueueBetweenMeans(b, lo, hi - 1);
    }
  }

  // --------------------------------------------------------------- power_on

  /** Some non-empty sequence of the machine's buttons turns it on. */
  ghost predicate Reachable(m: Machine)
    requires WellFormed(m)
  {
    exists s :: ValidSequence(m, s) && |s| >= 1 && Success(m, s)
  }

  /** A non-empty sequence of buttons numbered below `b`. */
  predicate OverButtons(b: nat, s: seq<nat>) {
    |s| >= 1 && forall k :: 0 <= k < |s| ==> s[k] < b
  }

  /** What the search looks for: a sequence of the machine's buttons that turns it on. */
  ghost function WorksOf(m: Machine): seq<nat> -> bool
    requires WellFormed(m)
  {
    s => ValidSequence(m, s) && Success(m, s)
  }

  /**
   * `power_on`: sequences are dequeued in shortlex order, starting from the
   * one-button sequences, and each failing one is followed into the queue by
   * its extensions with every button in index order. With no buttons the
   * queue starts empty and the result is empty. With buttons and no
   * sequence that works the source never returns, which the precondition
   * excludes.
   */
  method PowerOn(m: Machine) returns (sequence: seq<nat>)
    requires WellFormed(m)
    requires m.buttons != [] ==> Reachable(m)
    ensures m.buttons == [] ==> sequence == []
    ensures m.buttons != [] ==> FirstThatWorks(m, sequence)
  {
    var b := |m.buttons|;
    var queue: seq<seq<nat>> := seq(b, i => [i]);
    ghost var works := WorksOf(m);
    ghost var n: nat := 1;
    ghost var goal: nat := 1;
    if b > 0 {
      var w :| ValidSequence(m, w) && |w| >= 1 && Success(m, w);
      goal := Encode(b, w);
      SearchStart(m, w);
    }
    while queue != []
      invariant b == 0 ==> queue == []
      invariant b > 0 ==> 1 <= n <= goal && works(Decode(b, goal)) && queue == QueueBetween(b, n, Last(b, n))
      invariant b > 0 ==> forall s :: OverButtons(b, s) && Encode(b, s) < n ==> !works(s)
      decreases goal - n
    {
      ghost var before := queue;
      var current := queue[0];
      queue := queue[1..];
      QueueStep(b, n, before);
      var success := TurnsOn(m, current);
      if success {
        sequence := current;
        FirstFound(b, works, n, before);
        FirstInWorks(m, sequence);
        return;
      }
      queue := Enqueue(queue, current, b);
      SearchNext(b, works, n, goal, before, queue);
      n := n + 1;
    }
    sequence := [];
  }

  /** Before the loop: the one-button sequences are queued, and position `goal` works. */
  lemma SearchStart(m: Machine, w: seq<nat>)
    requires WellFormed(m) && |m.buttons| >= 1
    requires ValidSequence(m, w) && |w| >= 1 && Success(m, w)
    ensures WorksOf(m)(Decode(|m.buttons|, Encode(|m.buttons|, w)))
    ensures seq(|m.buttons|, i => [i]) == QueueBetween(|m.buttons|, 1, Last(|m.buttons|, 1))
  {
    DecodeEncode(|m.buttons|, w);
    QueueStart(|m.buttons|);
  }

  /**
   * A failing round at step `n`: the working position `goal` lies further on,
   * no sequence up to position `n` works, and the queue after the round holds
   * positions `n + 1` to `(n + 1) * b`.
   */
  lemma SearchNext(b: nat, works: seq<nat> -> bool, n: nat, goal: nat, queue: seq<seq<nat>>, next: seq<seq<nat>>)
    requires b >= 1 && 1 <= n <= goal && works(Decode(b, goal))
    requires forall s :: OverButtons(b, s) && Encode(b, s) < n ==> !works(s)
    requires queue == QueueBetween(b, n, Last(b, n))
    requires |queue| >= 1 && !works(queue[0])
    requires next == queue[1..] + Extensions(queue[0], b)
    ensures n < goal
    ensures forall s :: OverButtons(b, s) && Encode(b, s) < n + 1 ==> !works(s)
    ensures next == QueueBetween(b, n + 1, Last(b, n + 1))
  {
    QueueStep(b, n, queue);
    forall s | OverButtons(b, s) && Encode(b, s) == n
      ensures !works(s)
    {
      DecodeEncode(b, s);
    }
  }

  /** The inner loop of `power_on`: push `s` extended by each button, in button order. */
  method Enqueue(queue: seq<seq<nat>>, s: seq<nat>, count: nat) returns (next: seq<seq<nat>>)
    ensures next == queue + Extensions(s, count)
  {
    next := queue;
    for d := 0 to count
      invariant next == queue + Extensions(s, d)
    {
      next := next + [s + [d]];
    }
  }

  /** The extensions of `s` by each of the first `count` buttons, in button order. */
  function Extensions(s: seq<nat>, count: nat): seq<seq<nat>>
  {
    if count == 0 then [] else Extensions(s, count - 1) + [s + [count - 1]]
  }

  lemma {:induction false} ExtensionsMeans(s: seq<nat>, count: nat)
    ensures var r := Extensions(s, count);
              |r| == count && forall d :: 0 <= d < count ==> r[d] == s + [d]
  {
    if count > 0 {
      ExtensionsMeans(s, count - 1);
    }
  }

  /** The queue starts with the one-button sequences, in button order. */
  lemma QueueStart(b: nat)
    requires b >= 1
    ensures seq(b, i => [i]) == QueueBetween(b, 1, Last(b, 1))
  {
    var q := QueueBetween(b, 1, Last(b, 1));
    QueueBetweenMeans(b, 1, Last(b, 1));
    forall k | 0 <= k < b ensures q[k] == [k] {
      assert q[k] == Decode(b, 1 + k);
    }
  }

  /**
   * One round of the search at step `n`: the front is the `n`-th sequence,
   * and dropping it and pushing its extensions gives the queue of step `n + 1`.
   */
  lemma QueueStep(b: nat, n: nat, queue: seq<seq<nat>>)
    requires b >= 1 && n >= 1 && queue == QueueBetween(b, n, Last(b, n))
    ensures |queue| >= 1 && queue[0] == Decode(b, n)
    ensures queue[1..] + Extensions(queue[0], b) == QueueBetween(b, n + 1, Last(b, n + 1))
  {
    QueuePop(b, n);
    QueuePush(b, n);
  }

  /** Dequeuing the front of the queue at step `n`. */
  lemma QueuePop(b: nat, n: nat)
    requires b >= 1 && n >= 1
    ensures var q := QueueBetween(b, n, Last(b, n));
              |q| >= 1 && q[0] == Decode(b, n) && q[1..] == QueueBetween(b, n + 1, Last(b, n))
  {
    QueueSplit(b, n, n, Last(b, n));
    assert QueueBetween(b, n, n) == [Decode(b, n)];
  }

  /** Enqueuing the extensions of the `n`-th sequence after dequeuing it. */
  lemma QueuePush(b: nat, n: nat)
    requires b >= 1 && n >= 1
    ensures QueueBetween(b, n + 1, Last(b, n)) + Extensions(Decode(b, n), b) == QueueBetween(b, n + 1, Last(b, n + 1))
  {
    QueueSplit(b, n + 1, Last(b, n), Last(b, n + 1));
    ChildrenInQueue(b, n, b);
  }

  /** A queue segment splits at any position inside it. */
  lemma {:induction false} QueueSplit(b: nat, lo: nat, mid: int, hi: int)
    requires b >= 1 && lo >= 1 && lo - 1 <= mid <= hi
    ensures QueueBetween(b, lo, hi) == QueueBetween(b, lo, mid) + QueueBetween(b, mid + 1, hi)
    decreases hi - mid
  {
    if hi > mid {
      QueueSplit(b, lo, mid, hi - 1);
      assert QueueBetween(b, lo, hi) == QueueBetween(b, lo, hi - 1) + [Decode(b, hi)];
    }
  }

  /** The positions right after `n * b` hold the extensions of the `n`-th sequence, in button order. */
  lemma {:induction false} ChildrenInQueue(b: nat, n: nat, count: nat)
    requires b >= 1 && n >= 1 && count <= b
    ensures QueueBetween(b, Last(b, n) + 1, Last(b, n) + count) == Extensions(Decode(b, n), count)
  {
    if count > 0 {
      ChildrenInQueue(b, n, count - 1);
      DecodeChild(b, n, count - 1);
    }
  }

  /** The sequence works, and no sequence earlier in the search order does. */
  ghost predicate FirstThatWorks(m: Machine, s: seq<nat>) {
    WellFormed(m) && |m.buttons| >= 1 && ValidSequence(m, s) && |s| >= 1 && Success(m, s)
    && forall t :: ValidSequence(m, t) && |t| >= 1 && Encode(|m.buttons|, t) < Encode(|m.buttons|, s) ==> !Success(m, t)
  }

  /** The first sequence over `b` buttons, in search order, that `works` accepts. */
  ghost predicate FirstIn(b: nat, works: seq<nat> -> bool, s: seq<nat>)
    requires b >= 1
  {
    OverButtons(b, s) && works(s)
    && forall t :: OverButtons(b, t) && Encode(b, t) < Encode(b, s) ==> !works(t)
  }

  /** The `n`-th sequence works and none before it does: it is first among all that work. */
  lemma FirstFound(b: nat, works: seq<nat> -> bool, n: nat, queue: seq<seq<nat>>)
    requires b >= 1 && n >= 1
    requires forall s :: OverButtons(b, s) && Encode(b, s) < n ==> !works(s)
    requires queue == QueueBetween(b, n, Last(b, n))
    requires |queue| >= 1 && works(queue[0])
    ensures FirstIn(b, works, queue[0])
  {
    QueueStep(b, n, queue);
    EncodeDecode(b, n);
  }

  lemma FirstInWorks(m: Machine, s: seq<nat>)
    requires WellFormed(m) && |m.buttons| >= 1 && FirstIn(|m.buttons|, WorksOf(m), s)
    ensures FirstThatWorks(m, s)
  {
  }

  // ------------------------------------------------------------------ part 1

  /** A sequence that works and no shorter one does. */
  ghost predicate Shortest(m: Machine, s: seq<nat>)
    requires WellFormed(m)
  {
    ValidSequence(m, s) && |s| >= 1 && Success(m, s)
    && forall t :: ValidSequence(m, t) && 1 <= |t| < |s| ==> !Success(m, t)
  }

  /** Every machine that can be turned on has a shortest working sequence. */
  lemma {:induction false} ShortestExists(m: Machine, w: seq<nat>)
    requires WellFormed(m) && ValidSequence(m, w) && |w| >= 1 && Success(m, w)
    ensures exists s :: Shortest(m, s) && |s| <= |w|
    decreases |w|
  {
    if exists t :: ValidSequence(m, t) && 1 <= |t| < |w| && Success(m, t) {
      var t :| ValidSequence(m, t) && 1 <= |t| < |w| && Success(m, t);
      ShortestExists(m, t);
    } else {
      assert Shortest(m, w);
    }
  }

  /** The fewest presses that turn the machine on; 0 for a machine without buttons. */
  ghost function FewestPresses(m: Machine): nat
    requires WellFormed(m) && (m.buttons != [] ==> Reachable(m))
  {
    if m.buttons == [] then 0
    else
      var w :| ValidSequence(m, w) && |w| >= 1 && Success(m, w);
      ShortestExists(m, w);
      var t :| Shortest(m, t);
      |t|
  }

  /** The sequence `power_on` finds is as short as any that works. */
  lemma PowerOnIsShortest(m: Machine, sequence: seq<nat>)
    requires WellFormed(m) && m.buttons != [] && Reachable(m)
    requires FirstThatWorks(m, sequence)
    ensures Shortest(m, sequence)
    ensures |sequence| == FewestPresses(m)
  {
    var b := |m.buttons|;
    forall t | ValidSequence(m, t) && 1 <= |t| < |sequence| ensures !Success(m, t) {
      ShorterFirst(b, t, sequence);
    }
    var w :| ValidSequence(m, w) && |w| >= 1 && Success(m, w);
    ShortestExists(m, w);
  }

  /** `machines.iter_mut().map(|m| m.power_on().len()).sum()`. */
  method Part1(machines: seq<Machine>) returns (total: nat)
    requires forall k :: 0 <= k < |machines| ==>
               WellFormed(machines[k]) && (machines[k].buttons != [] ==> Reachable(machines[k]))
    ensures total == TotalPresses(machines)
  {
    total := 0;
    for k := 0 to |machines|
      invariant total == TotalPresses(machines[..k])
    {
      var sequence := PowerOn(machines[k]);
      if machines[k].buttons != [] {
        PowerOnIsShortest(machines[k], sequence);
      }
      assert |sequence| == FewestPresses(machines[k]);
      TotalPressesSnoc(machines, k);
      total := total + |sequence|;
    }
    assert machines[..|machines|] == machines;
  }

  /** The fewest presses of every machine, summed. */
  ghost function TotalPresses(machines: seq<Machine>): nat
    requires forall k :: 0 <= k < |machines| ==>
               WellFormed(machines[k]) && (machines[k].buttons != [] ==> Reachable(machines[k]))
  {
    if machines == [] then 0
    else TotalPresses(machines[..|machines| - 1]) + FewestPresses(machines[|machines| - 1])
  }

  lemma TotalPressesSnoc(machines: seq<Machine>, k: nat)
    requires k < |machines|
    requires forall j :: 0 <= j < |machines| ==>
               WellFormed(machines[j]) && (machines[j].buttons != [] ==> Reachable(machines[j]))
    ensures TotalPresses(machines[..k + 1]) == TotalPresses(machines[..k]) + FewestPresses(machines[k])
  {
    assert machines[..k + 1][..k] == machines[..k];
  }
}
