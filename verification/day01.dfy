/**
 * Day 1: a dial numbered 0 to 99, starting at 50, turned left or right by a
 * number of clicks per input line. Part 1 counts the lines before which the
 * dial points at 0; part 2 counts how often the dial lands on 0.
 */
module Day01 {
  import opened Text

  datatype Solution = Solution(dial: int, part1: int, part2: int)

  /** The expected line format: `L` or `R` followed by a decimal number. */
  predicate IsRotation(line: string) {
    |line| >= 1 && (line[0] == 'L' || line[0] == 'R') && IsNumeral(line[1..])
  }

  function Abs(x: int): nat {
    if x < 0 then -x else x
  }

  /**
   * The number of clicks, among the `distance` clicks of a turn, after which
   * the dial points at 0: the reference count for part 2.
   */
  function Clicks(dial: int, direction: int, distance: nat): nat {
    if distance == 0 then 0
    else Clicks(dial, direction, distance - 1) + (if (dial + direction * distance) % 100 == 0 then 1 else 0)
  }

  /**
   * The turn as the source computes it: full rotations first, then the
   * remainder, with one more zero when the remainder wraps or lands on 0.
   */
  function Turn(state: Solution, direction: int, distance: nat): (r: Solution)
    requires direction == -1 || direction == 1
    ensures 0 <= state.dial < 100 ==> 0 <= r.dial < 100 && r.dial == (state.dial + direction * distance) % 100
    ensures r.part1 == state.part1 + (if state.dial == 0 then 1 else 0)
    ensures distance / 100 <= r.part2 - state.part2 <= distance / 100 + 1
    ensures state.dial == 0 && direction == -1 && distance % 100 != 0 ==> r.part2 - state.part2 == distance / 100
    ensures 0 <= state.dial < 100 && r.dial == 0 ==> r.part2 - state.part2 == distance / 100 + 1
    ensures state.dial + direction * (distance % 100) >= 100 ==> r.part2 - state.part2 == distance / 100 + 1
  {
    var zeros := distance / 100;
    var rest := distance % 100;
    assert rest * direction == if direction == 1 then rest as int else -(rest as int);
    assert direction * distance == if direction == 1 then distance as int else -(distance as int);
    assert distance == 100 * zeros + rest;
    var moved := state.dial + rest * direction;
    assert state.dial + direction * distance == moved + 100 * (direction * zeros);
    ModShift(moved, direction * zeros);
    var dial := if moved < 0 then 100 - Abs(moved) else if moved >= 100 then moved % 100 else moved;
    var extra :=
      if moved < 0 then (if state.dial > 0 then 1 else 0)
      else if moved >= 100 then 1
      else if moved == 0 then 1
      else 0;
    Solution(dial, state.part1 + (if state.dial == 0 then 1 else 0), state.part2 + zeros + extra)
  }

  /** Whole turns of the dial do not change where it points. */
  lemma ModShift(a: int, k: int)
    ensures (a + 100 * k) % 100 == a % 100
  {
    var q, r := a / 100, a % 100;
    assert a + 100 * k == 100 * (q + k) + r;
  }

  /** `simulate_line`: a line that is not a rotation panics in the source. */
  function SimulateLine(state: Solution, line: string): Solution
    requires IsRotation(line)
  {
    var direction := if line[0] == 'L' then -1 else 1;
    Turn(state, direction, NumeralValue(line[1..]))
  }

  /** The state after folding `simulate_line` over `lines` from dial 50 and both counters 0. */
  function Run(lines: seq<string>): Solution
    requires forall i :: 0 <= i < |lines| ==> IsRotation(lines[i])
  {
    if lines == [] then Solution(50, 0, 0)
    else SimulateLine(Run(lines[..|lines| - 1]), lines[|lines| - 1])
  }

  /** The dial before the first line and after each line. */
  function Dials(lines: seq<string>): (r: seq<int>)
    requires forall i :: 0 <= i < |lines| ==> IsRotation(lines[i])
    ensures |r| == |lines| + 1
    ensures r[0] == 50
    ensures forall i :: 0 <= i <= |lines| ==> r[i] == Run(lines[..i]).dial
  {
    if lines == [] then [50]
    else
      var init := lines[..|lines| - 1];
      assert forall i :: 0 <= i <= |init| ==> init[..i] == lines[..i];
      assert lines[..|lines|] == lines;
      Dials(init) + [Run(lines).dial]
  }

  /** The number of entries of `s` equal to 0. */
  function CountZeros(s: seq<int>): nat {
    if s == [] then 0 else CountZeros(s[..|s| - 1]) + (if s[|s| - 1] == 0 then 1 else 0)
  }

  /**
   * Folding keeps the dial in 0..99 (it starts at 50), never lowers part 2,
   * and part 1 counts the lines before which the dial was at 0.
   */
  lemma {:induction false} RunInvariant(lines: seq<string>)
    requires forall i :: 0 <= i < |lines| ==> IsRotation(lines[i])
    ensures 0 <= Run(lines).dial < 100
    ensures Run(lines).dial == Dials(lines)[|lines|]
    ensures Run(lines).part2 >= 0
    ensures Run(lines).part1 == CountZeros(Dials(lines)[..|lines|])
  {
    if lines != [] {
      var init := lines[..|lines| - 1];
      RunInvariant(init);
      assert Dials(lines)[..|lines|] == Dials(init);
    }
  }

  /** Part 2 never decreases from one line to the next. */
  lemma Part2Grows(lines: seq<string>, line: string)
    requires forall i :: 0 <= i < |lines| ==> IsRotation(lines[i])
    requires IsRotation(line)
    ensures Run(lines).part2 <= Run(lines + [line]).part2
  {
    assert (lines + [line])[..|lines|] == lines;
  }

  // ------------------------------------------------------ reference counts

  lemma DivStep(x: int)
    ensures x / 100 == (x - 1) / 100 + (if x % 100 == 0 then 1 else 0)
  {
  }

  /** Turning right from `dial` lands on 0 once per multiple of 100 passed. */
  lemma {:induction false} ClicksRight(dial: int, distance: nat)
    requires 0 <= dial < 100
    ensures Clicks(dial, 1, distance) == (dial + distance) / 100
  {
    if distance > 0 {
      ClicksRight(dial, distance - 1);
      DivStep(dial + distance);
    }
  }

  /** Turning left from `dial` lands on 0 after `dial` clicks and every 100 clicks after that. */
  lemma {:induction false} ClicksLeft(dial: int, distance: nat)
    requires 0 <= dial < 100
    ensures Clicks(dial, -1, distance) ==
              if dial == 0 then distance / 100
              else if distance >= dial then (distance - dial) / 100 + 1
              else 0
  {
    if distance > 0 {
      ClicksLeft(dial, distance - 1);
      LeftLanding(dial, distance);
      if dial == 0 {
        DivStep(distance);
      } else if distance > dial {
        DivStep(distance - dial);
      }
    }
  }

  /** Turning left by `distance` lands on 0 exactly when `distance - dial` is a multiple of 100. */
  lemma LeftLanding(dial: int, distance: int)
    ensures (dial + -1 * distance) % 100 == 0 <==> (distance - dial) % 100 == 0
  {
    var x := distance - dial;
    var q, r := x / 100, x % 100;
    assert x == 100 * q + r;
    if r == 0 {
      assert dial + -1 * distance == 0 + 100 * -q;
      ModShift(0, -q);
    } else {
      assert dial + -1 * distance == (100 - r) + 100 * (-q - 1);
      ModShift(100 - r, -q - 1);
    }
  }

  /**
   * As written, a turn counts one zero too many exactly when it starts at 0
   * and its distance is a multiple of 100 (including a distance of 0).
   */
  lemma TurnAgainstClicks(state: Solution, direction: int, distance: nat)
    requires 0 <= state.dial < 100 && (direction == -1 || direction == 1)
    ensures Turn(state, direction, distance).part2 - state.part2 ==
              Clicks(state.dial, direction, distance) + (if state.dial == 0 && distance % 100 == 0 then 1 else 0)
  {
    if direction == 1 {
      ClicksRight(state.dial, distance);
    } else {
      ClicksLeft(state.dial, distance);
    }
  }

  /** `R100` from 0 lands on 0 once, but the source counts two zeros. */
  lemma TurnOvercounts()
    ensures Turn(Solution(0, 0, 0), 1, 100).part2 == 2
    ensures Clicks(0, 1, 100) == 1
  {
    ClicksRight(0, 100);
  }

  /** The turn with the landing-on-zero guard also requiring a dial above 0 before the move. */
  function CorrectedTurn(state: Solution, direction: int, distance: nat): Solution
    requires direction == -1 || direction == 1
  {
    var zeros := distance / 100;
    var rest := distance % 100;
    var moved := state.dial + rest * direction;
    assert state.dial + direction * distance == moved + 100 * (direction * zeros);
    ModShift(moved, direction * zeros);
    var dial := if moved < 0 then 100 - Abs(moved) else if moved >= 100 then moved % 100 else moved;
    var extra :=
      if moved < 0 then (if state.dial > 0 then 1 else 0)
      else if moved >= 100 then 1
      else if moved == 0 && state.dial > 0 then 1
      else 0;
    Solution(dial, state.part1 + (if state.dial == 0 then 1 else 0), state.part2 + zeros + extra)
  }

  /** The corrected turn adds exactly the number of clicks that land on 0. */
  lemma CorrectedTurnCountsClicks(state: Solution, direction: int, distance: nat)
    requires 0 <= state.dial < 100 && (direction == -1 || direction == 1)
    ensures CorrectedTurn(state, direction, distance).part2 - state.part2 == Clicks(state.dial, direction, distance)
    ensures CorrectedTurn(state, direction, distance).dial == Turn(state, direction, distance).dial
  {
    TurnAgainstClicks(state, direction, distance);
  }

  // ------------------------------------------------------------- part 1

  /**
   * Part 1 looks at the dial before each line, so a final line that lands
   * on 0 is never counted: after the single line `L50` the dial is at 0,
   * yet part 1 is 0.
   */
  lemma Part1MissesFinalZero()
    ensures Run(["L50"]).dial == 0 && Run(["L50"]).part1 == 0
  {
    var lines := ["L50"];
    assert IsRotation(lines[0]) by {
      assert lines[0][1..] == "50";
    }
    assert lines[..0] == [];
    assert NumeralValue("50") == 50 by {
      assert "50"[..1] == "5";
    }
  }

  /** Part 1 as the dial positions after each line that point at 0. */
  function CorrectedPart1(lines: seq<string>): nat
    requires forall i :: 0 <= i < |lines| ==> IsRotation(lines[i])
  {
    CountZeros(Dials(lines)[1..])
  }

  /**
   * The corrected count is the as-written count with the start (never 0)
   * dropped and the final position added.
   */
  lemma {:induction false} CorrectedPart1CountsLandings(lines: seq<string>)
    requires forall i :: 0 <= i < |lines| ==> IsRotation(lines[i])
    ensures CorrectedPart1(lines) == Run(lines).part1 + (if Run(lines).dial == 0 then 1 else 0)
  {
    RunInvariant(lines);
    CountZerosDropFirst(Dials(lines));
    var d := Dials(lines);
    if lines != [] {
      assert d[1..][..|d[1..]| - 1] == d[1..|lines|];
      assert d[..|lines|] == [d[0]] + d[1..|lines|];
      CountZerosCons(d[0], d[1..|lines|]);
    } else {
      assert d[..0] == [] && d[1..] == [];
    }
  }

  lemma {:induction false} CountZerosCons(x: int, s: seq<int>)
    ensures CountZeros([x] + s) == (if x == 0 then 1 else 0) + CountZeros(s)
    decreases |s|
  {
    if s != [] {
      assert ([x] + s)[..|s|] == [x] + s[..|s| - 1];
      CountZerosCons(x, s[..|s| - 1]);
    } else {
      assert [x] + s == [x];
      assert [x][..0] == [];
    }
  }

  lemma CountZerosDropFirst(s: seq<int>)
    requires |s| > 0
    ensures CountZeros(s) == (if s[0] == 0 then 1 else 0) + CountZeros(s[1..])
  {
    assert s == [s[0]] + s[1..];
    CountZerosCons(s[0], s[1..]);
  }

  /** The puzzle answer: the fold over the lines of the input. */
  function Solve(input: string): Solution
    requires forall i :: 0 <= i < |Lines(input)| ==> IsRotation(Lines(input)[i])
  {
    Run(Lines(input))
  }
}
