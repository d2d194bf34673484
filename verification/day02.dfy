/**
 * Day 2: product-id ranges `start-end`. A number whose decimal string is one
 * half repeated twice is invalid for part 1; part 2 also counts numbers the
 * chunk-repeat test flags, and adds them to the part 1 sum.
 */
module Day02 {
  import opened Text

  datatype IdRange = IdRange(start: nat, end: nat)

  datatype Solution = Solution(part1: nat, part2: nat)

  /** How one number is classified inside the range loop. */
  datatype Verdict = HalfRepeat | ChunkRepeat | Valid

  // ------------------------------------------------- repetition (reference)

  /** `r` written `n` times in a row. */
  function Repeat(r: string, n: nat): string {
    if n == 0 then [] else r + Repeat(r, n - 1)
  }

  /** The string is some non-empty block repeated at least twice. */
  ghost predicate IsRepetition(s: string) {
    exists r, n :: |r| >= 1 && n >= 2 && s == Repeat(r, n)
  }

  /** A block and a count that build the string witness its repetition. */
  lemma RepetitionOf(s: string, r: string, n: nat)
    requires |r| >= 1 && n >= 2 && s == Repeat(r, n)
    ensures IsRepetition(s)
  {
  }

  lemma RepeatAtLeastTwice(r: string, n: nat)
    requires n >= 2
    ensures |Repeat(r, n)| >= 2 * |r|
  {
    assert Repeat(r, n) == r + (r + Repeat(r, n - 2));
  }

  // ---------------------------------------------------- the seq_length loop

  /** The last index the `seq_length` loop looks at, plus one (at least 1). */
  function Bound(n: nat): (b: nat)
    requires n >= 1
    ensures 1 <= b <= n
  {
    if n / 2 <= 1 then 1 else n / 2
  }

  /**
   * `seq_length` once the loop has looked at indices `1..m-1`. It starts at 1
   * and each step adds at most one, so it never exceeds `m`; in particular
   * `idx % seq_length` is always defined and below `idx`.
   */
  function PeriodAfter(chars: string, m: nat): (k: nat)
    requires 1 <= m <= |chars|
    ensures 1 <= k <= m
  {
    if m == 1 then 1
    else
      var k := PeriodAfter(chars, m - 1);
      if chars[m - 1] != chars[(m - 1) % k] then k + 1 else k
  }

  /** The loop computing `seq_length` for the characters of one number. */
  method SeqLength(chars: string) returns (seqLength: nat)
    requires |chars| >= 1
    ensures seqLength == PeriodAfter(chars, Bound(|chars|))
    ensures 1 <= seqLength <= Bound(|chars|)
  {
    seqLength := 1;
    var idx := 1;
    while idx < |chars| / 2
      invariant 1 <= idx <= Bound(|chars|)
      invariant seqLength == PeriodAfter(chars, idx)
    {
      if chars[idx] != chars[idx % seqLength] {
        seqLength := seqLength + 1;
      }
      idx := idx + 1;
    }
  }

  // ------------------------------------------------- chunks and the reduce

  function Concat(cs: seq<string>): string {
    if cs == [] then [] else cs[0] + Concat(cs[1..])
  }

  /** `chars.chunks(k)`: consecutive pieces of length `k`, the last one possibly shorter. */
  function Chunks(s: string, k: nat): (cs: seq<string>)
    requires k >= 1
    ensures Concat(cs) == s
    ensures forall i :: 0 <= i < |cs| ==> 1 <= |cs[i]| <= k
    ensures 0 < |s| <= k ==> cs == [s]
    ensures |s| > k ==> |cs| >= 2 && cs[0] == s[..k]
    decreases |s|
  {
    if s == [] then []
    else if |s| <= k then [s]
    else
      var rest := Chunks(s[k..], k);
      assert s == s[..k] + s[k..];
      [s[..k]] + rest
  }

  /**
   * `reduce(|acc, chunk| if acc == chunk { chunk } else { &[] })`: the common
   * chunk when every chunk is the same, and empty once two differ.
   */
  function ReduceEqual(cs: seq<string>): (r: string)
    requires |cs| >= 1
    ensures r != [] ==> forall i :: 0 <= i < |cs| ==> cs[i] == r
    ensures (forall i :: 0 <= i < |cs| ==> cs[i] == cs[0]) ==> r == cs[0]
  {
    if |cs| == 1 then cs[0]
    else
      var acc := ReduceEqual(cs[..|cs| - 1]);
      if acc == cs[|cs| - 1] then cs[|cs| - 1] else []
  }

  /** `sequence` for chunk length `k`. */
  function Sequence(s: string, k: nat): string
    requires |s| >= 1 && k >= 1
  {
    ReduceEqual(Chunks(s, k))
  }

  /** Every chunk equal to `r` means the string is `r` repeated once per chunk. */
  lemma {:induction false} ConcatAllEqual(cs: seq<string>, r: string)
    requires forall i :: 0 <= i < |cs| ==> cs[i] == r
    ensures Concat(cs) == Repeat(r, |cs|)
  {
    if cs != [] {
      ConcatAllEqual(cs[1..], r);
    }
  }

  /** A non-empty `sequence` shorter than the string is a block the string repeats. */
  lemma SequenceSound(s: string, k: nat)
    requires |s| >= 1 && k >= 1
    requires Sequence(s, k) != [] && |Sequence(s, k)| < |s|
    ensures |Chunks(s, k)| >= 2 && s == Repeat(Sequence(s, k), |Chunks(s, k)|)
  {
    var cs := Chunks(s, k);
    ConcatAllEqual(cs, Sequence(s, k));
  }

  /** A string that repeats a block `n` times cuts into `n` copies of the block. */
  lemma {:induction false} ChunksOfRepeat(r: string, n: nat)
    requires |r| >= 1 && n >= 1
    ensures |Chunks(Repeat(r, n), |r|)| == n
    ensures forall i :: 0 <= i < n ==> Chunks(Repeat(r, n), |r|)[i] == r
  {
    var s := Repeat(r, n);
    if n == 1 {
      assert Repeat(r, 0) == [];
      assert s == r + Repeat(r, 0) == r + [];
    } else {
      ChunksOfRepeat(r, n - 1);
      RepeatAtLeastTwice(r, n);
      assert s == r + Repeat(r, n - 1);
      assert s[..|r|] == r && s[|r|..] == Repeat(r, n - 1);
      assert Chunks(s, |r|) == [r] + Chunks(Repeat(r, n - 1), |r|);
    }
  }

  // ------------------------------------------------------ classification

  /** The verdict for one number's decimal string, as the range loop decides it. */
  function Kind(s: string): Verdict
    requires |s| >= 1
  {
    var mid := |s| / 2;
    if s[..mid] == s[mid..] then HalfRepeat
    else
      var sequence := Sequence(s, PeriodAfter(s, Bound(|s|)));
      if sequence != [] && |sequence| <= mid then ChunkRepeat else Valid
  }

  /** Part 1 counts exactly the strings of even length made of two equal halves; odd lengths never. */
  lemma KindHalves(s: string)
    requires |s| >= 1
    ensures Kind(s) == HalfRepeat <==> |s| % 2 == 0 && s == s[..|s| / 2] + s[..|s| / 2]
    ensures |s| % 2 == 1 ==> Kind(s) != HalfRepeat
  {
    assert s == s[..|s| / 2] + s[|s| / 2..];
  }

  /** Whatever the loop flags, for either part, really is a repeated block. */
  lemma KindSound(s: string)
    requires |s| >= 1
    ensures Kind(s) != Valid ==> IsRepetition(s)
  {
    var mid := |s| / 2;
    if s[..mid] == s[mid..] {
      var h := s[..mid];
      assert s == s[..mid] + s[mid..];
      assert |h| >= 1;
      assert Repeat(h, 2) == h + (h + Repeat(h, 0));
      assert s == Repeat(h, 2);
    } else if Kind(s) == ChunkRepeat {
      var k := PeriodAfter(s, Bound(|s|));
      SequenceSound(s, k);
    }
  }

  /** The decimal string of 112112112, digit by digit. */
  lemma TripleBlockDigits()
    ensures ToDecimal(112112112) == "112112112"
  {
    assert ToDecimal(1) == "1";
    assert ToDecimal(11) == "11";
    assert ToDecimal(112) == "112";
    assert ToDecimal(1121) == "1121";
    assert ToDecimal(11211) == "11211";
    assert ToDecimal(112112) == "112112";
    assert ToDecimal(1121121) == "1121121";
    assert ToDecimal(11211211) == "11211211";
  }

  /**
   * `112112112` is `112` three times, but `seq_length` ends at 2, the chunks
   * `11`, `21`, ... differ, and the number is passed over as valid.
   */
  lemma KindMissesTripleBlock()
    ensures ToDecimal(112112112) == "112112112"
    ensures IsRepetition("112112112")
    ensures Kind("112112112") == Valid
  {
    TripleBlockDigits();
    var s := "112112112";
    TripleBlockRepeats();
    RepetitionOf(s, "112", 3);
    SeqLengthOfTripleBlock();
    TripleBlockChunks();
    assert s[..4] != s[4..] by {
      assert s[..4][1] == '1' && s[4..][1] == '2';
    }
  }

  lemma TripleBlockRepeats()
    ensures "112112112" == Repeat("112", 3)
  {
    assert Repeat("112", 0) == [];
    assert Repeat("112", 1) == "112";
    assert Repeat("112", 2) == "112112";
  }

  /** The first two chunks of length 2 already differ. */
  lemma TripleBlockChunks()
    ensures |Chunks("112112112", 2)| >= 2
    ensures Chunks("112112112", 2)[0] != Chunks("112112112", 2)[1]
  {
    var s := "112112112";
    var cs, rest := Chunks(s, 2), Chunks(s[2..], 2);
    assert cs == [s[..2]] + rest;
    assert cs[1] == rest[0] == s[2..][..2];
    assert cs[0][0] == s[0] == '1' && cs[1][0] == s[2] == '2';
  }

  lemma SeqLengthOfTripleBlock()
    ensures PeriodAfter("112112112", Bound(9)) == 2
  {
    var s := "112112112";
    assert Bound(9) == 4;
    assert PeriodAfter(s, 1) == 1;
    assert PeriodAfter(s, 2) == 1;
    assert PeriodAfter(s, 3) == 2;
    assert PeriodAfter(s, 4) == 2;
  }

  /** The repetition test the puzzle asks for: try every block length up to half the string. */
  function CorrectedKind(s: string): Verdict
    requires |s| >= 1
  {
    var mid := |s| / 2;
    if s[..mid] == s[mid..] then HalfRepeat
    else if exists k :: 1 <= k <= mid && Sequence(s, k) != [] then ChunkRepeat
    else Valid
  }

  /** The corrected test flags a number exactly when its string is a repeated block. */
  lemma CorrectedKindExact(s: string)
    requires |s| >= 1
    ensures CorrectedKind(s) != Valid <==> IsRepetition(s)
    ensures CorrectedKind(s) == HalfRepeat <==> Kind(s) == HalfRepeat
  {
    if CorrectedKind(s) != Valid {
      CorrectedFlagsRepetition(s);
    }
    if IsRepetition(s) {
      RepetitionFlagged(s);
    }
  }

  /** What the corrected test flags is a repeated block. */
  lemma CorrectedFlagsRepetition(s: string)
    requires |s| >= 1 && CorrectedKind(s) != Valid
    ensures IsRepetition(s)
  {
    var mid := |s| / 2;
    if s[..mid] == s[mid..] {
      assert Kind(s) == HalfRepeat;
      KindSound(s);
    } else {
      var k :| 1 <= k <= mid && Sequence(s, k) != [];
      var cs := Chunks(s, k);
      assert |Sequence(s, k)| <= k by {
        assert cs[0] == Sequence(s, k);
      }
      SequenceSound(s, k);
      RepetitionOf(s, Sequence(s, k), |cs|);
    }
  }

  /** Every repeated block is flagged by the corrected test: its own length is a chunk length that works. */
  lemma RepetitionFlagged(s: string)
    requires |s| >= 1 && IsRepetition(s)
    ensures CorrectedKind(s) != Valid
  {
    var mid := |s| / 2;
    if s[..mid] != s[mid..] {
      var r, n :| |r| >= 1 && n >= 2 && s == Repeat(r, n);
      RepeatAtLeastTwice(r, n);
      ChunksOfRepeat(r, n);
      assert Sequence(s, |r|) == r;
      assert 1 <= |r| <= mid;
    }
  }

  // ------------------------------------------------------------ the ranges

  /** The sum of the numbers in `lo..=hi` with verdict `v`. */
  function SumOf(lo: nat, hi: int, v: Verdict): nat
    decreases hi - lo
  {
    if hi < lo then 0
    else SumOf(lo, hi - 1, v) + (if Kind(ToDecimal(hi)) == v then hi else 0)
  }

  /** The sum of all numbers in `lo..=hi`. */
  function RangeSum(lo: nat, hi: int): nat
    decreases hi - lo
  {
    if hi < lo then 0 else RangeSum(lo, hi - 1) + hi
  }

  /** Every number of the range lands in exactly one of the three verdicts. */
  lemma {:induction false} VerdictsPartition(lo: nat, hi: int)
    ensures SumOf(lo, hi, HalfRepeat) + SumOf(lo, hi, ChunkRepeat) + SumOf(lo, hi, Valid) == RangeSum(lo, hi)
    decreases hi - lo
  {
    if hi >= lo {
      VerdictsPartition(lo, hi - 1);
    }
  }

  /** The body of the range loop for one number: the half test, then the chunk test. */
  method Classify(i: nat) returns (v: Verdict)
    ensures v == Kind(ToDecimal(i))
  {
    var s := ToDecimal(i);
    var mid := |s| / 2;
    var left, right := s[..mid], s[mid..];
    var seqLength := SeqLength(s);
    var sequence := ReduceEqual(Chunks(s, seqLength));
    assert sequence == Sequence(s, PeriodAfter(s, Bound(|s|)));
    if left == right {
      v := HalfRepeat;
    } else if sequence != [] && |sequence| <= mid {
      v := ChunkRepeat;
    } else {
      v := Valid;
    }
  }

  /** The loop over `start..=end` for one range. */
  method ScanRange(start: nat, end: nat) returns (part1Invalid: nat, part2Invalid: nat)
    ensures part1Invalid == SumOf(start, end, HalfRepeat)
    ensures part2Invalid == SumOf(start, end, ChunkRepeat)
  {
    part1Invalid, part2Invalid := 0, 0;
    var i := start;
    while i <= end
      invariant start <= i && (end >= start ==> i <= end + 1) && (end < start ==> i == start)
      invariant part1Invalid == SumOf(start, i - 1, HalfRepeat)
      invariant part2Invalid == SumOf(start, i - 1, ChunkRepeat)
    {
      var v := Classify(i);
      if v == HalfRepeat {
        part1Invalid := part1Invalid + i;
      } else if v == ChunkRepeat {
        part2Invalid := part2Invalid + i;
      }
      i := i + 1;
    }
  }

  /** The part 1 or part 2-only sum over all ranges. */
  function Total(ranges: seq<IdRange>, v: Verdict): nat {
    if ranges == [] then 0
    else Total(ranges[..|ranges| - 1], v) + SumOf(ranges[|ranges| - 1].start, ranges[|ranges| - 1].end, v)
  }

  /** The fold over the ranges extracted from the input. */
  method Solve(ranges: seq<IdRange>) returns (solution: Solution)
    ensures solution.part1 == Total(ranges, HalfRepeat)
    ensures solution.part2 == Total(ranges, HalfRepeat) + Total(ranges, ChunkRepeat)
    ensures solution.part1 <= solution.part2
  {
    solution := Solution(0, 0);
    for j := 0 to |ranges|
      invariant solution.part1 == Total(ranges[..j], HalfRepeat)
      invariant solution.part2 == Total(ranges[..j], HalfRepeat) + Total(ranges[..j], ChunkRepeat)
    {
      var part1Invalid, part2Invalid := ScanRange(ranges[j].start, ranges[j].end);
      assert ranges[..j + 1][..j] == ranges[..j];
      solution := Solution(solution.part1 + part1Invalid, solution.part2 + part1Invalid + part2Invalid);
    }
    assert ranges[..|ranges|] == ranges;
  }
}
