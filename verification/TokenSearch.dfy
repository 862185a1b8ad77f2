/**
  The prompt builder of the KV test: splitting the repeat count over four segments, and the
  search for the largest repeat count whose prompt still fits the token target.  The token
  count is an arbitrary function of the repeat count.
 */
module TokenSearch {

  // ----- Building the prompt -----

  /** Repetitions of the unit in each of the four context segments. */
  function SegmentLengths(n: nat): seq<nat> {
    var base, remainder := n / 4, n % 4;
    seq(4, i => base + if i < remainder then 1 else 0)
  }

  function Repeat(unit: string, n: nat): string {
    if n == 0 then "" else unit + Repeat(unit, n - 1)
  }

  /** The context: four runs of the unit around three checkpoint lines. */
  function Context(unit: string, marks: seq<string>, n: nat): string
    requires |marks| == 3
  {
    var lengths := SegmentLengths(n);
    Repeat(unit, lengths[0]) + marks[0] + Repeat(unit, lengths[1]) + marks[1] +
    Repeat(unit, lengths[2]) + marks[2] + Repeat(unit, lengths[3])
  }

  lemma {:induction false} RepeatLength(unit: string, n: nat)
    ensures |Repeat(unit, n)| == n * |unit|
  {
    if n > 0 {
      RepeatLength(unit, n - 1);
      assert n * |unit| == |unit| + (n - 1) * |unit|;
    }
  }

  /** No repetition is lost or added by the split: the segments are balanced, and the context has
      exactly n units besides its checkpoints, so each further repetition adds exactly one unit. */
  lemma SplitIsExact(unit: string, marks: seq<string>, n: nat)
    requires |marks| == 3
    ensures var l := SegmentLengths(n);
            && l[0] + l[1] + l[2] + l[3] == n
            && l[3] <= l[2] <= l[1] <= l[0] <= l[3] + 1
    ensures |Context(unit, marks, n)| == n * |unit| + |marks[0]| + |marks[1]| + |marks[2]|
  {
    var l := SegmentLengths(n);
    RepeatLength(unit, l[0]);
    RepeatLength(unit, l[1]);
    RepeatLength(unit, l[2]);
    RepeatLength(unit, l[3]);
    assert l[0] * |unit| + l[1] * |unit| + l[2] * |unit| + l[3] * |unit| == (l[0] + l[1] + l[2] + l[3]) * |unit|;
  }

  lemma {:induction false} RepeatAppend(unit: string, m: nat, n: nat)
    ensures Repeat(unit, m) + Repeat(unit, n) == Repeat(unit, m + n)
  {
    if m > 0 {
      RepeatAppend(unit, m - 1, n);
      assert (unit + Repeat(unit, m - 1)) + Repeat(unit, n) == unit + (Repeat(unit, m - 1) + Repeat(unit, n));
    } else {
      assert "" + Repeat(unit, n) == Repeat(unit, n);
    }
  }

  /** The three marks are in c at a, b and e, in this order, and without them c is rest. */
  predicate MarksAt(c: string, marks: seq<string>, a: nat, b: nat, e: nat, rest: string)
    requires |marks| == 3
  {
    && a + |marks[0]| <= b && b + |marks[1]| <= e && e + |marks[2]| <= |c|
    && c[a..a + |marks[0]|] == marks[0]
    && c[b..b + |marks[1]|] == marks[1]
    && c[e..e + |marks[2]|] == marks[2]
    && c[..a] + c[a + |marks[0]|..b] + c[b + |marks[1]|..e] + c[e + |marks[2]|..] == rest
  }

  /** Units before the k-th checkpoint: the quarters of n, earlier ones rounded up first. */
  function UnitsBefore(n: nat, k: nat): nat
    requires 1 <= k <= 3
  {
    k * (n / 4) + if n % 4 < k then n % 4 else k
  }

  /** Where the checkpoints are: each after its share of the units, in order, and without them the
      context is the n repetitions. */
  lemma CheckpointsAreAtTheQuarters(unit: string, marks: seq<string>, n: nat)
    requires |marks| == 3
    ensures var (a, b, e) := CheckpointPositions(unit, marks, n);
            MarksAt(Context(unit, marks, n), marks, a, b, e, Repeat(unit, n))
  {
    var l := SegmentLengths(n);
    var p0, p1, p2, p3 := Repeat(unit, l[0]), Repeat(unit, l[1]), Repeat(unit, l[2]), Repeat(unit, l[3]);
    var (a, b, e) := CheckpointPositions(unit, marks, n);
    var c, rest := Context(unit, marks, n), Repeat(unit, n);
    assert c == p0 + marks[0] + p1 + marks[1] + p2 + marks[2] + p3;
    assert p0 + p1 + p2 + p3 == rest by {
      SegmentsAreAll(unit, n);
    }
    assert a == |p0| && b == |p0| + |p1| + |marks[0]| && e == |p0| + |p1| + |p2| + |marks[0]| + |marks[1]| by {
      PositionsAreLengths(unit, marks, n);
    }
    Interleaved(p0, p1, p2, p3, marks, c, a, b, e, rest);
  }

  function CheckpointPositions(unit: string, marks: seq<string>, n: nat): (nat, nat, nat)
    requires |marks| == 3
  {
    (UnitsBefore(n, 1) * |unit|,
     UnitsBefore(n, 2) * |unit| + |marks[0]|,
     UnitsBefore(n, 3) * |unit| + |marks[0]| + |marks[1]|)
  }

  lemma PositionsAreLengths(unit: string, marks: seq<string>, n: nat)
    requires |marks| == 3
    ensures var l := SegmentLengths(n);
            var p0, p1, p2 := Repeat(unit, l[0]), Repeat(unit, l[1]), Repeat(unit, l[2]);
            CheckpointPositions(unit, marks, n) ==
            (|p0|, |p0| + |p1| + |marks[0]|, |p0| + |p1| + |p2| + |marks[0]| + |marks[1]|)
  {
    var l := SegmentLengths(n);
    RepeatLength(unit, l[0]);
    RepeatLength(unit, l[1]);
    RepeatLength(unit, l[2]);
    UnitsAdd(n, |unit|);
  }

  lemma UnitsAdd(n: nat, u: nat)
    ensures var l := SegmentLengths(n);
            && UnitsBefore(n, 1) * u == l[0] * u
            && UnitsBefore(n, 2) * u == l[0] * u + l[1] * u
            && UnitsBefore(n, 3) * u == l[0] * u + l[1] * u + l[2] * u
  {
    var l := SegmentLengths(n);
    assert UnitsBefore(n, 1) == l[0] && UnitsBefore(n, 2) == l[0] + l[1] && UnitsBefore(n, 3) == l[0] + l[1] + l[2];
  }

  lemma SegmentsAreAll(unit: string, n: nat)
    ensures var l := SegmentLengths(n);
            Repeat(unit, l[0]) + Repeat(unit, l[1]) + Repeat(unit, l[2]) + Repeat(unit, l[3]) == Repeat(unit, n)
  {
    var l := SegmentLengths(n);
    RepeatAppend(unit, l[0], l[1]);
    RepeatAppend(unit, l[0] + l[1], l[2]);
    RepeatAppend(unit, l[0] + l[1] + l[2], l[3]);
    assert l[0] + l[1] + l[2] + l[3] == n;
  }

  lemma Interleaved(p0: string, p1: string, p2: string, p3: string, marks: seq<string>,
      c: string, a: nat, b: nat, e: nat, rest: string)
    requires |marks| == 3
    requires c == p0 + marks[0] + p1 + marks[1] + p2 + marks[2] + p3 && rest == p0 + p1 + p2 + p3
    requires a == |p0| && b == |p0| + |p1| + |marks[0]| && e == |p0| + |p1| + |p2| + |marks[0]| + |marks[1]|
    ensures MarksAt(c, marks, a, b, e, rest)
  {
    assert c[..a] == p0 && c[a + |marks[0]|..b] == p1 && c[b + |marks[1]|..e] == p2 && c[e + |marks[2]|..] == p3;
  }

  // ----- The search -----

  const FIRST_HIGH: nat := 8192
  const BRACKET_LIMIT: nat := 100000

  datatype Outcome =
    | NoBracket
    | BelowTarget(repeats: nat, tokens: nat)
    | Accepted(repeats: nat, tokens: nat)

  /** The values the doubling visits without raising. */
  predicate BracketValue(h: nat) {
    h == 8192 || h == 16384 || h == 32768 || h == 65536
  }

  method Bracket(count: nat -> nat, targetMax: nat) returns (high: nat, ok: bool)
    ensures ok ==> BracketValue(high) && count(high) >= targetMax
    ensures ok ==> forall h: nat :: BracketValue(h) && h < high ==> count(h) < targetMax
    ensures !ok <==> forall h: nat :: BracketValue(h) ==> count(h) < targetMax
  {
    high := FIRST_HIGH;
    while count(high) < targetMax
      invariant BracketValue(high)
      invariant forall h: nat :: BracketValue(h) && h < high ==> count(h) < targetMax
      decreases BRACKET_LIMIT - high
    {
      if high * 2 > BRACKET_LIMIT {
        return high * 2, false;
      }
      high := high * 2;
    }
    return high, true;
  }

  /** The guarantee the search gives for its result, whatever the count. */
  predicate LocalBest(count: nat -> nat, targetMax: nat, n: nat) {
    (n >= 1 ==> count(n) <= targetMax) && (count(n + 1) > targetMax || count(n) == targetMax)
  }

  /** The whole search.  Nothing is assumed of the count. */
  method Search(count: nat -> nat, targetMin: nat, targetMax: nat) returns (r: Outcome)
    ensures r == NoBracket <==> forall h: nat :: BracketValue(h) ==> count(h) < targetMax
    ensures !r.NoBracket? ==> r.tokens == count(r.repeats)
    ensures !r.NoBracket? ==> (r.Accepted? <==> targetMin <= r.tokens)
    ensures !r.NoBracket? ==> r.repeats <= 65536 && LocalBest(count, targetMax, r.repeats)
  {
    var top, ok := Bracket(count, targetMax);
    if !ok {
      return NoBracket;
    }
    var low, high: int := 1, top;
    while low <= high
      invariant 1 <= low <= high + 1 <= top + 1
      invariant low == 1 || count(low - 1) <= targetMax
      invariant high == top || count(high + 1) > targetMax
      decreases high + 1 - low
    {
      var mid := (low + high) / 2;
      if count(mid) <= targetMax {
        low := mid + 1;
      } else {
        high := mid - 1;
      }
    }
    var tokens := count(high);
    r := if tokens < targetMin then BelowTarget(high, tokens) else Accepted(high, tokens);
  }

  // ----- What the guarantee amounts to -----

  ghost predicate StrictlyIncreasing(count: nat -> nat) {
    forall a: nat, b: nat :: a < b ==> count(a) < count(b)
  }

  lemma {:induction false} CountAtLeast(count: nat -> nat, n: nat)
    requires StrictlyIncreasing(count)
    ensures count(n) >= n
  {
    if n > 0 {
      CountAtLeast(count, n - 1);
      assert count(n - 1) < count(n);
    }
  }

  /** A strictly increasing count is always bracketed (for any target up to the last bracket value,
      and in particular for the one used), and the result is the global maximum: the positive
      repeat counts that fit are exactly those up to n. */
  lemma StrictCountGivesGlobalMaximum(count: nat -> nat, targetMax: nat, n: nat)
    requires StrictlyIncreasing(count) && LocalBest(count, targetMax, n)
    ensures forall m: nat :: m >= 1 ==> (count(m) <= targetMax <==> m <= n)
    ensures targetMax <= 65536 ==> !(forall h: nat :: BracketValue(h) ==> count(h) < targetMax)
  {
    if targetMax <= 65536 {
      CountAtLeast(count, 65536);
      assert BracketValue(65536);
    }
    forall m: nat | m >= 1 ensures count(m) <= targetMax <==> m <= n {
      if m < n {
        assert count(m) < count(n);
      } else if m > n {
        assert count(n) < count(m);
        if m > n + 1 {
          assert count(n + 1) < count(m);
        }
      }
    }
  }

  // ----- The context budget -----

  const MAX_CONTEXT: nat := 39168
  const MAX_TOKENS: nat := 32
  const TARGET_MIN: nat := 38500
  const TARGET_MAX: nat := MAX_CONTEXT - MAX_TOKENS - 256
  const KV_BLOCK_SIZE_TOKENS: nat := 256

  function Blocks(tokens: nat): nat {
    (tokens + KV_BLOCK_SIZE_TOKENS - 1) / KV_BLOCK_SIZE_TOKENS
  }

  /** A prompt leaves a block free, with its output, exactly when it fits the target. */
  lemma FreeBlockIffWithinTarget(tokens: nat)
    ensures Blocks(tokens + MAX_TOKENS) + 1 <= MAX_CONTEXT / KV_BLOCK_SIZE_TOKENS <==> tokens <= TARGET_MAX
    ensures tokens <= TARGET_MAX <==> (tokens + 32 + 255) / 256 <= 152
  {
  }

  /** Run with the constants of the test: an accepted payload leaves a KV block free unless not
      even one repetition fits, in which case the unchecked empty context is what was counted.  For
      a strictly increasing count it does so exactly when the empty context fits the target. */
  method PrepareTokens(count: nat -> nat) returns (r: Outcome)
    ensures r.Accepted? ==>
              (Blocks(r.tokens + MAX_TOKENS) + 1 <= MAX_CONTEXT / KV_BLOCK_SIZE_TOKENS <==>
               r.repeats >= 1 || count(0) <= TARGET_MAX)
    ensures !r.NoBracket? ==> r.tokens == count(r.repeats)
    ensures StrictlyIncreasing(count) && r.Accepted? ==>
              (Blocks(r.tokens + MAX_TOKENS) + 1 <= MAX_CONTEXT / KV_BLOCK_SIZE_TOKENS <==> count(0) <= TARGET_MAX)
    ensures r.Accepted? && r.repeats == 0 ==> count(1) > TARGET_MAX || count(0) == TARGET_MAX
    ensures StrictlyIncreasing(count) ==> !r.NoBracket?
  {
    r := Search(count, TARGET_MIN, TARGET_MAX);
    if r.Accepted? {
      FreeBlockIffWithinTarget(r.tokens);
    }
    if StrictlyIncreasing(count) {
      CountAtLeast(count, 65536);
      assert BracketValue(65536);
    }
  }

  /** The unchecked case is real: with a template alone above the target, no repetition is the only
      result the search can give, it is within the accepted range, and no block is left free. */
  lemma OversizedTemplateIsAccepted()
    ensures var count: nat -> nat := n => TARGET_MAX + 1 + n;
            && StrictlyIncreasing(count)
            && (forall n: nat :: LocalBest(count, TARGET_MAX, n) <==> n == 0)
            && count(0) >= TARGET_MIN
            && Blocks(count(0) + MAX_TOKENS) == MAX_CONTEXT / KV_BLOCK_SIZE_TOKENS
  {
  }
}
