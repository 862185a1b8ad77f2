/**
  The transfer plan of the KV test and the gate that accepts a run: how many blocks, bytes and
  operations a prompt must move, and what acceptance says about every single warm request.
 */
module WarmGate {
  import opened Wrappers
  import Geometry
  import TokenSearch

  // ----- The plan -----

  const NUM_LAYERS: nat := 40
  const KV_OUTER_DIM: nat := 2
  const NUM_KV_HEADS: nat := 8
  const HEAD_DIM: nat := 128
  const KV_DTYPE_WIDTH_BYTES: nat := 2
  const BLOCK: nat := TokenSearch.KV_BLOCK_SIZE_TOKENS
  const BYTES_PER_BLOCK: nat := NUM_LAYERS * KV_OUTER_DIM * BLOCK * NUM_KV_HEADS * HEAD_DIM * KV_DTYPE_WIDTH_BYTES
  const MIB_PER_BLOCK: nat := BYTES_PER_BLOCK / Geometry.MIB

  datatype Plan = Plan(
    cachedTokens: nat,
    kvBlocks: nat,
    gdsMib: nat,
    gdsOps: nat,
    pdMib: nat,
    pdDescriptors: nat)

  function Prepare(inputTokens: nat): Plan {
    var cachedTokens := (inputTokens / BLOCK) * BLOCK;
    var kvBlocks := cachedTokens / BLOCK;
    var pdBlocks := (inputTokens + BLOCK - 1) / BLOCK;
    Plan(cachedTokens, kvBlocks, kvBlocks * MIB_PER_BLOCK, kvBlocks * NUM_LAYERS * KV_OUTER_DIM,
         pdBlocks * MIB_PER_BLOCK, pdBlocks * NUM_LAYERS * KV_OUTER_DIM)
  }

  /** Bytes of one layer's K or V in one block. */
  const BYTES_PER_OP: nat := BLOCK * NUM_KV_HEADS * HEAD_DIM * KV_DTYPE_WIDTH_BYTES

  /** The plan is consistent whatever the prompt: cached tokens are the whole blocks, the storage
      path moves exactly those and the prefill-to-decode path one block more unless the prompt ends
      on a block boundary, and on either path the operations carry exactly the announced MiB. */
  lemma PlanIsConsistent(inputTokens: nat)
    ensures var p := Prepare(inputTokens);
            && p.kvBlocks * BLOCK == p.cachedTokens <= inputTokens < p.cachedTokens + BLOCK
            && p.pdMib == p.gdsMib + (if inputTokens == p.cachedTokens then 0 else 40)
            && p.gdsOps * BYTES_PER_OP == p.gdsMib * Geometry.MIB == p.kvBlocks * BYTES_PER_BLOCK
            && p.pdDescriptors * BYTES_PER_OP == p.pdMib * Geometry.MIB
            && (TokenSearch.TARGET_MIN <= inputTokens <= TokenSearch.TARGET_MAX ==> p.kvBlocks == 150 || p.kvBlocks == 151)
  {
  }

  /** The plan's block is the worker's: for layer tensors [n, 2, 256, 8, 128] in BF16 registered
      with the true page size, what the worker announces is what the plan multiplies by. */
  lemma PlanMatchesWorker(n: nat)
    ensures var c := Geometry.Config(n + 1, BLOCK, KV_DTYPE_WIDTH_BYTES, Geometry.LayerSeparate(false), None, None);
            var d := Geometry.Infer(c, [n, KV_OUTER_DIM, BLOCK, NUM_KV_HEADS, HEAD_DIM], NUM_LAYERS);
            d.Ok? && d.value.bytesPerBlock == BYTES_PER_BLOCK == 40 * Geometry.MIB
  {
    var shape: Geometry.Shape := [n, KV_OUTER_DIM, BLOCK, NUM_KV_HEADS, HEAD_DIM];
    assert Geometry.IsPowerOfTwo(256) by {
      Geometry.Pow2IsPowerOfTwo(8);
      assert Geometry.Pow2(4) == 16;
      assert Geometry.Pow2(8) == 256;
    }
    assert shape[2..] == [BLOCK, NUM_KV_HEADS, HEAD_DIM];
    Geometry.ThreeFactors(BLOCK, NUM_KV_HEADS, HEAD_DIM);
  }

  // ----- Samples -----

  datatype Sample = Sample(
    httpStatus: int,
    answerCorrect: bool,
    payloadSha: string,
    promptTokens: Option<int>,
    cachedTokens: int,
    ttft: real)

  function Insert(x: Sample, s: seq<Sample>): seq<Sample> {
    if s == [] || x.ttft <= s[0].ttft then [x] + s else [s[0]] + Insert(x, s[1..])
  }

  /** The stable sort by time to first token. */
  function SortByTtft(s: seq<Sample>): seq<Sample> {
    if s == [] then [] else Insert(s[0], SortByTtft(s[1..]))
  }

  predicate Sorted(s: seq<Sample>) {
    forall i, j :: 0 <= i < j < |s| ==> s[i].ttft <= s[j].ttft
  }

  /** How many samples are faster than m, and how many are no slower. */
  function Faster(s: seq<Sample>, m: real): nat {
    if s == [] then 0 else (if s[0].ttft < m then 1 else 0) + Faster(s[1..], m)
  }

  function NoSlower(s: seq<Sample>, m: real): nat {
    if s == [] then 0 else (if s[0].ttft <= m then 1 else 0) + NoSlower(s[1..], m)
  }

  lemma {:induction false} InsertElements(x: Sample, s: seq<Sample>)
    ensures multiset(Insert(x, s)) == multiset{x} + multiset(s)
    ensures |Insert(x, s)| == |s| + 1
    ensures forall y :: y in Insert(x, s) ==> y == x || y in s
  {
    if s != [] && s[0].ttft < x.ttft {
      InsertElements(x, s[1..]);
      assert s == [s[0]] + s[1..];
    }
  }

  lemma {:induction false} InsertKeepsSorted(x: Sample, s: seq<Sample>)
    requires Sorted(s)
    ensures Sorted(Insert(x, s))
  {
    if s != [] && s[0].ttft < x.ttft {
      var rest := Insert(x, s[1..]);
      InsertKeepsSorted(x, s[1..]);
      InsertElements(x, s[1..]);
      forall k | 0 <= k < |rest| ensures s[0].ttft <= rest[k].ttft {
        assert rest[k] in rest;
      }
    }
  }

  lemma {:induction false} SortFacts(s: seq<Sample>)
    ensures Sorted(SortByTtft(s)) && multiset(SortByTtft(s)) == multiset(s) && |SortByTtft(s)| == |s|
  {
    if s != [] {
      SortFacts(s[1..]);
      InsertElements(s[0], SortByTtft(s[1..]));
      InsertKeepsSorted(s[0], SortByTtft(s[1..]));
      assert s == [s[0]] + s[1..];
    }
  }

  lemma {:induction false} CountsAppend(s: seq<Sample>, t: seq<Sample>, m: real)
    ensures Faster(s + t, m) == Faster(s, m) + Faster(t, m)
    ensures NoSlower(s + t, m) == NoSlower(s, m) + NoSlower(t, m)
  {
    if s == [] {
      assert s + t == t;
    } else {
      assert (s + t)[1..] == s[1..] + t;
      CountsAppend(s[1..], t, m);
    }
  }

  lemma RemoveAt(t: seq<Sample>, i: nat, m: real)
    requires i < |t|
    ensures multiset(t) == multiset(t[..i] + t[i + 1..]) + multiset{t[i]}
    ensures Faster(t, m) == Faster(t[..i] + t[i + 1..], m) + Faster([t[i]], m)
    ensures NoSlower(t, m) == NoSlower(t[..i] + t[i + 1..], m) + NoSlower([t[i]], m)
  {
    assert t == t[..i] + ([t[i]] + t[i + 1..]);
    CountsAppend(t[..i], [t[i]] + t[i + 1..], m);
    CountsAppend(t[..i], t[i + 1..], m);
    CountsAppend([t[i]], t[i + 1..], m);
  }

  lemma Cancel<T>(a: multiset<T>, b: multiset<T>, x: T)
    requires a + multiset{x} == b + multiset{x}
    ensures a == b
  {
    assert a == (a + multiset{x}) - multiset{x};
    assert b == (b + multiset{x}) - multiset{x};
  }

  /** The counts do not depend on the order of the samples. */
  lemma {:induction false} CountsAreOrderFree(s: seq<Sample>, t: seq<Sample>, m: real)
    requires multiset(s) == multiset(t)
    ensures Faster(s, m) == Faster(t, m) && NoSlower(s, m) == NoSlower(t, m)
    decreases |s|
  {
    assert |multiset(s)| == |multiset(t)|;
    if s != [] {
      assert s[0] in multiset(t);
      var i :| 0 <= i < |t| && t[i] == s[0];
      var rest := t[..i] + t[i + 1..];
      RemoveAt(t, i, m);
      assert multiset(s) == multiset(s[1..]) + multiset{s[0]} by {
        assert s == [s[0]] + s[1..];
      }
      Cancel(multiset(s[1..]), multiset(rest), s[0]);
      CountsAreOrderFree(s[1..], rest, m);
    }
  }

  lemma {:induction false} RankOfSorted(s: seq<Sample>, k: nat)
    requires Sorted(s) && k < |s|
    ensures Faster(s, s[k].ttft) <= k < NoSlower(s, s[k].ttft)
  {
    var m := s[k].ttft;
    assert s == s[..k] + s[k..];
    CountsAppend(s[..k], s[k..], m);
    AllNoSlower(s[..k], m);
    NoneFaster(s[k..], m);
  }

  lemma {:induction false} AllNoSlower(s: seq<Sample>, m: real)
    requires forall i :: 0 <= i < |s| ==> s[i].ttft <= m
    ensures NoSlower(s, m) == |s| && Faster(s, m) <= |s|
  {
    if s != [] {
      AllNoSlower(s[1..], m);
    }
  }

  lemma {:induction false} NoneFaster(s: seq<Sample>, m: real)
    requires s != [] && s[0].ttft <= m && forall i :: 0 <= i < |s| ==> m <= s[i].ttft
    ensures Faster(s, m) == 0 && NoSlower(s, m) >= 1
  {
    if |s| > 1 {
      assert NoSlower(s[1..], m) >= 0;
      NoneFasterTail(s[1..], m);
    }
  }

  lemma {:induction false} NoneFasterTail(s: seq<Sample>, m: real)
    requires forall i :: 0 <= i < |s| ==> m <= s[i].ttft
    ensures Faster(s, m) == 0
  {
    if s != [] {
      NoneFasterTail(s[1..], m);
    }
  }

  lemma {:induction false} CountsMonotone(s: seq<Sample>, m: real, m': real)
    requires m < m'
    ensures NoSlower(s, m) <= Faster(s, m')
  {
    if s != [] {
      CountsMonotone(s[1..], m, m');
    }
  }

  /** m is the upper median: at most half of the samples are faster, more than half are no slower. */
  predicate UpperMedian(s: seq<Sample>, m: real) {
    Faster(s, m) <= |s| / 2 < NoSlower(s, m)
  }

  lemma UpperMedianIsUnique(s: seq<Sample>, t: seq<Sample>, m: real, m': real)
    requires multiset(s) == multiset(t)
    requires UpperMedian(s, m) && UpperMedian(t, m')
    ensures m == m'
  {
    assert |multiset(s)| == |multiset(t)|;
    CountsAreOrderFree(s, t, m);
    CountsAreOrderFree(s, t, m');
    if m < m' {
      CountsMonotone(s, m, m');
    } else if m' < m {
      CountsMonotone(s, m', m);
    }
  }

  // ----- The gate -----

  datatype Metadata = Metadata(payloadSha: string, predictedTokens: int, expectedCached: int, expectedBlocks: int)

  /** Counter differences between the metric snapshots. */
  datatype Deltas = Deltas(coldOffload: int, warmOnboard: int, matched: int)

  predicate Gate(cold: Sample, warms: seq<Sample>, meta: Metadata, d: Deltas) {
    && cold.httpStatus == 200
    && (forall w :: w in warms ==> w.httpStatus == 200)
    && cold.answerCorrect
    && (forall w :: w in warms ==> w.answerCorrect)
    && (forall w :: w in warms ==> w.payloadSha == cold.payloadSha)
    && cold.payloadSha == meta.payloadSha
    && (forall w :: w in warms ==> w.promptTokens == cold.promptTokens)
    && cold.promptTokens == Some(meta.predictedTokens)
    && TokenSearch.TARGET_MIN <= (if cold.promptTokens.Some? then cold.promptTokens.value else 0) <= TokenSearch.TARGET_MAX
    && cold.cachedTokens == 0
    && (forall w :: w in warms ==> w.cachedTokens == meta.expectedCached)
    && d.coldOffload == meta.expectedBlocks
    && d.warmOnboard == meta.expectedBlocks * |warms|
    && d.matched >= meta.expectedCached * |warms|
  }

  /** The plain success of one request, of this payload and with the predicted prompt length. */
  predicate Succeeded(q: Sample, meta: Metadata) {
    q.httpStatus == 200 && q.answerCorrect && q.payloadSha == meta.payloadSha && q.promptTokens == Some(meta.predictedTokens)
  }

  datatype Report = Report(warm: Sample, best: real, valid: bool)

  /** The performance summary over at least one warm sample. */
  method SummarizePerformance(cold: Sample, warmFiles: seq<Sample>, meta: Metadata, d: Deltas) returns (r: Report)
    requires warmFiles != []
    ensures r.warm in warmFiles && UpperMedian(warmFiles, r.warm.ttft)
    ensures (exists w :: w in warmFiles && w.ttft == r.best) && forall w :: w in warmFiles ==> r.best <= w.ttft
    ensures r.valid <==>
              && 38500 <= meta.predictedTokens <= 38880
              && Succeeded(cold, meta) && cold.cachedTokens == 0
              && (forall w :: w in warmFiles ==> Succeeded(w, meta) && w.cachedTokens == meta.expectedCached)
              && d.coldOffload == meta.expectedBlocks && d.warmOnboard == meta.expectedBlocks * |warmFiles|
              && meta.expectedCached * |warmFiles| <= d.matched
    ensures r.valid <==> Gate(cold, warmFiles, meta, d)
  {
    var samples := SortByTtft(warmFiles);
    SortFacts(warmFiles);
    var warm := samples[|samples| / 2];
    RankOfSorted(samples, |samples| / 2);
    CountsAreOrderFree(samples, warmFiles, warm.ttft);
    SameElements(samples, warmFiles);
    assert samples[0] in samples && warm in samples;
    var valid := Gate(cold, samples, meta, d);
    r := Report(warm, samples[0].ttft, valid);
  }

  lemma SameElements(s: seq<Sample>, t: seq<Sample>)
    requires multiset(s) == multiset(t)
    ensures forall x :: x in s <==> x in t
  {
    forall x ensures x in s <==> x in t {
      assert x in multiset(s) <==> x in multiset(t);
    }
  }

  function Sum(xs: seq<int>): int {
    if xs == [] then 0 else xs[0] + Sum(xs[1..])
  }

  /** A total that reaches its bound leaves no summand below it. */
  lemma {:induction false} SumAtBound(xs: seq<int>, e: int)
    requires forall i :: 0 <= i < |xs| ==> xs[i] <= e
    ensures Sum(xs) <= e * |xs|
    ensures Sum(xs) == e * |xs| <==> forall i :: 0 <= i < |xs| ==> xs[i] == e
  {
    if xs != [] {
      SumAtBound(xs[1..], e);
      assert e * |xs| == e + e * |xs[1..]|;
      if forall i :: 0 <= i < |xs[1..]| ==> xs[1..][i] == e {
        assert forall i :: 1 <= i < |xs| ==> xs[i] == xs[1..][i - 1];
      }
    }
  }

  /** The gate only sees counters over all warm requests together.  Still, if no request onboards
      more blocks than its prefix has, acceptance of a planned prompt forces every one of any number
      of warm requests to have onboarded every block of the prompt's plan, leaving less than a
      block to prefill; and every request saw the same payload and answered correctly. */
  lemma AcceptanceCoversEveryRequest(cold: Sample, warms: seq<Sample>, meta: Metadata, d: Deltas, inputTokens: nat, onboarded: seq<int>)
    requires Gate(cold, warms, meta, d)
    requires meta.predictedTokens == inputTokens
    requires meta.expectedBlocks == Prepare(inputTokens).kvBlocks && meta.expectedCached == Prepare(inputTokens).cachedTokens
    requires |onboarded| == |warms| && Sum(onboarded) == d.warmOnboard
    requires forall i :: 0 <= i < |onboarded| ==> onboarded[i] <= meta.expectedBlocks
    ensures d.coldOffload == Prepare(inputTokens).kvBlocks && cold.cachedTokens == 0
    ensures forall i :: 0 <= i < |warms| ==>
              && onboarded[i] == Prepare(inputTokens).kvBlocks
              && 150 <= onboarded[i] <= 151
              && onboarded[i] * BLOCK == warms[i].cachedTokens <= inputTokens < warms[i].cachedTokens + BLOCK
              && warms[i].payloadSha == meta.payloadSha && warms[i].answerCorrect
  {
    SumAtBound(onboarded, meta.expectedBlocks);
    PlanIsConsistent(inputTokens);
    assert forall i :: 0 <= i < |warms| ==> warms[i] in warms;
  }

  /** What one warm request did: its sample, the blocks it onboarded and the tokens it matched. */
  datatype Request = Request(sample: Sample, onboarded: int, matched: int)

  function Samples(rs: seq<Request>): seq<Sample> {
    seq(|rs|, i requires 0 <= i < |rs| => rs[i].sample)
  }

  function Onboarded(rs: seq<Request>): seq<int> {
    seq(|rs|, i requires 0 <= i < |rs| => rs[i].onboarded)
  }

  function Matched(rs: seq<Request>): seq<int> {
    seq(|rs|, i requires 0 <= i < |rs| => rs[i].matched)
  }

  /** What acceptance means, request by request.  When the counters are the sums over the warm requests
      and none onboards or matches more than the plan's prefix, a run is accepted if and only if
      every request succeeded on a prompt of admissible length, the cold one found nothing cached
      and offloaded the whole plan, and every warm one found cached, matched and onboarded the whole
      plan.  Only the lower bound on the matched tokens needs no bound per request. */
  lemma AcceptedIffEveryRequestDidItsPart(cold: Sample, warms: seq<Request>, meta: Metadata, coldOffload: int, inputTokens: nat)
    requires meta.predictedTokens == inputTokens
    requires meta.expectedBlocks == Prepare(inputTokens).kvBlocks && meta.expectedCached == Prepare(inputTokens).cachedTokens
    requires forall i :: 0 <= i < |warms| ==>
               warms[i].onboarded <= Prepare(inputTokens).kvBlocks && warms[i].matched <= Prepare(inputTokens).cachedTokens
    ensures var p := Prepare(inputTokens);
            Gate(cold, Samples(warms), meta, Deltas(coldOffload, Sum(Onboarded(warms)), Sum(Matched(warms)))) <==>
            && 38500 <= inputTokens <= 38880
            && Succeeded(cold, meta) && cold.cachedTokens == 0 && coldOffload == p.kvBlocks
            && forall i :: 0 <= i < |warms| ==>
                 && Succeeded(warms[i].sample, meta)
                 && warms[i].sample.cachedTokens == warms[i].matched == p.cachedTokens
                 && warms[i].onboarded == p.kvBlocks
  {
    var p := Prepare(inputTokens);
    var samples := Samples(warms);
    SumAtBound(Onboarded(warms), p.kvBlocks);
    SumAtBound(Matched(warms), p.cachedTokens);
    assert forall i :: 0 <= i < |warms| ==> samples[i] == warms[i].sample && samples[i] in samples;
    assert forall i :: 0 <= i < |warms| ==> Onboarded(warms)[i] == warms[i].onboarded && Matched(warms)[i] == warms[i].matched;
    if Gate(cold, samples, meta, Deltas(coldOffload, Sum(Onboarded(warms)), Sum(Matched(warms)))) {
      forall i | 0 <= i < |warms|
        ensures Succeeded(warms[i].sample, meta) && warms[i].sample.cachedTokens == p.cachedTokens
      {
        assert samples[i] in samples;
      }
      assert forall i :: 0 <= i < |warms| ==> Onboarded(warms)[i] == p.kvBlocks;
      assert forall i :: 0 <= i < |warms| ==> Matched(warms)[i] == p.cachedTokens;
    }
  }

  /** The sort keeps the order of samples that are equally fast. */
  function WithTtft(s: seq<Sample>, m: real): seq<Sample> {
    if s == [] then [] else (if s[0].ttft == m then [s[0]] else []) + WithTtft(s[1..], m)
  }

  lemma {:induction false} InsertIsStable(x: Sample, s: seq<Sample>, m: real)
    ensures WithTtft(Insert(x, s), m) == WithTtft([x] + s, m)
  {
    assert ([x] + s)[1..] == s;
    if s != [] && s[0].ttft < x.ttft {
      InsertIsStable(x, s[1..], m);
      assert ([s[0]] + Insert(x, s[1..]))[1..] == Insert(x, s[1..]);
      assert ([x] + s[1..])[1..] == s[1..];
    }
  }

  lemma {:induction false} SortIsStable(s: seq<Sample>, m: real)
    ensures WithTtft(SortByTtft(s), m) == WithTtft(s, m)
  {
    if s != [] {
      SortIsStable(s[1..], m);
      InsertIsStable(s[0], SortByTtft(s[1..]), m);
      assert ([s[0]] + SortByTtft(s[1..]))[1..] == SortByTtft(s[1..]);
    }
  }

  /** Without that bound the counter alone does not tell: for every prompt length in the target range
      there is an accepted run whose total also fits one request that reloaded a block too few and
      another one a block too many. */
  lemma CounterAloneIsNotEnough(inputTokens: nat)
    requires TokenSearch.TARGET_MIN <= inputTokens <= TokenSearch.TARGET_MAX
    ensures var p := Prepare(inputTokens);
            var cold := Sample(200, true, "sha", Some(inputTokens), 0, 1.0);
            var warm := cold.(cachedTokens := p.cachedTokens);
            var meta := Metadata("sha", inputTokens, p.cachedTokens, p.kvBlocks);
            var d := Deltas(p.kvBlocks, 2 * p.kvBlocks, 2 * p.cachedTokens);
            && Gate(cold, [warm, warm], meta, d)
            && Sum([p.kvBlocks - 1, p.kvBlocks + 1]) == d.warmOnboard
            && 0 < p.kvBlocks - 1
  {
    PlanIsConsistent(inputTokens);
    var e := Prepare(inputTokens).kvBlocks;
    assert [e - 1, e + 1][1..] == [e + 1];
    assert Sum([e + 1]) == e + 1;
  }
}
