/**
  Allocating the disk cache file: fallocate where the file system has it, else a zero-fill with
  page-aligned writes, or a plain truncate.  Every system call may fail, and a write may be short.
 */
module DiskAllocation {
  import opened Wrappers

  type Byte = bv8

  const ZERO_BUF_SIZE: nat := 16 * 1024 * 1024
  const PAGE_SIZE: nat := 4096
  const I64_LIMIT: nat := 0x8000_0000_0000_0000
  const U64_LIMIT: nat := 0x1_0000_0000_0000_0000

  function DivCeil(n: nat, d: nat): nat
    requires d > 0
  {
    (n + d - 1) / d
  }

  function AlignUp(n: nat): nat {
    DivCeil(n, PAGE_SIZE) * PAGE_SIZE
  }

  /** The length of the aligned buffer. */
  const BUFFER: nat := AlignUp(ZERO_BUF_SIZE)

  function Zeros(n: nat): seq<Byte> {
    seq(n, _ => 0)
  }

  datatype Write = Write(offset: nat, length: nat)

  datatype FallocateResult = Fallocated | NotSupported | OtherError

  /** A write accepts some bytes, or fails. */
  datatype WriteResult = Accepted(count: nat) | WriteError(errno: nat)

  /** What the system calls of one allocation do; the k-th write has the k-th result. */
  datatype Kernel = Kernel(
    fallocate: FallocateResult,
    dupOk: bool,
    write: nat -> WriteResult,
    flushOk: bool,
    truncateOk: bool)

  datatype Failure = FallocateFailed | DupFailed | PartialWrite | WriteFailed(invalidArgument: bool) | FlushFailed | TruncateFailed

  // ----- The writes a zero-fill issues -----

  function ToWrite(remaining: nat): nat {
    if remaining >= BUFFER then BUFFER
    else if AlignUp(remaining) < BUFFER then AlignUp(remaining) else BUFFER
  }

  lemma ToWriteFacts(remaining: nat)
    requires remaining > 0
    ensures BUFFER == ZERO_BUF_SIZE
    ensures 0 < ToWrite(remaining) <= BUFFER && ToWrite(remaining) % PAGE_SIZE == 0
    ensures remaining < BUFFER ==> remaining <= ToWrite(remaining) == AlignUp(remaining) < remaining + PAGE_SIZE
  {
  }

  /** The writes from a given offset on. */
  function Plan(size: nat, written: nat): seq<Write>
    decreases size - written
  {
    if written >= size then []
    else
      ToWriteFacts(size - written);
      [Write(written, ToWrite(size - written))] + Plan(size, written + ToWrite(size - written))
  }

  function Total(ws: seq<Write>): nat {
    if ws == [] then 0 else ws[0].length + Total(ws[1..])
  }

  predicate WellAligned(w: Write) {
    w.offset % PAGE_SIZE == 0 && 0 < w.length <= BUFFER && w.length % PAGE_SIZE == 0
  }

  lemma {:induction false} PlanLength(size: nat, written: nat)
    requires written <= size
    ensures |Plan(size, written)| == DivCeil(size - written, ZERO_BUF_SIZE)
    decreases size - written
  {
    if written < size {
      ToWriteFacts(size - written);
      if size - written >= BUFFER {
        PlanLength(size, written + BUFFER);
      }
    }
  }

  lemma AlignUpShifts(base: nat, n: nat)
    requires base % PAGE_SIZE == 0
    ensures AlignUp(base + n) == base + AlignUp(n)
  {
  }

  lemma {:induction false} PlanTotal(size: nat, written: nat)
    requires written % PAGE_SIZE == 0 && written <= size
    ensures written + Total(Plan(size, written)) == AlignUp(size)
    decreases size - written
  {
    if written < size {
      var n := ToWrite(size - written);
      ToWriteFacts(size - written);
      var rest := Plan(size, written + n);
      assert ([Write(written, n)] + rest)[1..] == rest;
      if size - written >= BUFFER {
        PlanTotal(size, written + n);
      } else {
        AlignUpShifts(written, size - written);
        assert rest == [];
      }
    }
  }

  lemma {:induction false} PlanAligned(size: nat, written: nat)
    requires written % PAGE_SIZE == 0
    ensures forall w :: w in Plan(size, written) ==> WellAligned(w)
    decreases size - written
  {
    if written < size {
      ToWriteFacts(size - written);
      PlanAligned(size, written + ToWrite(size - written));
    }
  }

  lemma {:induction false} PlanIsContiguous(size: nat, written: nat, k: nat)
    requires k < |Plan(size, written)|
    ensures Plan(size, written)[k].offset == written + k * BUFFER
    decreases k
  {
    if k > 0 {
      ToWriteFacts(size - written);
      PlanIsContiguous(size, written + ToWrite(size - written), k - 1);
    }
  }

  lemma LessThanAPage(n: nat)
    ensures n <= AlignUp(n) < n + 4096
  {
  }

  /** The plan writes contiguous, page-aligned, positive whole pages of at most one buffer, in
      ceil(size / 16 MiB) writes, up to the size rounded up to a page: less than a page too far. */
  lemma PlanFacts(size: nat)
    ensures var ws := Plan(size, 0);
            && |ws| == (size + 16777215) / 16777216
            && size <= Total(ws) == AlignUp(size) < size + 4096
            && (forall w :: w in ws ==> w.offset % 4096 == w.length % 4096 == 0 && 0 < w.length <= 16777216)
            && (forall k :: 0 <= k < |ws| ==> ws[k].offset == k * 16777216)
  {
    assert BUFFER == 16777216;
    PlanLength(size, 0);
    PlanTotal(size, 0);
    LessThanAPage(size);
    PlanAligned(size, 0);
    forall w | w in Plan(size, 0) ensures w.offset % 4096 == w.length % 4096 == 0 && 0 < w.length <= 16777216 {
      assert WellAligned(w);
    }
    forall k | 0 <= k < |Plan(size, 0)| ensures Plan(size, 0)[k].offset == k * 16777216 {
      PlanIsContiguous(size, 0, k);
    }
  }

  // ----- The file -----

  class CacheFile {
    var bytes: seq<Byte>
    ghost var writes: seq<Write>
    ghost var truncations: nat

    constructor ()
      ensures bytes == [] && writes == [] && truncations == 0
    {
      bytes, writes, truncations := [], [], 0;
    }

    /** A sequential write of zeros at the end of the file. */
    method WriteZeros(length: nat, outcome: WriteResult) returns (r: Option<nat>)
      modifies this
      ensures writes == old(writes) + [Write(|old(bytes)|, length)] && truncations == old(truncations)
      ensures r.Some? <==> outcome.Accepted?
      ensures r.Some? ==> r.value == (if outcome.count < length then outcome.count else length)
      ensures r.Some? ==> bytes == old(bytes) + Zeros(r.value)
      ensures r.None? ==> bytes == old(bytes)
    {
      writes := writes + [Write(|bytes|, length)];
      match outcome {
        case Accepted(count) =>
          var n := if count < length then count else length;
          bytes := bytes + Zeros(n);
          r := Some(n);
        case WriteError(_) =>
          r := None;
      }
    }

    /** Sets the length, cutting the file or extending it with zeros. */
    method Truncate(size: nat, ok: bool)
      modifies this
      ensures writes == old(writes)
      ensures truncations == old(truncations) + 1
      ensures bytes == if !ok then old(bytes)
                       else if size <= |old(bytes)| then old(bytes)[..size]
                       else old(bytes) + Zeros(size - |old(bytes)|)
    {
      truncations := truncations + 1;
      if ok {
        bytes := if size <= |bytes| then bytes[..size] else bytes + Zeros(size - |bytes|);
      }
    }
  }

  predicate Completes(outcome: WriteResult, length: nat) {
    outcome.Accepted? && outcome.count >= length
  }

  /** How a write that does not complete is reported. */
  function WriteFailure(outcome: WriteResult): Option<Failure> {
    Some(if outcome.WriteError? then WriteFailed(outcome.errno == 22) else PartialWrite)
  }

  predicate WriteCompletes(kernel: Kernel, k: nat, w: Write) {
    Completes(kernel.write(k), w.length)
  }

  /** The n-th write of the plan is the first that is refused or short. */
  predicate FirstIncomplete(kernel: Kernel, plan: seq<Write>, n: nat) {
    && n < |plan| && !WriteCompletes(kernel, n, plan[n])
    && forall k :: 0 <= k < n ==> WriteCompletes(kernel, k, plan[k])
  }

  lemma ZerosAppend(a: nat, b: nat)
    ensures Zeros(a) + Zeros(b) == Zeros(a + b)
    ensures Zeros(a + b)[..a] == Zeros(a)
  {
  }

  lemma PlanStep(plan: seq<Write>, k: nat, size: nat, written: nat)
    requires k <= |plan| && plan[k..] == Plan(size, written) && written < size
    ensures var n := ToWrite(size - written);
            && 0 < n && k < |plan| && plan[k] == Write(written, n)
            && plan[k + 1..] == Plan(size, written + n)
            && plan[..k + 1] == plan[..k] + [plan[k]]
            && Total(plan[k..]) == n + Total(plan[k + 1..])
  {
    ToWriteFacts(size - written);
    assert plan[k..][0] == plan[k];
    assert plan[k..][1..] == plan[k + 1..];
  }

  /** One write of the loop, with the test that it was neither refused nor short. */
  method WriteChunk(file: CacheFile, toWrite: nat, outcome: WriteResult) returns (r: Option<Failure>)
    requires file.bytes == Zeros(|file.bytes|)
    modifies file
    ensures file.writes == old(file.writes) + [Write(|old(file.bytes)|, toWrite)]
    ensures file.truncations == old(file.truncations)
    ensures file.bytes == Zeros(|file.bytes|) && |file.bytes| <= |old(file.bytes)| + toWrite
    ensures r.None? <==> Completes(outcome, toWrite)
    ensures r.None? ==> |file.bytes| == |old(file.bytes)| + toWrite
    ensures r.Some? ==> r == WriteFailure(outcome)
    ensures r == Some(WriteFailed(true)) <==> outcome == WriteError(22)
  {
    var n := file.WriteZeros(toWrite, outcome);
    if n.None? {
      return Some(WriteFailed(outcome.errno == 22));
    }
    ZerosAppend(|old(file.bytes)|, n.value);
    if n.value != toWrite {
      return Some(PartialWrite);
    }
    r := None;
  }

  /** The write loop of the fallback. */
  method WriteAllZeros(file: CacheFile, size: nat, kernel: Kernel) returns (r: Option<Failure>)
    requires file.bytes == [] && file.writes == [] && file.truncations == 0
    modifies file
    ensures file.writes <= Plan(size, 0) && file.truncations == 0
    ensures file.bytes == Zeros(|file.bytes|) && |file.bytes| <= Total(Plan(size, 0))
    ensures r.None? ==> file.writes == Plan(size, 0) && |file.bytes| == Total(Plan(size, 0))
    ensures r.None? <==> forall k :: 0 <= k < |Plan(size, 0)| ==> WriteCompletes(kernel, k, Plan(size, 0)[k])
    ensures r.Some? ==>
              && file.writes != []
              && FirstIncomplete(kernel, Plan(size, 0), |file.writes| - 1)
              && r == WriteFailure(kernel.write(|file.writes| - 1))
  {
    ghost var plan := Plan(size, 0);
    var written := 0;
    var k := 0;
    while written < size
      invariant 0 <= k <= |plan|
      invariant file.writes == plan[..k] && plan[k..] == Plan(size, written)
      invariant |file.bytes| == written && file.bytes == Zeros(written) && file.truncations == 0
      invariant written + Total(plan[k..]) == Total(plan)
      invariant forall j :: 0 <= j < k ==> WriteCompletes(kernel, j, plan[j])
      decreases size - written
    {
      PlanStep(plan, k, size, written);
      var toWrite := ToWrite(size - written);
      r := WriteChunk(file, toWrite, kernel.write(k));
      if r.Some? {
        assert FirstIncomplete(kernel, plan, k);
        return;
      }
      written := written + toWrite;
      k := k + 1;
    }
    assert plan[k..] == [] && plan[..k] == plan;
    r := None;
  }

  /** The zero-fill fallback on an empty file.  It issues the planned writes and no others, one by
      one until one is refused or short; a success needed all of them, is exactly size zero bytes
      long, and was truncated exactly when the size is not a whole number of pages. */
  method ZeroFill(file: CacheFile, size: nat, kernel: Kernel) returns (r: Option<Failure>)
    requires file.bytes == [] && file.writes == [] && file.truncations == 0
    requires size < I64_LIMIT
    modifies file
    ensures file.writes <= Plan(size, 0)
    ensures r.None? ==> file.bytes == Zeros(size) && file.writes == Plan(size, 0)
    ensures r.None? ==> file.truncations == if size % PAGE_SIZE == 0 then 0 else 1
    ensures file.bytes == Zeros(|file.bytes|) && |file.bytes| <= AlignUp(size) < U64_LIMIT
    ensures r.None? <==>
              kernel.flushOk && (size % PAGE_SIZE == 0 || kernel.truncateOk) &&
              forall k :: 0 <= k < |Plan(size, 0)| ==> WriteCompletes(kernel, k, Plan(size, 0)[k])
    ensures r != Some(FallocateFailed) && r != Some(DupFailed)
    ensures var written := forall k :: 0 <= k < |Plan(size, 0)| ==> WriteCompletes(kernel, k, Plan(size, 0)[k]);
            && (r == Some(FlushFailed) <==> written && !kernel.flushOk)
            && (r == Some(TruncateFailed) <==> written && kernel.flushOk && size % PAGE_SIZE != 0 && !kernel.truncateOk)
  {
    PlanTotal(size, 0);
    r := WriteAllZeros(file, size, kernel);
    if r.Some? {
      return;
    }
    if !kernel.flushOk {
      return Some(FlushFailed);
    }
    if |file.bytes| > size {
      ZerosAppend(size, |file.bytes| - size);
      file.Truncate(size, kernel.truncateOk);
      if !kernel.truncateOk {
        return Some(TruncateFailed);
      }
    }
  }

  /** The system calls on the way that is taken all succeed. */
  predicate Succeeds(size: nat, zeroFill: bool, kernel: Kernel) {
    match kernel.fallocate
    case Fallocated => true
    case OtherError => false
    case NotSupported =>
      if !zeroFill then kernel.truncateOk
      else
        && kernel.dupOk && kernel.flushOk && (size % PAGE_SIZE == 0 || kernel.truncateOk)
        && forall k :: 0 <= k < |Plan(size, 0)| ==> WriteCompletes(kernel, k, Plan(size, 0)[k])
  }

  /** The whole allocation.  Whichever way it succeeds the file is exactly size zero bytes, and
      whatever happens it never holds anything but zeros. */
  method AllocateFile(file: CacheFile, size: nat, zeroFill: bool, kernel: Kernel) returns (r: Option<Failure>)
    requires file.bytes == [] && file.writes == [] && file.truncations == 0
    requires size < I64_LIMIT
    modifies file
    ensures r.None? <==> Succeeds(size, zeroFill, kernel)
    ensures r.None? ==> file.bytes == Zeros(size)
    ensures file.bytes == Zeros(|file.bytes|) && |file.bytes| <= AlignUp(size)
    ensures file.writes <= Plan(size, 0)
    ensures file.writes != [] ==> kernel.fallocate == NotSupported && zeroFill && kernel.dupOk
    ensures r == Some(FallocateFailed) <==> kernel.fallocate == OtherError
    ensures r == Some(DupFailed) <==> kernel.fallocate == NotSupported && zeroFill && !kernel.dupOk
    ensures file.truncations > 0 ==> kernel.fallocate == NotSupported
  {
    match kernel.fallocate {
      case Fallocated =>
        file.bytes := Zeros(size);
        r := None;
      case OtherError =>
        r := Some(FallocateFailed);
      case NotSupported =>
        if zeroFill {
          if !kernel.dupOk {
            return Some(DupFailed);
          }
          r := ZeroFill(file, size, kernel);
        } else {
          file.Truncate(size, kernel.truncateOk);
          assert [] + Zeros(size) == Zeros(size);
          r := if kernel.truncateOk then None else Some(TruncateFailed);
        }
    }
  }
}
