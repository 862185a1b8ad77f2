/**
  The life of a disk cache file: created, registered with the NIXL agent while it is still
  linked, unlinked right after, and dropped.  Every system call may fail.
 */
module DiskLifecycle {
  import opened Wrappers
  import DiskAllocation

  /** The calls a storage object issues, with their results. */
  datatype Call =
    | RegisterMemory(ok: bool)
    | StoreHandle(ok: bool)
    | ReleaseHandles
    | UnlinkFile(ok: bool)

  datatype Error = AlreadyUnlinked | RegistrationFailed | UnlinkFailed

  datatype Op =
    | NixlRegister(agentOk: bool, storeOk: bool, unlinkOk: bool)
    | Unlink(unlinkOk: bool)

  /** passed counts the registrations that got past the agent and the handle table. */
  datatype Storage = Storage(unlinked: bool, fileLinked: bool, passed: nat, calls: seq<Call>)

  const CREATED: Storage := Storage(false, true, 0, [])

  function UnlinkStep(s: Storage, unlinkOk: bool): Storage {
    if s.unlinked then s
    else Storage(true, s.fileLinked && !unlinkOk, s.passed, s.calls + [UnlinkFile(unlinkOk)])
  }

  function RegisterStep(s: Storage, o: Op): Storage
    requires o.NixlRegister?
  {
    if s.unlinked then s
    else if !o.agentOk then s.(calls := s.calls + [RegisterMemory(false)])
    else if !o.storeOk then s.(calls := s.calls + [RegisterMemory(true), StoreHandle(false)])
    else
      UnlinkStep(s.(passed := s.passed + 1, calls := s.calls + [RegisterMemory(true), StoreHandle(true)]), o.unlinkOk)
  }

  function Apply(s: Storage, o: Op): Storage {
    match o
    case NixlRegister(_, _, _) => RegisterStep(s, o)
    case Unlink(unlinkOk) => UnlinkStep(s, unlinkOk)
  }

  function Exec(s: Storage, ops: seq<Op>): Storage
    decreases |ops|
  {
    if ops == [] then s else Exec(Apply(s, ops[0]), ops[1..])
  }

  function DropStep(s: Storage, unlinkOk: bool): Storage {
    UnlinkStep(s.(calls := s.calls + [ReleaseHandles]), unlinkOk)
  }

  class DiskStorage {
    var unlinkedFlag: bool
    var fileLinked: bool
    ghost var passed: nat
    ghost var calls: seq<Call>

    ghost function Snapshot(): Storage
      reads this
    {
      Storage(unlinkedFlag, fileLinked, passed, calls)
    }

    constructor ()
      ensures Snapshot() == CREATED
    {
      unlinkedFlag, fileLinked, passed, calls := false, true, 0, [];
    }

    /** The flag is set before the call, so a failed call is not repeated. */
    method Unlink(unlinkOk: bool) returns (r: Option<Error>)
      modifies this
      ensures Snapshot() == UnlinkStep(old(Snapshot()), unlinkOk)
      ensures r == if !old(unlinkedFlag) && !unlinkOk then Some(UnlinkFailed) else None
    {
      if unlinkedFlag {
        return None;
      }
      unlinkedFlag := true;
      calls := calls + [UnlinkFile(unlinkOk)];
      if unlinkOk {
        fileLinked := false;
        return None;
      }
      return Some(UnlinkFailed);
    }

    method NixlRegister(agentOk: bool, storeOk: bool, unlinkOk: bool) returns (r: Option<Error>)
      modifies this
      ensures Snapshot() == RegisterStep(old(Snapshot()), Op.NixlRegister(agentOk, storeOk, unlinkOk))
      ensures r.None? <==> !old(unlinkedFlag) && agentOk && storeOk && unlinkOk
      ensures r == Some(AlreadyUnlinked) <==> old(unlinkedFlag)
    {
      if unlinkedFlag {
        return Some(AlreadyUnlinked);
      }
      calls := calls + [RegisterMemory(agentOk)];
      if !agentOk {
        return Some(RegistrationFailed);
      }
      calls := calls + [StoreHandle(storeOk)];
      if !storeOk {
        assert calls == old(calls) + [RegisterMemory(true), StoreHandle(false)];
        return Some(RegistrationFailed);
      }
      assert calls == old(calls) + [RegisterMemory(true), StoreHandle(true)];
      passed := passed + 1;
      r := Unlink(unlinkOk);
    }

    method Drop(unlinkOk: bool)
      modifies this
      ensures Snapshot() == DropStep(old(Snapshot()), unlinkOk)
    {
      calls := calls + [ReleaseHandles];
      var _ := Unlink(unlinkOk);
    }
  }

  // ----- Every life -----

  function Unlinks(calls: seq<Call>): nat {
    if calls == [] then 0 else (if calls[0].UnlinkFile? then 1 else 0) + Unlinks(calls[1..])
  }

  lemma {:induction false} UnlinksAppend(a: seq<Call>, b: seq<Call>)
    ensures Unlinks(a + b) == Unlinks(a) + Unlinks(b)
  {
    if a == [] {
      assert a + b == b;
    } else {
      assert (a + b)[1..] == a[1..] + b;
      UnlinksAppend(a[1..], b);
    }
  }

  predicate IsUnlink(calls: seq<Call>, i: int) {
    0 <= i < |calls| && calls[i].UnlinkFile?
  }

  predicate IsRegister(calls: seq<Call>, i: int) {
    0 <= i < |calls| && calls[i].RegisterMemory?
  }

  /** The flag tells whether the one unlink call has been issued; no registration is attempted after
      it; and the file is still linked exactly when that call has not been issued or has failed. */
  ghost predicate Inv(s: Storage) {
    && Unlinks(s.calls) == (if s.unlinked then 1 else 0)
    && (s.unlinked <==> exists i :: IsUnlink(s.calls, i))
    && (forall i, j :: IsUnlink(s.calls, i) && IsRegister(s.calls, j) ==> j < i)
    && (s.fileLinked <==> forall i :: IsUnlink(s.calls, i) ==> !s.calls[i].ok)
    && s.passed <= (if s.unlinked then 1 else 0)
  }

  lemma AppendKeepsInv(s: Storage, more: seq<Call>)
    requires Inv(s)
    requires forall i :: 0 <= i < |more| ==> !more[i].UnlinkFile?
    requires s.unlinked ==> forall i :: 0 <= i < |more| ==> !more[i].RegisterMemory?
    ensures Inv(s.(calls := s.calls + more))
  {
    var calls := s.calls + more;
    UnlinksAppend(s.calls, more);
    NoUnlinks(more);
    forall i ensures IsUnlink(calls, i) <==> IsUnlink(s.calls, i) {
    }
    forall j | IsRegister(calls, j) ensures IsRegister(s.calls, j) || !s.unlinked {
      assert j >= |s.calls| ==> calls[j] == more[j - |s.calls|];
    }
    assert forall i, j :: IsUnlink(calls, i) && IsRegister(calls, j) ==> IsUnlink(s.calls, i) && IsRegister(s.calls, j);
  }

  lemma {:induction false} NoUnlinks(calls: seq<Call>)
    requires forall i :: 0 <= i < |calls| ==> !calls[i].UnlinkFile?
    ensures Unlinks(calls) == 0
  {
    if calls != [] {
      NoUnlinks(calls[1..]);
    }
  }

  lemma UnlinkKeepsInv(s: Storage, passed: nat, unlinkOk: bool)
    requires Inv(s)
    requires passed == s.passed || (!s.unlinked && passed == s.passed + 1)
    ensures Inv(UnlinkStep(s.(passed := passed), unlinkOk))
  {
    if !s.unlinked {
      var calls := s.calls + [UnlinkFile(unlinkOk)];
      UnlinksAppend(s.calls, [UnlinkFile(unlinkOk)]);
      assert [UnlinkFile(unlinkOk)][1..] == [];
      assert IsUnlink(calls, |s.calls|);
      forall i ensures IsUnlink(calls, i) <==> i == |s.calls| {
        assert !IsUnlink(s.calls, i);
      }
    }
  }

  lemma ApplyKeepsInv(s: Storage, o: Op)
    requires Inv(s)
    ensures Inv(Apply(s, o))
  {
    match o
    case Unlink(unlinkOk) => UnlinkKeepsInv(s, s.passed, unlinkOk);
    case NixlRegister(agentOk, storeOk, unlinkOk) =>
      if !s.unlinked {
        if !agentOk {
          AppendKeepsInv(s, [RegisterMemory(false)]);
        } else {
          AppendKeepsInv(s, [RegisterMemory(true), StoreHandle(storeOk)]);
          if storeOk {
            UnlinkKeepsInv(s.(calls := s.calls + [RegisterMemory(true), StoreHandle(true)]), s.passed + 1, unlinkOk);
          }
        }
      }
  }

  lemma {:induction false} ExecKeepsInv(s: Storage, ops: seq<Op>)
    requires Inv(s)
    ensures Inv(Exec(s, ops))
    decreases |ops|
  {
    if ops != [] {
      ApplyKeepsInv(s, ops[0]);
      ExecKeepsInv(Apply(s, ops[0]), ops[1..]);
    }
  }

  /** Over every life, with any operations and any results: the unlink call is issued exactly once,
      every registration attempt comes before it, at most one gets past registration, and the file
      outlives the object exactly when that single call failed. */
  lemma UnlinkedExactlyOnce(ops: seq<Op>, unlinkOk: bool)
    ensures var s := DropStep(Exec(CREATED, ops), unlinkOk);
            && Unlinks(s.calls) == 1
            && (exists i :: IsUnlink(s.calls, i))
            && (forall i, j :: IsUnlink(s.calls, i) && IsRegister(s.calls, j) ==> j < i)
            && (s.fileLinked <==> forall i :: IsUnlink(s.calls, i) ==> !s.calls[i].ok)
            && s.passed <= 1
  {
    assert Inv(CREATED);
    ExecKeepsInv(CREATED, ops);
    var s := Exec(CREATED, ops);
    AppendKeepsInv(s, [ReleaseHandles]);
    UnlinkKeepsInv(s.(calls := s.calls + [ReleaseHandles]), s.passed, unlinkOk);
  }

  /** Whatever the operations, the calls of a life come in order: the table entry right after a
      successful registration, the unlink right after the first entry, and no registration after it. */
  ghost predicate Ordered(calls: seq<Call>) {
    && (forall i :: 0 <= i < |calls| && calls[i] == RegisterMemory(true) ==> i + 1 < |calls| && calls[i + 1].StoreHandle?)
    && (forall i :: 0 <= i < |calls| && calls[i].StoreHandle? ==> i > 0 && calls[i - 1] == RegisterMemory(true))
    && (forall i :: 0 <= i < |calls| && calls[i] == StoreHandle(true) ==> i + 1 < |calls| && calls[i + 1].UnlinkFile?)
  }

  lemma OrderedAppend(a: seq<Call>, b: seq<Call>)
    requires Ordered(a) && Ordered(b)
    ensures Ordered(a + b)
  {
    var c := a + b;
    forall i | 0 <= i < |c| && c[i] == RegisterMemory(true) ensures i + 1 < |c| && c[i + 1].StoreHandle? {
      assert i < |a| ==> c[i + 1] == a[i + 1];
      assert i >= |a| ==> b[i - |a|] == c[i];
    }
    forall i | 0 <= i < |c| && c[i].StoreHandle? ensures i > 0 && c[i - 1] == RegisterMemory(true) {
      assert i < |a| ==> a[i - 1] == RegisterMemory(true);
      assert i >= |a| ==> b[i - |a|] == c[i] && b[i - |a| - 1] == c[i - 1];
    }
    forall i | 0 <= i < |c| && c[i] == StoreHandle(true) ensures i + 1 < |c| && c[i + 1].UnlinkFile? {
      assert i < |a| ==> c[i + 1] == a[i + 1];
      assert i >= |a| ==> b[i - |a|] == c[i];
    }
  }

  /** The calls one operation adds. */
  function Added(s: Storage, o: Op): seq<Call> {
    if s.unlinked then []
    else if o.Unlink? then [UnlinkFile(o.unlinkOk)]
    else if !o.agentOk then [RegisterMemory(false)]
    else if !o.storeOk then [RegisterMemory(true), StoreHandle(false)]
    else [RegisterMemory(true), StoreHandle(true), UnlinkFile(o.unlinkOk)]
  }

  lemma ApplyKeepsOrdered(s: Storage, o: Op)
    requires Ordered(s.calls) && ReleaseHandles !in s.calls
    ensures Ordered(Apply(s, o).calls) && ReleaseHandles !in Apply(s, o).calls
  {
    assert Apply(s, o).calls == s.calls + Added(s, o);
    OrderedAppend(s.calls, Added(s, o));
  }

  lemma {:induction false} ExecKeepsOrdered(s: Storage, ops: seq<Op>)
    requires Ordered(s.calls) && ReleaseHandles !in s.calls
    ensures Ordered(Exec(s, ops).calls) && ReleaseHandles !in Exec(s, ops).calls
    decreases |ops|
  {
    if ops != [] {
      ApplyKeepsOrdered(s, ops[0]);
      ExecKeepsOrdered(Apply(s, ops[0]), ops[1..]);
    }
  }

  /** Over every life the handles are released exactly once, when the object is dropped: after every
      registration, and before the unlink if that is still to be done, which then is the last call. */
  lemma HandlesAreReleasedOnce(ops: seq<Op>, unlinkOk: bool)
    ensures var before, s := Exec(CREATED, ops), DropStep(Exec(CREATED, ops), unlinkOk);
            var k := |before.calls|;
            && Ordered(s.calls)
            && k < |s.calls| && s.calls[k] == ReleaseHandles
            && (forall i :: 0 <= i < |s.calls| && s.calls[i] == ReleaseHandles ==> i == k)
            && s.calls[k + 1..] == if before.unlinked then [] else [UnlinkFile(unlinkOk)]
  {
    ExecKeepsOrdered(CREATED, ops);
    var before := Exec(CREATED, ops);
    var last := [ReleaseHandles] + if before.unlinked then [] else [UnlinkFile(unlinkOk)];
    OrderedAppend(before.calls, last);
    var calls := DropStep(before, unlinkOk).calls;
    assert calls == before.calls + last;
    assert forall i :: 0 <= i < |before.calls| ==> calls[i] == before.calls[i] && before.calls[i] != ReleaseHandles;
  }

  // ----- Creation -----

  /** How opening the temporary file went: not created, created but rejected, or open. */
  datatype OpenResult = NotCreated | Rejected(cleanupOk: bool) | Opened

  /** The object if creation succeeded, and whether a file is on disk afterwards. */
  function Create(open: OpenResult, size: nat, zeroFill: bool, kernel: DiskAllocation.Kernel): (Option<Storage>, bool) {
    match open
    case NotCreated => (None, false)
    case Rejected(cleanupOk) => (None, !cleanupOk)
    case Opened => if DiskAllocation.Succeeds(size, zeroFill, kernel) then (Some(CREATED), true) else (None, true)
  }

  /** Opening, then allocating: an allocation that fails returns before there is an object that could
      unlink the file. */
  method NewStorage(open: OpenResult, size: nat, zeroFill: bool, kernel: DiskAllocation.Kernel)
    returns (storage: Option<DiskStorage>, file: Option<DiskAllocation.CacheFile>)
    requires size < DiskAllocation.I64_LIMIT
    ensures var (created, onDisk) := Create(open, size, zeroFill, kernel);
            && (storage.Some? <==> created.Some?)
            && (storage.Some? ==> fresh(storage.value) && storage.value.Snapshot() == created.value)
            && (file.Some? <==> onDisk)
    ensures storage.Some? ==> file.value.bytes == DiskAllocation.Zeros(size)
  {
    storage, file := None, None;
    if open.NotCreated? {
      return;
    }
    var f := new DiskAllocation.CacheFile();
    if open.Rejected? {
      file := if open.cleanupOk then None else Some(f);
      return;
    }
    file := Some(f);
    var failure := DiskAllocation.AllocateFile(f, size, zeroFill, kernel);
    if failure.None? {
      var s := new DiskStorage();
      storage := Some(s);
    }
  }

  /** Whether the file is still on disk when everything is over. */
  function FileLeftBehind(open: OpenResult, size: nat, zeroFill: bool, kernel: DiskAllocation.Kernel, ops: seq<Op>, unlinkOk: bool): bool {
    var (storage, onDisk) := Create(open, size, zeroFill, kernel);
    if storage.None? then onDisk else DropStep(Exec(storage.value, ops), unlinkOk).fileLinked
  }

  /** Every unlink call of a life succeeds. */
  predicate UnlinksSucceed(ops: seq<Op>, unlinkOk: bool) {
    unlinkOk && forall k :: 0 <= k < |ops| ==> ops[k].unlinkOk
  }

  /** Cleaning up is not complete: even when every unlink would succeed, the cache file is left on
      disk exactly when the file was opened and a system call of its allocation then failed. */
  lemma FailedAllocationLeavesFile(open: OpenResult, size: nat, zeroFill: bool, kernel: DiskAllocation.Kernel, ops: seq<Op>, unlinkOk: bool)
    requires UnlinksSucceed(ops, unlinkOk) && (open.Rejected? ==> open.cleanupOk)
    ensures FileLeftBehind(open, size, zeroFill, kernel, ops, unlinkOk) <==>
            open.Opened? && !DiskAllocation.Succeeds(size, zeroFill, kernel)
  {
    if open.Opened? && DiskAllocation.Succeeds(size, zeroFill, kernel) {
      SuccessfulUnlinkRemoves(CREATED, ops);
    }
  }

  lemma {:induction false} SuccessfulUnlinkRemoves(s: Storage, ops: seq<Op>)
    requires forall k :: 0 <= k < |ops| ==> ops[k].unlinkOk
    requires s.fileLinked ==> !s.unlinked
    ensures Exec(s, ops).fileLinked ==> !Exec(s, ops).unlinked
    decreases |ops|
  {
    if ops != [] {
      assert ops[0].unlinkOk;
      SuccessfulUnlinkRemoves(Apply(s, ops[0]), ops[1..]);
    }
  }
}
