/**
  Setting up the Phase 2 NFS export and rolling it back, on a host that may have run NFS before.
  Both scripts stop at the first failing command, and may be killed anywhere, so a run carries
  the number of steps it gets to take if nothing it finds on the host stops it.  Writing a file
  takes a step to create or truncate it and one for each printf.
 */
module NfsLifecycle {
  import opened Wrappers

  /** A managed file: whether it is the expected text once carriage returns are deleted, and
      whether one of its lines is exactly the expected line. */
  datatype Text = Text(expectedModuloCr: bool, hasExactLine: bool)

  const WRITTEN: Text := Text(true, true)
  const EMPTY: Text := Text(false, false)

  datatype Saved = Saved(packageInstalledBefore: bool, serviceWasActive: bool)

  /** The assignments the state file holds. */
  datatype StateText = StateText(packageInstalledBefore: Option<bool>, serviceWasActive: Option<bool>)

  /** What sourcing a readable state file says, with the defaults for missing assignments. */
  function Read(text: StateText): Saved {
    Saved(text.packageInstalledBefore.None? || text.packageInstalledBefore.value,
          text.serviceWasActive.Some? && text.serviceWasActive.value)
  }

  /** `exported` is the entry of the path in the kernel's export table. */
  datatype Host = Host(
    packageInstalled: bool,
    unitListed: bool,
    serviceActive: bool,
    exported: bool,
    exportFile: Option<Text>,
    configFile: Option<Text>,
    stateFile: Option<StateText>)

  predicate Served(h: Host) {
    h.exported && h.serviceActive
  }

  /** One run of the setup script. */
  datatype Attempt = Attempt(
    packageOverride: Option<bool>,
    serviceOverride: Option<bool>,
    installPackage: bool,
    dryRunClean: bool,
    steps: nat)

  const ALL_STEPS: nat := 10

  function Observed(h: Host, a: Attempt): Saved {
    if h.stateFile.Some? then Read(h.stateFile.value)
    else Saved(if a.packageOverride.Some? then a.packageOverride.value else h.packageInstalled,
               if a.serviceOverride.Some? then a.serviceOverride.value else h.unitListed && h.serviceActive)
  }

  predicate Acceptable(file: Option<Text>) {
    file.None? || file.value.expectedModuloCr
  }

  predicate NeedsPackage(h: Host, a: Attempt) {
    !Observed(h, a).packageInstalledBefore && !h.packageInstalled
  }

  /** The script dies on a missing package it may not or cannot install cleanly. */
  predicate PackageBlocked(h: Host, a: Attempt) {
    NeedsPackage(h, a) && !(a.installPackage && a.dryRunClean)
  }

  /** A managed file that is present is compared; otherwise it is created and then written. */
  function Put(file: Option<Text>, created: bool, written: bool): (Option<Text>, bool) {
    if file.Some? then (file, written && file.value.expectedModuloCr)
    else if !created then (None, false)
    else if !written then (Some(EMPTY), false)
    else (Some(WRITTEN), true)
  }

  /** Steps 2 and 3 are the export file, 4 and 5 the configuration file. */
  function WriteFiles(h: Host, steps: nat): (Host, bool) {
    var (ex, exDone) := Put(h.exportFile, steps >= 2, steps >= 3);
    var h1 := h.(exportFile := ex);
    if !exDone then (h1, false)
    else
      var (conf, confDone) := Put(h1.configFile, steps >= 4, steps >= 5);
      (h1.(configFile := conf), confDone)
  }

  /** The state file after 8, 9 or 10 steps: truncated, one line written, both written. */
  function Recorded(steps: nat, saved: Saved): StateText {
    StateText(if steps >= 9 then Some(saved.packageInstalledBefore) else None,
              if steps >= ALL_STEPS then Some(saved.serviceWasActive) else None)
  }

  /** What a later run reads of a state file that was written to the end, or cut after one line or
      none: the service then counts as not active before, and without any line the package counts
      as installed. */
  lemma RecordedIsRead(saved: Saved)
    ensures Read(Recorded(10, saved)) == saved
    ensures Read(Recorded(9, saved)) == saved.(serviceWasActive := false)
    ensures Read(Recorded(8, saved)) == Saved(true, false)
  {
  }

  /** Step 6 starts the service; step 7 is the threads, the export table and the listener; steps 8
      to 10 rewrite the state file. */
  function Launch(h: Host, steps: nat, saved: Saved): (Host, bool) {
    if steps < 6 then (h, false)
    else
      var h1 := h.(serviceActive := true, unitListed := true);
      if steps < 7 then (h1, false)
      else
        var h2 := h1.(exported := true);
        if steps < 8 then (h2, false)
        else (h2.(stateFile := Some(Recorded(steps, saved))), steps >= ALL_STEPS)
  }

  /** Step 1 is the package. */
  function Setup(h: Host, a: Attempt): (Host, bool) {
    if a.steps < 1 || PackageBlocked(h, a) then (h, false)
    else
      var h1 := if NeedsPackage(h, a) then h.(packageInstalled := true, unitListed := true) else h;
      var (h2, written) := WriteFiles(h1, a.steps);
      if written then Launch(h2, a.steps, Observed(h, a)) else (h2, false)
  }

  /** One run of the rollback script: configuration file, clients check, removing the export file,
      updating the export table, service stop, state file. */
  datatype Rollback = Rollback(clientsActive: bool, steps: nat)

  const ALL_ROLLBACK_STEPS: nat := 6

  /** Steps 3 and 4, both under the test that the export file exists. */
  function Unexport(h: Host, steps: nat): (Host, bool) {
    if steps < 3 || (h.exportFile.Some? && !h.exportFile.value.hasExactLine) then (h, false)
    else if h.exportFile.None? then (h, steps >= 4)
    else if steps < 4 then (h.(exportFile := None), false)
    else (h.(exportFile := None, exported := false), true)
  }

  function RollBack(h: Host, r: Rollback): (Host, bool) {
    var stop := h.stateFile.None? || !Read(h.stateFile.value).serviceWasActive;
    if r.steps < 1 || !Acceptable(h.configFile) then (h, false)
    else
      var h1 := h.(configFile := None);
      if r.steps < 2 || r.clientsActive then (h1, false)
      else
        var (h2, unexported) := Unexport(h1, r.steps);
        if !unexported || r.steps < 5 then (h2, false)
        else
          var h3 := if stop then h2.(serviceActive := false) else h2;
          if r.steps < ALL_ROLLBACK_STEPS then (h3, false)
          else (h3.(stateFile := None), true)
  }

  class NfsHost {
    var packageInstalled: bool
    var unitListed: bool
    var serviceActive: bool
    var exported: bool
    var exportFile: Option<Text>
    var configFile: Option<Text>
    var stateFile: Option<StateText>

    function Snapshot(): Host
      reads this
    {
      Host(packageInstalled, unitListed, serviceActive, exported, exportFile, configFile, stateFile)
    }

    constructor (h: Host)
      ensures Snapshot() == h
    {
      packageInstalled, unitListed := h.packageInstalled, h.unitListed;
      serviceActive, exported := h.serviceActive, h.exported;
      exportFile, configFile, stateFile := h.exportFile, h.configFile, h.stateFile;
    }

    method RunSetup(a: Attempt) returns (completed: bool)
      modifies this
      ensures (Snapshot(), completed) == Setup(old(Snapshot()), a)
    {
      var saved := FindOriginalState(a);
      if a.steps < 1 {
        return false;
      }
      if !saved.packageInstalledBefore && !packageInstalled {
        if !a.installPackage || !a.dryRunClean {
          return false;
        }
        packageInstalled, unitListed := true, true;
      }
      var written := WriteManagedFiles(a.steps);
      if !written {
        return false;
      }
      completed := LaunchService(a.steps, saved);
    }

    method FindOriginalState(a: Attempt) returns (saved: Saved)
      ensures saved == Observed(Snapshot(), a)
    {
      if stateFile.Some? {
        var text := stateFile.value;
        var installed, active := true, false;
        if text.packageInstalledBefore.Some? {
          installed := text.packageInstalledBefore.value;
        }
        if text.serviceWasActive.Some? {
          active := text.serviceWasActive.value;
        }
        return Saved(installed, active);
      }
      var installedBefore := if a.packageOverride.Some? then a.packageOverride.value else packageInstalled;
      var wasActive := if a.serviceOverride.Some? then a.serviceOverride.value else unitListed && serviceActive;
      saved := Saved(installedBefore, wasActive);
    }

    method WriteManagedFiles(steps: nat) returns (written: bool)
      modifies this`exportFile, this`configFile
      ensures (Snapshot(), written) == WriteFiles(old(Snapshot()), steps)
    {
      written := WriteExportFile(steps);
      if written {
        written := WriteConfigFile(steps);
      }
    }

    method WriteExportFile(steps: nat) returns (written: bool)
      modifies this`exportFile
      ensures (exportFile, written) == Put(old(exportFile), steps >= 2, steps >= 3)
    {
      if exportFile.Some? {
        return steps >= 3 && exportFile.value.expectedModuloCr;
      }
      if steps < 2 {
        return false;
      }
      exportFile := Some(EMPTY);
      if steps < 3 {
        return false;
      }
      exportFile := Some(WRITTEN);
      return true;
    }

    method WriteConfigFile(steps: nat) returns (written: bool)
      modifies this`configFile
      ensures (configFile, written) == Put(old(configFile), steps >= 4, steps >= 5)
    {
      if configFile.Some? {
        return steps >= 5 && configFile.value.expectedModuloCr;
      }
      if steps < 4 {
        return false;
      }
      configFile := Some(EMPTY);
      if steps < 5 {
        return false;
      }
      configFile := Some(WRITTEN);
      return true;
    }

    method LaunchService(steps: nat, saved: Saved) returns (completed: bool)
      modifies this`serviceActive, this`unitListed, this`exported, this`stateFile
      ensures (Snapshot(), completed) == Launch(old(Snapshot()), steps, saved)
    {
      if steps < 6 {
        return false;
      }
      serviceActive, unitListed := true, true;
      if steps < 7 {
        return false;
      }
      exported := true;
      if steps < 8 {
        return false;
      }
      completed := RewriteStateFile(steps, saved);
    }

    method RewriteStateFile(steps: nat, saved: Saved) returns (completed: bool)
      requires steps >= 8
      modifies this`stateFile
      ensures stateFile == Some(Recorded(steps, saved)) && completed == (steps >= ALL_STEPS)
    {
      var text := StateText(None, None);
      stateFile := Some(text);
      if steps < 9 {
        return false;
      }
      text := text.(packageInstalledBefore := Some(saved.packageInstalledBefore));
      stateFile := Some(text);
      if steps < ALL_STEPS {
        return false;
      }
      stateFile := Some(text.(serviceWasActive := Some(saved.serviceWasActive)));
      return true;
    }

    method RunRollback(r: Rollback) returns (completed: bool)
      modifies this
      ensures (Snapshot(), completed) == RollBack(old(Snapshot()), r)
    {
      var wasActive := stateFile.Some? && Read(stateFile.value).serviceWasActive;
      if r.steps < 1 || (configFile.Some? && !configFile.value.expectedModuloCr) {
        return false;
      }
      configFile := None;
      if r.steps < 2 || r.clientsActive {
        return false;
      }
      var unexported := RemoveExport(r.steps);
      if !unexported || r.steps < 5 {
        return false;
      }
      if !wasActive {
        serviceActive := false;
      }
      if r.steps < ALL_ROLLBACK_STEPS {
        return false;
      }
      stateFile := None;
      return true;
    }

    method RemoveExport(steps: nat) returns (unexported: bool)
      modifies this`exportFile, this`exported
      ensures (Snapshot(), unexported) == Unexport(old(Snapshot()), steps)
    {
      if steps < 3 {
        return false;
      }
      if exportFile.Some? {
        if !exportFile.value.hasExactLine {
          return false;
        }
        exportFile := None;
        if steps < 4 {
          return false;
        }
        exported := false;
      }
      return steps >= 4;
    }
  }

  // ----- Sequences of setups -----

  function SetupAll(h: Host, attempts: seq<Attempt>): Host
    decreases |attempts|
  {
    if attempts == [] then h else SetupAll(Setup(h, attempts[0]).0, attempts[1..])
  }

  /** Some attempt has the property in the state in which it is made. */
  predicate SomeAttempt(p: (Host, Attempt) -> bool, h: Host, attempts: seq<Attempt>)
    decreases |attempts|
  {
    attempts != [] && (p(h, attempts[0]) || SomeAttempt(p, Setup(h, attempts[0]).0, attempts[1..]))
  }

  lemma {:induction false} Append(p: (Host, Attempt) -> bool, h: Host, a: seq<Attempt>, b: seq<Attempt>)
    ensures SetupAll(h, a + b) == SetupAll(SetupAll(h, a), b)
    ensures SomeAttempt(p, h, a + b) <==> SomeAttempt(p, h, a) || SomeAttempt(p, SetupAll(h, a), b)
    decreases |a|
  {
    if a == [] {
      assert a + b == b;
    } else {
      assert (a + b)[1..] == a[1..] + b;
      Append(p, Setup(h, a[0]).0, a[1..], b);
    }
  }

  predicate Completes(h: Host, a: Attempt) {
    Setup(h, a).1
  }

  predicate Fails(h: Host, a: Attempt) {
    !Setup(h, a).1
  }

  predicate StartsService(h: Host, a: Attempt) {
    a.steps >= 6 && !PackageBlocked(h, a) && Acceptable(h.exportFile) && Acceptable(h.configFile)
  }

  /** Stopped after truncating the state file and before its last line. */
  predicate CutsRecord(h: Host, a: Attempt) {
    StartsService(h, a) && 8 <= a.steps < ALL_STEPS
  }

  /** Stopped between creating a managed file and writing it. */
  predicate CutsFile(h: Host, a: Attempt) {
    && !PackageBlocked(h, a)
    && (|| (a.steps == 2 && h.exportFile.None?)
        || (a.steps == 4 && Acceptable(h.exportFile) && h.configFile.None?))
  }

  /** Nothing of Phase 2; only a listed unit can be active. */
  predicate Clean(h: Host) {
    h.exportFile == h.configFile == None && h.stateFile == None && !h.exported && (h.serviceActive ==> h.unitListed)
  }

  predicate OwnFiles(h: Host) {
    (h.exportFile.Some? ==> h.exportFile.value == WRITTEN) && (h.configFile.Some? ==> h.configFile.value == WRITTEN) &&
    (h.serviceActive ==> h.unitListed)
  }

  lemma FilesWritten(h: Host, steps: nat)
    requires OwnFiles(h)
    ensures var (h', written) := WriteFiles(h, steps);
            && h' == h.(exportFile := h'.exportFile, configFile := h'.configFile)
            && (h.exportFile.Some? ==> h'.exportFile == h.exportFile)
            && (h.configFile.Some? ==> h'.configFile == h.configFile)
            && (written <==> steps >= 5)
            && (written ==> h'.exportFile == h'.configFile == Some(WRITTEN))
            && (if (steps == 2 && h.exportFile.None?) || (steps == 4 && h.configFile.None?)
                then h'.exportFile == Some(EMPTY) || h'.configFile == Some(EMPTY)
                else OwnFiles(h'))
  {
    var (ex, exDone) := Put(h.exportFile, steps >= 2, steps >= 3);
    if steps >= 3 {
      assert exDone && ex == Some(WRITTEN);
    } else {
      assert !exDone;
    }
  }

  /** What one setup does to a host whose managed files, if any, are its own. */
  lemma OneSetup(h: Host, a: Attempt)
    requires OwnFiles(h)
    ensures var (h', completed) := Setup(h, a);
            && (CutsFile(h, a) ==> h'.exportFile == Some(EMPTY) || h'.configFile == Some(EMPTY))
            && (!CutsFile(h, a) ==> OwnFiles(h'))
            && (StartsService(h, a) ==> h'.exportFile == h'.configFile == Some(WRITTEN))
            && (h.exportFile.Some? ==> h'.exportFile == h.exportFile)
            && (h.configFile.Some? ==> h'.configFile == h.configFile)
            && (completed <==> StartsService(h, a) && a.steps >= ALL_STEPS)
            && (h'.serviceActive <==> h.serviceActive || StartsService(h, a))
            && (h'.exported <==> h.exported || (StartsService(h, a) && a.steps >= 7))
            && h'.stateFile == (if StartsService(h, a) && a.steps >= 8 then Some(Recorded(a.steps, Observed(h, a)))
                                else h.stateFile)
            && (h.packageInstalled || (completed && !Observed(h, a).packageInstalledBefore) ==> h'.packageInstalled)
  {
    if a.steps >= 1 && !PackageBlocked(h, a) {
      var h1 := if NeedsPackage(h, a) then h.(packageInstalled := true, unitListed := true) else h;
      FilesWritten(h1, a.steps);
    }
  }

  predicate HasEmptyFile(h: Host) {
    h.exportFile == Some(EMPTY) || h.configFile == Some(EMPTY)
  }

  lemma {:induction false} EmptyFileStays(h: Host, attempts: seq<Attempt>)
    requires HasEmptyFile(h)
    ensures HasEmptyFile(SetupAll(h, attempts))
    decreases |attempts|
  {
    if attempts != [] {
      EmptyFileStays(Setup(h, attempts[0]).0, attempts[1..]);
    }
  }

  lemma {:induction false} FilesAfterSetups(h: Host, attempts: seq<Attempt>)
    requires OwnFiles(h)
    ensures var h' := SetupAll(h, attempts);
            if SomeAttempt(CutsFile, h, attempts) then HasEmptyFile(h') else OwnFiles(h')
    decreases |attempts|
  {
    if attempts != [] {
      var h1 := Setup(h, attempts[0]).0;
      OneSetup(h, attempts[0]);
      if CutsFile(h, attempts[0]) {
        EmptyFileStays(h1, attempts[1..]);
      } else {
        FilesAfterSetups(h1, attempts[1..]);
      }
    }
  }

  /** A setup stopped between creating a managed file and writing it is the only way setups get
      stuck: after it no further setup and no rollback completes; without it an undisturbed
      rollback does. */
  lemma CutFileBlocksBothScripts(h: Host, attempts: seq<Attempt>, a: Attempt, r: Rollback)
    requires OwnFiles(h)
    ensures var h' := SetupAll(h, attempts);
            && (SomeAttempt(CutsFile, h, attempts) ==> !Setup(h', a).1 && !RollBack(h', r).1)
            && (!SomeAttempt(CutsFile, h, attempts) ==> RollBack(h', UNDISTURBED).1)
  {
    FilesAfterSetups(h, attempts);
  }

  /** The first record is never changed by a later setup, wherever it stops, unless it is stopped
      inside the rewriting of the state file: from then on the service counts as not active before,
      whatever the record said. */
  lemma {:induction false} RecordIsKept(h: Host, attempts: seq<Attempt>)
    requires OwnFiles(h) && h.exportFile.Some? && h.configFile.Some? && h.stateFile.Some?
    ensures var h' := SetupAll(h, attempts);
            && h'.stateFile.Some?
            && (!SomeAttempt(CutsRecord, h, attempts) ==> Read(h'.stateFile.value) == Read(h.stateFile.value))
            && (SomeAttempt(CutsRecord, h, attempts) ==> !Read(h'.stateFile.value).serviceWasActive)
            && OwnFiles(h') && h'.exportFile == h.exportFile && h'.configFile == h.configFile
            && (h.serviceActive ==> h'.serviceActive)
            && (h.exported ==> h'.exported)
            && (h.packageInstalled ==> h'.packageInstalled)
    decreases |attempts|
  {
    if attempts != [] {
      var h1 := Setup(h, attempts[0]).0;
      OneSetup(h, attempts[0]);
      RecordIsKept(h1, attempts[1..]);
      if CutsRecord(h, attempts[0]) {
        InactiveStays(h1, attempts[1..]);
      }
    }
  }

  lemma {:induction false} InactiveStays(h: Host, attempts: seq<Attempt>)
    requires h.stateFile.Some? && !Read(h.stateFile.value).serviceWasActive
    ensures var h' := SetupAll(h, attempts); h'.stateFile.Some? && !Read(h'.stateFile.value).serviceWasActive
    decreases |attempts|
  {
    if attempts != [] {
      InactiveStays(Setup(h, attempts[0]).0, attempts[1..]);
    }
  }

  /** Setups that do not complete leave a record exactly if one was stopped inside the state file,
      and that record says inactive. */
  lemma {:induction false} BeforeTheRecord(h: Host, early: seq<Attempt>)
    requires OwnFiles(h) && !SomeAttempt(Completes, h, early) && !SomeAttempt(CutsFile, h, early)
    requires h.stateFile.Some? ==> !Read(h.stateFile.value).serviceWasActive
    ensures var h' := SetupAll(h, early);
            && OwnFiles(h')
            && (h'.stateFile.Some? <==> h.stateFile.Some? || SomeAttempt(CutsRecord, h, early))
            && (h'.stateFile.Some? ==> !Read(h'.stateFile.value).serviceWasActive)
            && (h'.serviceActive <==> h.serviceActive || SomeAttempt(StartsService, h, early))
    decreases |early|
  {
    if early != [] {
      OneSetup(h, early[0]);
      BeforeTheRecord(Setup(h, early[0]).0, early[1..]);
    }
  }

  /** From a host without anything of Phase 2, any setups of which the first to complete is first,
      then a completed rollback: nothing of Phase 2 is left but the package, and the service is as
      it was exactly if, when it was active, no setup was stopped inside the state file, and, when
      it was not, one was, or no setup that failed before the first completed one had started it. */
  lemma RollbackRestores(h: Host, early: seq<Attempt>, first: Attempt, late: seq<Attempt>)
    requires Clean(h) && !SomeAttempt(Completes, h, early) && first.serviceOverride.None?
    requires Setup(SetupAll(h, early), first).1
    ensures var all := early + [first] + late;
            var (h', completed) := RollBack(SetupAll(h, all), UNDISTURBED);
            && completed && Clean(h')
            && (h'.serviceActive == h.serviceActive <==>
                if h.serviceActive then !SomeAttempt(CutsRecord, h, all)
                else SomeAttempt(CutsRecord, h, all) || !SomeAttempt(StartsService, h, early))
            && (first.packageOverride.None? && !SomeAttempt(CutsRecord, h, early) ==> h'.packageInstalled)
  {
    FilesAfterSetups(h, early);
    BeforeTheRecord(h, early);
    var h1 := SetupAll(h, early);
    var h2 := Setup(h1, first).0;
    OneSetup(h1, first);
    assert early + [first] + late == early + ([first] + late);
    Append(CutsRecord, h, early, [first] + late);
    assert ([first] + late)[1..] == late;
    RecordIsKept(h2, late);
  }

  /** The package gets installed only by a setup that needs it, may install it and has seen that
      installing it touches nothing else; a needed package without both stops the script at once. */
  lemma InstallsOnlyCleanly(h: Host, a: Attempt)
    ensures var h' := Setup(h, a).0;
            var missing := !h.packageInstalled && !Observed(h, a).packageInstalledBefore;
            && (h'.packageInstalled <==> h.packageInstalled || (a.steps >= 1 && missing && a.installPackage && a.dryRunClean))
            && (h'.packageInstalled && !h.packageInstalled ==> h'.unitListed)
            && (missing && !(a.installPackage && a.dryRunClean) ==> Setup(h, a) == (h, false))
  {
  }

  /** On a host without package or record, and without overrides, no sequence of setups gets anything
      done before one may install the package and can do so cleanly. */
  lemma {:induction false} NothingWithoutThePackage(h: Host, attempts: seq<Attempt>)
    requires !h.packageInstalled && h.stateFile.None?
    requires forall k :: 0 <= k < |attempts| ==>
               attempts[k].packageOverride.None? && !(attempts[k].installPackage && attempts[k].dryRunClean)
    ensures SetupAll(h, attempts) == h && !SomeAttempt(Completes, h, attempts)
    decreases |attempts|
  {
    if attempts != [] {
      InstallsOnlyCleanly(h, attempts[0]);
      NothingWithoutThePackage(h, attempts[1..]);
    }
  }

  /** An override decides what is recorded, and with it what the rollback does to the service. */
  lemma OverrideDecides(h: Host, a: Attempt, b: bool)
    requires Clean(h) && Setup(h, a).1 && a.serviceOverride == Some(b)
    ensures var h' := Setup(h, a).0;
            && h'.stateFile.Some? && Read(h'.stateFile.value).serviceWasActive == b
            && Read(h'.stateFile.value).packageInstalledBefore ==
               (if a.packageOverride.Some? then a.packageOverride.value else h.packageInstalled)
            && RollBack(h', UNDISTURBED).1 && RollBack(h', UNDISTURBED).0.serviceActive == b
  {
    OneSetup(h, a);
    CompleteRollback(Setup(h, a).0);
  }

  /** In particular, any number of completed setups and one completed rollback restore the host. */
  lemma CompletedSetupsAreUndone(h: Host, attempts: seq<Attempt>)
    requires Clean(h) && attempts != [] && !SomeAttempt(Fails, h, attempts) && attempts[0].serviceOverride.None?
    ensures var (h', completed) := RollBack(SetupAll(h, attempts), UNDISTURBED);
            completed && Clean(h') && h'.serviceActive == h.serviceActive
  {
    assert [] + [attempts[0]] + attempts[1..] == attempts;
    RollbackRestores(h, [], attempts[0], attempts[1..]);
    NoCutWhenAllComplete(h, attempts);
  }

  lemma {:induction false} NoCutWhenAllComplete(h: Host, attempts: seq<Attempt>)
    requires !SomeAttempt(Fails, h, attempts)
    ensures !SomeAttempt(CutsRecord, h, attempts)
    decreases |attempts|
  {
    if attempts != [] {
      NoCutWhenAllComplete(Setup(h, attempts[0]).0, attempts[1..]);
    }
  }

  /** A service that was active before, one completed setup, a second one stopped right after it
      truncated the state file: the rollback reports success and stops the service. */
  lemma CutRecordStopsActiveService()
    ensures var h := Host(true, true, true, false, None, None, None);
            var complete := Attempt(None, None, false, true, ALL_STEPS);
            var (h', completed) := RollBack(SetupAll(h, [complete, complete.(steps := 8)]), UNDISTURBED);
            Clean(h) && completed && !h'.serviceActive
  {
    var h := Host(true, true, true, false, None, None, None);
    var complete := Attempt(None, None, false, true, ALL_STEPS);
    var h1 := Setup(h, complete).0;
    assert SetupAll(h1, [complete.(steps := 8)]) == Setup(h1, complete.(steps := 8)).0;
    assert [complete, complete.(steps := 8)][1..] == [complete.(steps := 8)];
  }

  // ----- Interrupted and repeated rollbacks -----

  function RollBackAll(h: Host, rs: seq<Rollback>): Host
    decreases |rs|
  {
    if rs == [] then h else RollBackAll(RollBack(h, rs[0]).0, rs[1..])
  }

  /** A rollback that nothing interrupts. */
  const UNDISTURBED: Rollback := Rollback(false, ALL_ROLLBACK_STEPS)

  predicate RollbackAccepts(h: Host) {
    Acceptable(h.configFile) && (h.exportFile.Some? ==> h.exportFile.value.hasExactLine)
  }

  /** Some rollback stopped, or failed, between removing the export file and updating the table. */
  predicate SomeCutsExport(h: Host, rs: seq<Rollback>)
    decreases |rs|
  {
    rs != [] &&
    (|| (rs[0].steps == 3 && !rs[0].clientsActive && h.exportFile.Some?)
     || SomeCutsExport(RollBack(h, rs[0]).0, rs[1..]))
  }

  lemma {:induction false} NoFileNoCut(h: Host, rs: seq<Rollback>)
    requires h.exportFile.None?
    ensures !SomeCutsExport(h, rs)
    decreases |rs|
  {
    if rs != [] {
      NoFileNoCut(RollBack(h, rs[0]).0, rs[1..]);
    }
  }

  predicate KeepsService(h: Host) {
    h.stateFile.Some? && Read(h.stateFile.value).serviceWasActive
  }

  lemma CompleteRollback(h: Host)
    requires RollbackAccepts(h)
    ensures RollBack(h, UNDISTURBED) ==
            (h.(configFile := None, exportFile := None, exported := h.exported && h.exportFile.None?,
                serviceActive := h.serviceActive && KeepsService(h), stateFile := None), true)
  {
  }

  lemma CutRollback(h: Host, r: Rollback)
    requires RollbackAccepts(h) && (r.steps < ALL_ROLLBACK_STEPS || r.clientsActive)
    ensures var h' := RollBack(h, r).0;
            && h' == h.(configFile := h'.configFile, exportFile := h'.exportFile, exported := h'.exported,
                        serviceActive := h'.serviceActive)
            && RollbackAccepts(h')
            && (h'.serviceActive ==> h.serviceActive)
            && (h.serviceActive && KeepsService(h) ==> h'.serviceActive)
            && (h'.exportFile == h.exportFile || h'.exportFile.None?)
            && (h'.exported <==> h.exported && (h.exportFile == h'.exportFile || (r.steps == 3 && !r.clientsActive)))
            && (r.steps == 3 && !r.clientsActive ==> h'.exportFile.None?)
  {
  }

  /** Rollbacks cut short anywhere, any number of times, do not change the files and the service
      the next complete one leaves, as the record is removed last.  But it updates the export table
      only if the export file is still there, so the path stays in the table exactly if it was
      there and an earlier run stopped between the two (or the file was missing all along), and
      stays served exactly if in addition the service is not stopped. */
  lemma {:induction false} AfterInterruptedRollbacks(h: Host, rs: seq<Rollback>)
    requires RollbackAccepts(h)
    requires forall k :: 0 <= k < |rs| ==> rs[k].steps < ALL_ROLLBACK_STEPS || rs[k].clientsActive
    ensures var (h', completed) := RollBack(RollBackAll(h, rs), UNDISTURBED);
            var direct := RollBack(h, UNDISTURBED).0;
            var left := h.exported && (h.exportFile.None? || SomeCutsExport(h, rs));
            && completed
            && h' == direct.(exported := left)
            && (Served(h') <==> left && h.serviceActive && KeepsService(h))
    decreases |rs|
  {
    CompleteRollback(h);
    if rs != [] {
      var h1 := RollBack(h, rs[0]).0;
      CutRollback(h, rs[0]);
      CompleteRollback(h1);
      AfterInterruptedRollbacks(h1, rs[1..]);
      if h1.exportFile.None? {
        NoFileNoCut(h1, rs[1..]);
      }
    }
  }

  /** A host whose service was active: a completed setup, a rollback that removes the export file
      and fails to update the table, and a second rollback, which reports success, leaves no
      record and serves the path. */
  lemma RolledBackPathIsStillServed()
    ensures var h := Host(true, true, true, false, None, None, None);
            var h1 := Setup(h, Attempt(None, None, false, true, ALL_STEPS)).0;
            var (h', completed) := RollBack(RollBack(h1, Rollback(false, 3)).0, UNDISTURBED);
            && Clean(h) && !Served(h)
            && completed && h'.exportFile == h'.configFile == None && h'.stateFile == None && Served(h')
  {
  }

  /** A second complete rollback has no record left and stops the service, so the host survives it
      unchanged exactly if the service was not running. */
  lemma SecondRollbackStopsService(h: Host)
    requires RollbackAccepts(h)
    ensures var h1 := RollBack(h, UNDISTURBED).0;
            var h2 := RollBack(h1, UNDISTURBED).0;
            && !h2.serviceActive
            && (h2 == h1 <==> !h1.serviceActive)
            && (h1.serviceActive <==> h.serviceActive && KeepsService(h))
  {
  }

  /** The two scripts do not agree on the export file: on a host with an acceptable configuration
      file a complete setup can be rolled back exactly if the export file has the exact line, which
      setup, deleting carriage returns first, does not ask for. */
  lemma AcceptedExportMayResistRollback(h: Host, a: Attempt)
    requires Setup(h, a).1
    ensures RollBack(Setup(h, a).0, UNDISTURBED).1 <==> h.exportFile.None? || h.exportFile.value.hasExactLine
    ensures h.exportFile.Some? ==> h.exportFile.value.expectedModuloCr && Setup(h, a).0.exportFile == h.exportFile
  {
  }
}
