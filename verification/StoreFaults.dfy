/** What the program store does when nothing fails, and that every answer "failed" and every
    power loss has a storage operation behind it that did not work. */
module StoreFaults {
  import opened Wrappers
  import opened StorageSpec
  import opened StoreLifecycle

  // ----- failures have a cause -----

  /** Every storage operation from one time to another works. */
  ghost predicate WorksBetween(fates: Fates, from: nat, until: nat) {
    forall t: nat | from <= t < until :: fates(t).Works?
  }

  lemma PromoteWorks(d: Disk, name: string, hadPrevious: bool, fates: Fates)
    requires Path(name, Temporary) in d.files && Path(name, Installed) !in d.files
    ensures var r := Promote(d, name, hadPrevious, fates);
            d.time < r.disk.time && (WorksBetween(fates, d.time, r.disk.time) ==> r.Done? && r.value)
  {
  }

  lemma InstallWorks(d: Disk, name: string, fates: Fates)
    requires Path(name, Temporary) in d.files && Path(name, Backup) !in d.files
    ensures var r := Install(d, name, fates);
            d.time < r.disk.time && (WorksBetween(fates, d.time, r.disk.time) ==> r.Done? && r.value)
  {
    if Path(name, Installed) in d.files {
      var kept := Rename(d, Path(name, Installed), Path(name, Backup), fates);
      if kept.Done? && kept.value {
        PromoteWorks(kept.disk, name, true, fates);
      }
    } else {
      PromoteWorks(d, name, false, fates);
    }
  }

  /** A replacement whose operations all work succeeds. */
  lemma AtomicWriteWorks(d: Disk, name: string, data: Bytes, fates: Fates)
    ensures var r := AtomicWrite(d, name, data, fates);
            d.time < r.disk.time && (WorksBetween(fates, d.time, r.disk.time) ==> r.Done? && r.value)
  {
    var r1 := Remove(d, Path(name, Temporary), fates);
    if r1.Done? {
      var r2 := OpenForWrite(r1.disk, Path(name, Temporary), fates);
      if r2.Done? && r2.value {
        var r3 := Write(r2.disk, Path(name, Temporary), data, fates);
        if r3.Done? && r3.value == |data| {
          var r4 := Remove(r3.disk, Path(name, Backup), fates);
          if r4.Done? {
            InstallWorks(r4.disk, name, fates);
          }
        }
      }
    }
  }

  /** Some operation of the call did not work. */
  ghost predicate Faulty(fates: Fates, from: nat, until: nat) {
    exists t: nat :: from <= t < until && !fates(t).Works?
  }

  /** A stop answers "stored" unless one of its operations does not work. */
  lemma StopFailureHasCause(d: Disk, fates: Fates)
    ensures var r := OnStopped(d, fates);
            (r.Done? && r.value == Stored) || Faulty(fates, d.time, r.disk.time)
  {
    AtomicWriteWorks(d, RUN_FLAG, [FLAG_OFF], fates);
  }

  lemma AbandonTakesTime(d: Disk, fates: Fates)
    ensures d.time < Abandon(d, fates).disk.time
  {
    AtomicWriteWorks(d, RUN_FLAG, [FLAG_OFF], fates);
  }

  lemma ArmingFailureHasCause(d: Disk, fates: Fates)
    ensures var on := WriteRunFlag(d, true, fates);
            var r: Run<Answer> := if on.Crash? then Crash(on.disk) else if !on.value then Abandon(on.disk, fates) else Done(on.disk, Stored);
            d.time < r.disk.time && ((r.Done? && r.value == Stored) || Faulty(fates, d.time, r.disk.time))
  {
    AtomicWriteWorks(d, RUN_FLAG, [FLAG_ON], fates);
    var on := WriteRunFlag(d, true, fates);
    if on.Done? && !on.value {
      AbandonTakesTime(on.disk, fates);
    }
  }

  /** So does a start of a program that is not empty. */
  lemma StartFailureHasCause(d: Disk, program: Bytes, fates: Fates)
    requires program != []
    ensures var r := OnStarted(d, program, fates);
            (r.Done? && r.value == Stored) || Faulty(fates, d.time, r.disk.time)
  {
    AtomicWriteWorks(d, RUN_FLAG, [FLAG_OFF], fates);
    var off := WriteRunFlag(d, false, fates);
    if off.Done? && !off.value {
      AbandonTakesTime(off.disk, fates);
    } else if off.Done? {
      AtomicWriteWorks(off.disk, PROGRAM, program, fates);
      var replaced := WriteCurrentProgram(off.disk, program, fates);
      if replaced.Done? && !replaced.value {
        AbandonTakesTime(replaced.disk, fates);
      } else if replaced.Done? {
        ArmingFailureHasCause(replaced.disk, fates);
      }
    }
  }

  // ----- stop -----

  lemma StopStores(d: Disk, fates: Fates)
    requires FaultFree(fates, d.time)
    ensures var r := OnStopped(d, fates);
            && r.Done? && r.value == Stored && d.time < r.disk.time
            && Recovered(r.disk.files, RUN_FLAG) == Some([FLAG_OFF])
            && Recovered(r.disk.files, PROGRAM) == Recovered(d.files, PROGRAM)
  {
    AtomicWriteOutcome(d, RUN_FLAG, [FLAG_OFF], fates);
    OtherFileKept(d.files, OnStopped(d, fates).disk.files, RUN_FLAG, PROGRAM);
  }

  /** With no fault, a stop is stored, and the next boot restores the program without running it. */
  lemma StopThenBootRestores(d: Disk, program: Bytes, fates: Fates)
    requires FaultFree(fates, d.time)
    requires 1 <= |program| <= PROGRAM_BYTES && Recovered(d.files, PROGRAM) == Some(program)
    ensures var r := OnStopped(d, fates);
            var b := Boot(r.disk, fates);
            r.Done? && r.value == Stored && b.Done? && b.value == Restored(program, false)
  {
    StopStores(d, fates);
    BootRestores(OnStopped(d, fates).disk, program, [FLAG_OFF], fates);
  }

  /** The whole story with no fault: started, then stopped, then booted. */
  lemma StartStopBoot(d: Disk, program: Bytes, fates: Fates)
    requires FaultFree(fates, d.time) && 1 <= |program| <= PROGRAM_BYTES
    ensures var started := OnStarted(d, program, fates);
            var stopped := OnStopped(started.disk, fates);
            var b := Boot(stopped.disk, fates);
            && started.Done? && started.value == Stored && stopped.Done? && stopped.value == Stored
            && b.Done? && b.value == Restored(program, false)
  {
    StartStores(d, program, fates);
    StopThenBootRestores(OnStarted(d, program, fates).disk, program, fates);
  }

  /** An empty program is never stored: the start disarms and answers "failed". */
  lemma EmptyStartFails(d: Disk, fates: Fates)
    requires FaultFree(fates, d.time)
    ensures var r := OnStarted(d, [], fates);
            && r.Done? && r.value == Failed
            && Recovered(r.disk.files, RUN_FLAG) == Some([FLAG_OFF])
            && Recovered(r.disk.files, PROGRAM) == Recovered(d.files, PROGRAM)
  {
    AtomicWriteOutcome(d, RUN_FLAG, [FLAG_OFF], fates);
    var off := WriteRunFlag(d, false, fates).disk;
    OtherFileKept(d.files, off.files, RUN_FLAG, PROGRAM);
    AtomicWriteOutcome(off, RUN_FLAG, [FLAG_OFF], fates);
    OtherFileKept(off.files, WriteRunFlag(off, false, fates).disk.files, RUN_FLAG, PROGRAM);
  }

  // ----- reset and boot -----

  lemma {:induction false} RemovalWorks(d: Disk, paths: seq<Path>, fates: Fates)
    requires FaultFree(fates, d.time)
    ensures RemoveAll(d, paths, fates).Done? && RemoveAll(d, paths, fates).disk.time == d.time + |paths|
    decreases |paths|
  {
    if paths != [] {
      RemovalWorks(Remove(d, paths[0], fates).disk, paths[1..], fates);
    }
  }

  /** What a fault-free recovery leaves of both files. */
  lemma BeginInstalls(d: Disk, fates: Fates)
    requires FaultFree(fates, d.time)
    ensures var b := Begin(d, fates);
            && b.Done? && d.time < b.disk.time
            && InstalledOf(b.disk.files, PROGRAM) == Recovered(d.files, PROGRAM)
            && InstalledOf(b.disk.files, RUN_FLAG) == Recovered(d.files, RUN_FLAG)
  {
    RecoverFileOutcome(d, PROGRAM, fates);
    var d1 := RecoverFile(d, PROGRAM, fates).disk;
    OtherFileKept(d.files, d1.files, PROGRAM, RUN_FLAG);
    RecoverFileOutcome(d1, RUN_FLAG, fates);
    var d2 := RecoverFile(d1, RUN_FLAG, fates).disk;
    assert Path(PROGRAM, Installed) in d1.files <==> Path(PROGRAM, Installed) in d2.files;
  }

  function InstalledOf(files: Files, name: string): Option<Bytes> {
    if Path(name, Installed) in files then Some(files[Path(name, Installed)]) else None
  }

  /** After a fault-free reset a boot finds nothing stored. */
  lemma ResetThenBootFindsNothing(d: Disk, fates: Fates)
    requires FaultFree(fates, d.time) && Single(d.files, PROGRAM) && Single(d.files, RUN_FLAG)
    ensures var r := OnReset(d, fates);
            r.Done? && Boot(r.disk, fates).Done? && Boot(r.disk, fates).value == NothingStored
  {
    RemovalWorks(d, RuntimePaths(), fates);
    ResetOutcome(d, fates);
    BeginInstalls(OnReset(d, fates).disk, fates);
  }

  /** A stored program of an impossible length is not restored, and its flag is turned off. */
  lemma BadLengthIsGivenUp(d: Disk, program: Bytes, fates: Fates)
    requires FaultFree(fates, d.time) && Recovered(d.files, PROGRAM) == Some(program)
    requires |program| == 0 || |program| > PROGRAM_BYTES
    ensures var b := Boot(d, fates);
            b.Done? && b.value == Unusable && Recovered(b.disk.files, RUN_FLAG) == Some([FLAG_OFF])
  {
    BeginInstalls(d, fates);
    var d2 := Begin(d, fates).disk;
    var d3 := OpenForRead(d2, Path(PROGRAM, Installed), fates).disk;
    AtomicWriteOutcome(d3, RUN_FLAG, [FLAG_OFF], fates);
  }

  /** A program without a flag file is restored and not run. */
  lemma NoFlagDoesNotRun(d: Disk, program: Bytes, fates: Fates)
    requires FaultFree(fates, d.time) && 1 <= |program| <= PROGRAM_BYTES
    requires Recovered(d.files, PROGRAM) == Some(program) && Recovered(d.files, RUN_FLAG) == None
    ensures Boot(d, fates).Done? && Boot(d, fates).value == Restored(program, false)
  {
    BeginInstalls(d, fates);
  }
}
