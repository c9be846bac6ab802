/** Runs of the VM program store: start, stop, reset and reboot, with a failure or
    a power loss at any storage operation, and what a reboot may autorun. */
module StoreLifecycle {
  import opened Wrappers
  import opened StorageSpec

  const PROGRAM := "runtime_last.nvm"
  const RUN_FLAG := "runtime_last.run"
  const PROGRAM_BYTES: nat := 1024

  const FLAG_ON: nat := 49   // '1'
  const FLAG_OFF: nat := 48  // '0'

  datatype Answer = Stored | Failed

  // ----- the lifecycle callbacks -----

  function WriteRunFlag(d: Disk, enabled: bool, fates: Fates): Run<bool> {
    AtomicWrite(d, RUN_FLAG, [if enabled then FLAG_ON else FLAG_OFF], fates)
  }

  function WriteCurrentProgram(d: Disk, program: Bytes, fates: Fates): Run<bool> {
    if program == [] then Done(d, false) else AtomicWrite(d, PROGRAM, program, fates)
  }

  /** `onStarted`: disarm, replace the program, arm; on a failure, disarm once more. */
  function OnStarted(d: Disk, program: Bytes, fates: Fates): Run<Answer> {
    var (d, off) :- WriteRunFlag(d, false, fates);
    if !off then Abandon(d, fates) else
    var (d, replaced) :- WriteCurrentProgram(d, program, fates);
    if !replaced then Abandon(d, fates) else
    var (d, on) :- WriteRunFlag(d, true, fates);
    if !on then Abandon(d, fates) else Done(d, Stored)
  }

  function Abandon(d: Disk, fates: Fates): Run<Answer> {
    var (d, _) :- WriteRunFlag(d, false, fates);
    Done(d, Failed)
  }

  function OnStopped(d: Disk, fates: Fates): Run<Answer> {
    var (d, off) :- WriteRunFlag(d, false, fates);
    Done(d, if off then Stored else Failed)
  }

  /** `removeRuntimeFiles`, in its order. */
  function OnReset(d: Disk, fates: Fates): Run<()> {
    RemoveAll(d, RuntimePaths(), fates)
  }

  function RuntimePaths(): seq<Path> {
    [Path(PROGRAM, Installed), Path(PROGRAM, Temporary), Path(PROGRAM, Backup),
     Path(RUN_FLAG, Installed), Path(RUN_FLAG, Temporary), Path(RUN_FLAG, Backup)]
  }

  function RemoveAll(d: Disk, paths: seq<Path>, fates: Fates): Run<()>
    decreases |paths|
  {
    if paths == [] then Done(d, ()) else
    var (d, _) :- Remove(d, paths[0], fates);
    RemoveAll(d, paths[1..], fates)
  }

  // ----- boot: begin, then restoreLast -----

  datatype Restore = NothingStored | Unusable | Restored(program: Bytes, autorun: bool)

  function Begin(d: Disk, fates: Fates): Run<()> {
    var (d, _) :- RecoverFile(d, PROGRAM, fates);
    RecoverFile(d, RUN_FLAG, fates)
  }

  function ReadRunFlag(d: Disk, fates: Fates): Run<bool> {
    var (d, isOpen) :- OpenForRead(d, Path(RUN_FLAG, Installed), fates);
    if !isOpen then Done(d, false) else
    var (d, contents) :- Read(d, Path(RUN_FLAG, Installed), fates);
    Done(d, contents.Some? && contents.value != [] && contents.value[0] == FLAG_ON)
  }

  function RestoreLast(d: Disk, fates: Fates): Run<Restore> {
    var (d, isOpen) :- OpenForRead(d, Path(PROGRAM, Installed), fates);
    if !isOpen then Done(d, NothingStored) else
    var length := |d.files[Path(PROGRAM, Installed)]|;
    if length == 0 || length > PROGRAM_BYTES then GiveUp(d, fates) else
    var (d, contents) :- Read(d, Path(PROGRAM, Installed), fates);
    if contents.None? then GiveUp(d, fates) else
    var (d, autorun) :- ReadRunFlag(d, fates);
    Done(d, Restored(contents.value, autorun))
  }

  function GiveUp(d: Disk, fates: Fates): Run<Restore> {
    var (d, _) :- WriteRunFlag(d, false, fates);
    Done(d, Unusable)
  }

  function Boot(d: Disk, fates: Fates): Run<Restore> {
    var (d, _) :- Begin(d, fates);
    RestoreLast(d, fates)
  }

  // ----- runs -----

  datatype Event = Start(program: Bytes) | Stop | Reset | Reboot

  datatype Outcome = Answered(answer: Answer) | PowerLost

  /** What an observer sees of each event. */
  datatype Entry =
    | Started(program: Bytes, outcome: Outcome)
    | Stopped(outcome: Outcome)
    | Cleared(finished: bool)
    | Booted(restore: Restore)
    | BootLost

  /** `up` is false from a power loss to the next completed boot. */
  datatype System = System(disk: Disk, up: bool, log: seq<Entry>)

  function Seen(r: Run<Answer>): Outcome {
    if r.Crash? then PowerLost else Answered(r.value)
  }

  function Step(s: System, event: Event, fates: Fates): System {
    match event
    case Reboot =>
      var r := Boot(s.disk, fates);
      System(r.disk, r.Done?, s.log + [if r.Done? then Booted(r.value) else BootLost])
    case Start(program) =>
      if !s.up then s else
      var r := OnStarted(s.disk, program, fates);
      System(r.disk, r.Done?, s.log + [Started(program, Seen(r))])
    case Stop =>
      if !s.up then s else
      var r := OnStopped(s.disk, fates);
      System(r.disk, r.Done?, s.log + [Stopped(Seen(r))])
    case Reset =>
      if !s.up then s else
      var r := OnReset(s.disk, fates);
      System(r.disk, r.Done?, s.log + [Cleared(r.Done?)])
  }

  function RunAll(s: System, events: seq<Event>, fates: Fates): System {
    if events == [] then s
    else Step(RunAll(s, events[..|events| - 1], fates), events[|events| - 1], fates)
  }

  /** A card on which the store has never written, before its first boot. */
  predicate Fresh(s: System) {
    !s.up && s.log == [] && forall p: Path | p in s.disk.files :: p.name != PROGRAM && p.name != RUN_FLAG
  }

  // ----- what may autorun -----

  /** Entries after which an earlier start no longer counts. */
  predicate Supersedes(e: Entry) {
    || (e.Started? && e.outcome == Answered(Stored))
    || (e.Stopped? && e.outcome == Answered(Stored))
    || (e.Cleared? && e.finished)
  }

  /** Entry `k` started `program` and stored it, or lost power before answering. */
  predicate MayHaveArmed(log: seq<Entry>, k: nat, program: Bytes) {
    && k < |log| && log[k].Started? && log[k].program == program
    && (log[k].outcome == Answered(Stored) || log[k].outcome == PowerLost)
  }

  /** A boot that found another program armed. */
  predicate Contradicts(e: Entry, program: Bytes) {
    e.Booted? && e.restore.Restored? && e.restore.autorun && e.restore.program != program
  }

  /** `program` is the program most recently stored with the run flag set: some start
      armed it, no stored start, stored stop or finished reset came after, and no boot
      has run another program since. */
  ghost predicate Armed(log: seq<Entry>, program: Bytes) {
    exists k: nat :: MayHaveArmed(log, k, program) &&
      forall j | k < j < |log| :: !Supersedes(log[j]) && !Contradicts(log[j], program)
  }

  /** Every autorun in the log runs exactly what was last armed. */
  ghost predicate AutorunsJustified(log: seq<Entry>) {
    forall i | 0 <= i < |log| :: log[i].Booted? && log[i].restore.Restored? && log[i].restore.autorun ==>
      Armed(log[..i], log[i].restore.program)
  }

  /** The flag that recovery will leave on the card. */
  predicate FlagOn(files: Files) {
    var flag := Recovered(files, RUN_FLAG);
    flag.Some? && flag.value != [] && flag.value[0] == FLAG_ON
  }

  /** The card agrees with the log: whenever the flag is on, the program that recovery
      will leave is the armed one. A reset that lost power may leave the flag without a program. */
  ghost predicate Agrees(files: Files, log: seq<Entry>) {
    FlagOn(files) && Recovered(files, PROGRAM).Some? ==> Armed(log, Recovered(files, PROGRAM).value)
  }

  ghost predicate Inv(s: System) {
    && Agrees(s.disk.files, s.log)
    && (s.up ==> Single(s.disk.files, PROGRAM) && Single(s.disk.files, RUN_FLAG))
    && AutorunsJustified(s.log)
  }

  lemma ArmedSurvives(log: seq<Entry>, e: Entry, program: Bytes)
    requires Armed(log, program) && !Supersedes(e) && !Contradicts(e, program)
    ensures Armed(log + [e], program)
  {
    var k: nat :| MayHaveArmed(log, k, program) &&
                  forall j | k < j < |log| :: !Supersedes(log[j]) && !Contradicts(log[j], program);
    assert MayHaveArmed(log + [e], k, program);
  }

  lemma ArmedNow(log: seq<Entry>, program: Bytes, outcome: Outcome)
    requires outcome == Answered(Stored) || outcome == PowerLost
    ensures Armed(log + [Started(program, outcome)], program)
  {
    assert MayHaveArmed(log + [Started(program, outcome)], |log|, program);
  }

  lemma JustifiedGrows(log: seq<Entry>, e: Entry)
    requires AutorunsJustified(log)
    requires e.Booted? && e.restore.Restored? && e.restore.autorun ==> Armed(log, e.restore.program)
    ensures AutorunsJustified(log + [e])
  {
    forall i | 0 <= i < |log + [e]|
      ensures (log + [e])[i].Booted? && (log + [e])[i].restore.Restored? && (log + [e])[i].restore.autorun ==>
                Armed((log + [e])[..i], (log + [e])[i].restore.program)
    {
      if i < |log| {
        assert (log + [e])[..i] == log[..i];
      } else {
        assert (log + [e])[..i] == log;
      }
    }
  }

  /** A flag write leaves the program alone, turns the flag off or leaves it, and turns it
      on only when asked to. */
  lemma FlagWriteOutcome(d: Disk, enabled: bool, fates: Fates)
    ensures var r := WriteRunFlag(d, enabled, fates);
            && Recovered(r.disk.files, PROGRAM) == Recovered(d.files, PROGRAM)
            && (Single(r.disk.files, PROGRAM) <==> Single(d.files, PROGRAM))
            && (FlagOn(r.disk.files) ==> FlagOn(d.files) || (enabled && (r.Crash? || r.value)))
            && (r.Done? && r.value ==> FlagOn(r.disk.files) == enabled && !Orphan(r.disk.files, RUN_FLAG))
            && (r.Done? && Single(d.files, RUN_FLAG) ==> Single(r.disk.files, RUN_FLAG))
  {
    AtomicWriteOutcome(d, RUN_FLAG, [if enabled then FLAG_ON else FLAG_OFF], fates);
    OtherFileKept(d.files, WriteRunFlag(d, enabled, fates).disk.files, RUN_FLAG, PROGRAM);
  }

  lemma ProgramWriteOutcome(d: Disk, program: Bytes, fates: Fates)
    ensures var r := WriteCurrentProgram(d, program, fates);
            && FlagOn(r.disk.files) == FlagOn(d.files)
            && (Single(r.disk.files, RUN_FLAG) <==> Single(d.files, RUN_FLAG))
            && (r.Done? && r.value ==> Recovered(r.disk.files, PROGRAM) == Some(program))
            && (r.Done? && Single(d.files, PROGRAM) ==> Single(r.disk.files, PROGRAM))
  {
    if program != [] {
      AtomicWriteOutcome(d, PROGRAM, program, fates);
      OtherFileKept(d.files, WriteCurrentProgram(d, program, fates).disk.files, PROGRAM, RUN_FLAG);
    }
  }

  lemma AbandonKeeps(d: Disk, fates: Fates)
    ensures var r := Abandon(d, fates);
            && Recovered(r.disk.files, PROGRAM) == Recovered(d.files, PROGRAM)
            && (FlagOn(r.disk.files) ==> FlagOn(d.files))
            && (r.Done? ==> r.value == Failed)
            && (r.Done? && Single(d.files, PROGRAM) ==> Single(r.disk.files, PROGRAM))
            && (r.Done? && Single(d.files, RUN_FLAG) ==> Single(r.disk.files, RUN_FLAG))
  {
    FlagWriteOutcome(d, false, fates);
  }

  /** A start that ends with the flag on either never disarmed the previous program, or
      armed its own. */
  lemma StartOutcome(d: Disk, program: Bytes, fates: Fates)
    ensures var r := OnStarted(d, program, fates);
            && (FlagOn(r.disk.files) ==>
                  || (FlagOn(d.files) && Recovered(r.disk.files, PROGRAM) == Recovered(d.files, PROGRAM) &&
                      (r.Crash? || r.value == Failed))
                  || (Recovered(r.disk.files, PROGRAM) == Some(program) && (r.Crash? || r.value == Stored)))
            && (r.Done? && Single(d.files, PROGRAM) ==> Single(r.disk.files, PROGRAM))
            && (r.Done? && Single(d.files, RUN_FLAG) ==> Single(r.disk.files, RUN_FLAG))
  {
    FlagWriteOutcome(d, false, fates);
    var off := WriteRunFlag(d, false, fates);
    if off.Done? && off.value {
      ProgramWriteOutcome(off.disk, program, fates);
      var replaced := WriteCurrentProgram(off.disk, program, fates);
      if replaced.Done? && replaced.value {
        FlagWriteOutcome(replaced.disk, true, fates);
        var on := WriteRunFlag(replaced.disk, true, fates);
        if on.Done? && !on.value {
          AbandonKeeps(on.disk, fates);
        }
      } else if replaced.Done? {
        AbandonKeeps(replaced.disk, fates);
      }
    } else if off.Done? {
      AbandonKeeps(off.disk, fates);
    }
  }

  lemma {:induction false} RemoveAllOutcome(d: Disk, paths: seq<Path>, fates: Fates)
    ensures var r := RemoveAll(d, paths, fates);
            && r.disk.files.Keys <= d.files.Keys
            && (forall p | p in r.disk.files :: r.disk.files[p] == d.files[p])
            && (r.Done? ==> forall p | p in paths :: p !in r.disk.files)
    decreases |paths|
  {
    if paths != [] {
      var first := Remove(d, paths[0], fates);
      if first.Done? {
        RemoveAllOutcome(first.disk, paths[1..], fates);
      }
    }
  }

  /** A reset, even an interrupted one, only ever takes files away; from a session state
      that cannot uncover an older program or an older flag. */
  lemma ResetOutcome(d: Disk, fates: Fates)
    requires Single(d.files, PROGRAM) && Single(d.files, RUN_FLAG)
    ensures var r := OnReset(d, fates);
            && (Recovered(r.disk.files, PROGRAM).Some? ==> Recovered(r.disk.files, PROGRAM) == Recovered(d.files, PROGRAM))
            && (FlagOn(r.disk.files) ==> FlagOn(d.files))
            && Single(r.disk.files, PROGRAM) && Single(r.disk.files, RUN_FLAG)
            && (r.Done? ==> Recovered(r.disk.files, PROGRAM) == None && Recovered(r.disk.files, RUN_FLAG) == None)
  {
    RemoveAllOutcome(d, RuntimePaths(), fates);
    var after := OnReset(d, fates).disk.files;
    assert Path(PROGRAM, Installed) == RuntimePaths()[0] && Path(PROGRAM, Backup) == RuntimePaths()[2];
    assert Path(RUN_FLAG, Installed) == RuntimePaths()[3] && Path(RUN_FLAG, Backup) == RuntimePaths()[5];
    assert after.Keys <= d.files.Keys;
  }

  lemma RestoreOutcome(d: Disk, fates: Fates)
    ensures var r := RestoreLast(d, fates);
            && Recovered(r.disk.files, PROGRAM) == Recovered(d.files, PROGRAM)
            && (FlagOn(r.disk.files) ==> FlagOn(d.files))
            && (r.Done? && Single(d.files, PROGRAM) ==> Single(r.disk.files, PROGRAM))
            && (r.Done? && Single(d.files, RUN_FLAG) ==> Single(r.disk.files, RUN_FLAG))
            && (r.Done? && r.value.Restored? ==>
                  Recovered(d.files, PROGRAM) == Some(r.value.program) && (r.value.autorun ==> FlagOn(d.files)))
  {
    var at := OpenForRead(d, Path(PROGRAM, Installed), fates);
    if at.Done? && at.value {
      FlagWriteOutcome(at.disk, false, fates);
      var contents := Read(at.disk, Path(PROGRAM, Installed), fates);
      if contents.Done? {
        FlagWriteOutcome(contents.disk, false, fates);
      }
    }
  }

  /** A boot autoruns only what the card held, and changes neither the program nor the
      flag except to turn the flag off. */
  lemma BootOutcome(d: Disk, fates: Fates)
    ensures var r := Boot(d, fates);
            && Recovered(r.disk.files, PROGRAM) == Recovered(d.files, PROGRAM)
            && (FlagOn(r.disk.files) ==> FlagOn(d.files))
            && (r.Done? ==> Single(r.disk.files, PROGRAM) && Single(r.disk.files, RUN_FLAG))
            && (r.Done? && r.value.Restored? ==>
                  Recovered(d.files, PROGRAM) == Some(r.value.program) && (r.value.autorun ==> FlagOn(d.files)))
  {
    RecoverFileOutcome(d, PROGRAM, fates);
    var first := RecoverFile(d, PROGRAM, fates);
    OtherFileKept(d.files, first.disk.files, PROGRAM, RUN_FLAG);
    if first.Done? {
      RecoverFileOutcome(first.disk, RUN_FLAG, fates);
      var second := RecoverFile(first.disk, RUN_FLAG, fates);
      OtherFileKept(first.disk.files, second.disk.files, RUN_FLAG, PROGRAM);
      if second.Done? {
        RestoreOutcome(second.disk, fates);
      }
    }
  }

  /** The card keeps agreeing with the log when an entry is added that does not supersede
      and the card's flag and program were not changed upwards. */
  lemma AgreesSurvives(before: Files, after: Files, log: seq<Entry>, e: Entry)
    requires Agrees(before, log) && !Supersedes(e)
    requires forall q | Recovered(after, PROGRAM) == Some(q) :: !Contradicts(e, q)
    requires FlagOn(after) && Recovered(after, PROGRAM).Some? ==>
               FlagOn(before) && Recovered(after, PROGRAM) == Recovered(before, PROGRAM)
    ensures Agrees(after, log + [e])
  {
    if FlagOn(after) && Recovered(after, PROGRAM).Some? {
      ArmedSurvives(log, e, Recovered(after, PROGRAM).value);
    }
  }

  lemma StepKeepsInv(s: System, event: Event, fates: Fates)
    requires Inv(s)
    ensures Inv(Step(s, event, fates))
  {
    match event
    case Reboot =>
      BootOutcome(s.disk, fates);
      var r := Boot(s.disk, fates);
      var e := if r.Done? then Booted(r.value) else BootLost;
      AgreesSurvives(s.disk.files, r.disk.files, s.log, e);
      JustifiedGrows(s.log, e);
    case Start(program) =>
      if s.up {
        StartOutcome(s.disk, program, fates);
        var r := OnStarted(s.disk, program, fates);
        var e := Started(program, Seen(r));
        JustifiedGrows(s.log, e);
        if FlagOn(r.disk.files) {
          if Recovered(r.disk.files, PROGRAM) == Some(program) && (r.Crash? || r.value == Stored) {
            ArmedNow(s.log, program, Seen(r));
          } else {
            AgreesSurvives(s.disk.files, r.disk.files, s.log, e);
          }
        }
      }
    case Stop =>
      if s.up {
        FlagWriteOutcome(s.disk, false, fates);
        var r := OnStopped(s.disk, fates);
        var e := Stopped(Seen(r));
        JustifiedGrows(s.log, e);
        if FlagOn(r.disk.files) {
          AgreesSurvives(s.disk.files, r.disk.files, s.log, e);
        }
      }
    case Reset =>
      if s.up {
        ResetOutcome(s.disk, fates);
        var r := OnReset(s.disk, fates);
        var e := Cleared(r.Done?);
        JustifiedGrows(s.log, e);
        if FlagOn(r.disk.files) {
          AgreesSurvives(s.disk.files, r.disk.files, s.log, e);
        }
      }
  }

  lemma {:induction false} RunKeepsInv(s: System, events: seq<Event>, fates: Fates)
    requires Inv(s)
    ensures Inv(RunAll(s, events, fates))
  {
    if events != [] {
      RunKeepsInv(s, events[..|events| - 1], fates);
      StepKeepsInv(RunAll(s, events[..|events| - 1], fates), events[|events| - 1], fates);
    }
  }

  /** Main theorem: over every run from a fresh card, with failures and power losses
      anywhere, every autorun runs the program most recently stored with the flag set. */
  lemma AutorunsAreLastArmed(s: System, events: seq<Event>, fates: Fates)
    requires Fresh(s)
    ensures AutorunsJustified(RunAll(s, events, fates).log)
  {
    assert Recovered(s.disk.files, RUN_FLAG) == None;
    RunKeepsInv(s, events, fates);
  }

  /** Once a stop has answered "stored", or a reset has finished, no reboot of the run
      autoruns until a later start. */
  lemma StoredStopHolds(s: System, events: seq<Event>, fates: Fates, stop: nat, boot: nat)
    requires Fresh(s)
    requires var log := RunAll(s, events, fates).log;
             && stop < boot < |log| && (log[stop] == Stopped(Answered(Stored)) || log[stop] == Cleared(true))
             && log[boot].Booted? && log[boot].restore.Restored? && log[boot].restore.autorun
    ensures var log := RunAll(s, events, fates).log;
            exists k: nat :: stop < k && MayHaveArmed(log[..boot], k, log[boot].restore.program)
  {
    AutorunsAreLastArmed(s, events, fates);
    StopSupersedes(RunAll(s, events, fates).log, stop, boot);
  }

  lemma StopSupersedes(log: seq<Entry>, stop: nat, boot: nat)
    requires AutorunsJustified(log) && stop < boot < |log| && Supersedes(log[stop])
    requires log[boot].Booted? && log[boot].restore.Restored? && log[boot].restore.autorun
    ensures exists k: nat :: stop <= k && MayHaveArmed(log[..boot], k, log[boot].restore.program)
  {
    var program := log[boot].restore.program;
    assert Armed(log[..boot], program);
    var k: nat :| MayHaveArmed(log[..boot], k, program) &&
                  forall j | k < j < boot :: !Supersedes(log[..boot][j]) && !Contradicts(log[..boot][j], program);
    assert log[..boot][stop] == log[stop];
  }

  lemma StartStores(d: Disk, program: Bytes, fates: Fates)
    requires FaultFree(fates, d.time) && program != []
    ensures var r := OnStarted(d, program, fates);
            && r.Done? && r.value == Stored && d.time < r.disk.time
            && Recovered(r.disk.files, PROGRAM) == Some(program) && Recovered(r.disk.files, RUN_FLAG) == Some([FLAG_ON])
  {
    AtomicWriteOutcome(d, RUN_FLAG, [FLAG_OFF], fates);
    var d1 := WriteRunFlag(d, false, fates).disk;
    AtomicWriteOutcome(d1, PROGRAM, program, fates);
    var d2 := WriteCurrentProgram(d1, program, fates).disk;
    AtomicWriteOutcome(d2, RUN_FLAG, [FLAG_ON], fates);
    OtherFileKept(d2.files, WriteRunFlag(d2, true, fates).disk.files, RUN_FLAG, PROGRAM);
  }

  lemma BootRestores(d: Disk, program: Bytes, flag: Bytes, fates: Fates)
    requires FaultFree(fates, d.time) && 1 <= |program| <= PROGRAM_BYTES && flag != []
    requires Recovered(d.files, PROGRAM) == Some(program) && Recovered(d.files, RUN_FLAG) == Some(flag)
    ensures var b := Boot(d, fates);
            b.Done? && b.value == Restored(program, flag[0] == FLAG_ON)
  {
    RecoverFileOutcome(d, PROGRAM, fates);
    var d1 := RecoverFile(d, PROGRAM, fates).disk;
    OtherFileKept(d.files, d1.files, PROGRAM, RUN_FLAG);
    RecoverFileOutcome(d1, RUN_FLAG, fates);
    var d2 := RecoverFile(d1, RUN_FLAG, fates).disk;
    assert d2.files[Path(PROGRAM, Installed)] == program && d2.files[Path(RUN_FLAG, Installed)] == flag by {
      assert Path(PROGRAM, Installed) in d1.files && Path(PROGRAM, Installed) in d2.files;
    }
    RestoreReads(d2, program, flag, fates);
  }

  lemma RestoreReads(d: Disk, program: Bytes, flag: Bytes, fates: Fates)
    requires FaultFree(fates, d.time) && 1 <= |program| <= PROGRAM_BYTES && flag != []
    requires Path(PROGRAM, Installed) in d.files && d.files[Path(PROGRAM, Installed)] == program
    requires Path(RUN_FLAG, Installed) in d.files && d.files[Path(RUN_FLAG, Installed)] == flag
    ensures var r := RestoreLast(d, fates);
            r.Done? && r.value == Restored(program, flag[0] == FLAG_ON)
  {
  }

  /** Liveness: with no fault, a started program is stored and the next boot autoruns it. */
  lemma StartThenBootAutoruns(d: Disk, program: Bytes, fates: Fates)
    requires FaultFree(fates, d.time)
    requires 1 <= |program| <= PROGRAM_BYTES
    ensures var r := OnStarted(d, program, fates);
            var b := Boot(r.disk, fates);
            r.Done? && r.value == Stored && b.Done? && b.value == Restored(program, true)
  {
    StartStores(d, program, fates);
    BootRestores(OnStarted(d, program, fates).disk, program, [FLAG_ON], fates);
  }

  // ----- an orphaned backup can be met -----

  ghost predicate WorksFor(fates: Fates, from: nat, count: nat) {
    forall t: nat | from <= t < from + count :: fates(t).Works?
  }

  /** One file stands, with nothing left over beside it. */
  predicate Stands(files: Files, name: string) {
    Path(name, Installed) in files && Clean(files, name)
  }

  predicate Absent(files: Files, name: string) {
    Path(name, Installed) !in files && Clean(files, name)
  }

  lemma WorkingWrite(d: Disk, name: string, data: Bytes, fates: Fates)
    requires Stands(d.files, name) || Absent(d.files, name)
    requires WorksFor(fates, d.time, if Stands(d.files, name) then 7 else 6)
    ensures var r := AtomicWrite(d, name, data, fates);
            && r.Done? && r.value && Stands(r.disk.files, name) && SameElsewhere(d.files, r.disk.files, name)
            && r.disk.time == d.time + if Stands(d.files, name) then 7 else 6
  {
  }

  /** Power is lost between the two renames of a replacement. */
  lemma CutWrite(d: Disk, name: string, data: Bytes, fates: Fates)
    requires Stands(d.files, name) && WorksFor(fates, d.time, 5) && fates(d.time + 5).Crashes?
    ensures var r := AtomicWrite(d, name, data, fates);
            r.Crash? && Orphan(r.disk.files, name) && r.disk.time == d.time + 6
  {
  }

  lemma FirstStart(d: Disk, program: Bytes, fates: Fates)
    requires Absent(d.files, PROGRAM) && Absent(d.files, RUN_FLAG) && program != [] && WorksFor(fates, d.time, 19)
    ensures var r := OnStarted(d, program, fates);
            r.Done? && Stands(r.disk.files, PROGRAM) && Stands(r.disk.files, RUN_FLAG) && r.disk.time == d.time + 19
  {
    WorkingWrite(d, RUN_FLAG, [FLAG_OFF], fates);
    var off := WriteRunFlag(d, false, fates).disk;
    WorkingWrite(off, PROGRAM, program, fates);
    var replaced := AtomicWrite(off, PROGRAM, program, fates).disk;
    WorkingWrite(replaced, RUN_FLAG, [FLAG_ON], fates);
    var on := WriteRunFlag(replaced, true, fates).disk;
  }

  lemma CutStart(d: Disk, program: Bytes, fates: Fates)
    requires Stands(d.files, PROGRAM) && Stands(d.files, RUN_FLAG) && program != []
    requires WorksFor(fates, d.time, 12) && fates(d.time + 12).Crashes?
    ensures var r := OnStarted(d, program, fates);
            r.Crash? && Orphan(r.disk.files, PROGRAM) && r.disk.time == d.time + 13
  {
    WorkingWrite(d, RUN_FLAG, [FLAG_OFF], fates);
    var off := WriteRunFlag(d, false, fates).disk;
    CutWrite(off, PROGRAM, program, fates);
  }

  /** The rename of the recovery fails, which boot does not notice. */
  lemma FailedBoot(d: Disk, fates: Fates)
    requires Orphan(d.files, PROGRAM)
    requires fates(d.time).Works? && fates(d.time + 1).Fails? && WorksFor(fates, d.time + 2, 3)
    ensures var r := Boot(d, fates);
            r.Done? && Orphan(r.disk.files, PROGRAM)
  {
    var recovered := RecoverFile(d, PROGRAM, fates);
    assert recovered.Done? && Orphan(recovered.disk.files, PROGRAM) && recovered.disk.time == d.time + 2;
    RecoverFileOutcome(recovered.disk, RUN_FLAG, fates);
    var begun := RecoverFile(recovered.disk, RUN_FLAG, fates);
    OtherFileKept(recovered.disk.files, begun.disk.files, RUN_FLAG, PROGRAM);
  }

  /** Power is lost at the second rename of a second start's program, and the rename at the
      next boot fails. */
  ghost predicate Unlucky(fates: Fates, t0: nat) {
    && WorksFor(fates, t0, 36) && fates(t0 + 36).Crashes?
    && fates(t0 + 37).Works? && fates(t0 + 38).Fails? && WorksFor(fates, t0 + 39, 3)
  }

  /** Some run leaves the store up beside an orphaned backup of the program. */
  ghost predicate MeetsOrphan(s: System, fates: Fates) {
    exists events: seq<Event> :: RunAll(s, events, fates).up && Orphan(RunAll(s, events, fates).disk.files, PROGRAM)
  }

  lemma OrphanFromCut(s: System, events: seq<Event>, now: System, fates: Fates)
    requires now == RunAll(s, events, fates) && Orphan(now.disk.files, PROGRAM)
    requires fates(now.disk.time).Works? && fates(now.disk.time + 1).Fails? && WorksFor(fates, now.disk.time + 2, 3)
    ensures MeetsOrphan(s, fates)
  {
    FailedBoot(now.disk, fates);
    assert RunAll(s, events + [Reboot], fates).up;
  }

  lemma OrphanFromStored(s: System, events: seq<Event>, now: System, program: Bytes, fates: Fates, t0: nat)
    requires now == RunAll(s, events, fates) && now.up && Stands(now.disk.files, PROGRAM) && Stands(now.disk.files, RUN_FLAG)
    requires program != [] && Unlucky(fates, t0) && now.disk.time == t0 + 24
    ensures MeetsOrphan(s, fates)
  {
    CutStart(now.disk, program, fates);
    OrphanFromCut(s, events + [Start(program)], Step(now, Start(program), fates), fates);
  }

  lemma OrphanFromEmpty(s: System, events: seq<Event>, now: System, program: Bytes, fates: Fates, t0: nat)
    requires now == RunAll(s, events, fates) && now.up && Absent(now.disk.files, PROGRAM) && Absent(now.disk.files, RUN_FLAG)
    requires program != [] && Unlucky(fates, t0) && now.disk.time == t0 + 5
    ensures MeetsOrphan(s, fates)
  {
    FirstStart(now.disk, program, fates);
    OrphanFromStored(s, events + [Start(program)], Step(now, Start(program), fates), program, fates, t0);
  }

  /** From a fresh card: boot, start, a second start cut between its two renames, and a boot
      whose recovery fails. */
  lemma OrphanFromFresh(s: System, fates: Fates)
    requires Fresh(s) && Unlucky(fates, s.disk.time)
    ensures MeetsOrphan(s, fates)
  {
    OrphanFromEmpty(s, [] + [Reboot], Step(s, Reboot, fates), [0], fates, s.disk.time);
  }

  /** So the condition of `SafeExactlyUnlessOrphan` can fail in a store that is up. */
  lemma OrphanIsReachable(s: System)
    requires Fresh(s)
    ensures exists fates: Fates :: MeetsOrphan(s, fates)
  {
    var t0 := s.disk.time;
    var fates: Fates := (t: nat) => if t == t0 + 36 then Crashes([]) else if t == t0 + 38 then Fails(0) else Works;
    assert Unlucky(fates, t0);
    OrphanFromFresh(s, fates);
  }
}
