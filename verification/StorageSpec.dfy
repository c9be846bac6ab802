/** The SD card as a map from path to contents, and the storage protocol of the
    VM program store as functions over it. Every storage operation consults a
    `Fates` oracle, so a property of all oracles covers a failure or a power loss
    at every point. */
module StorageSpec {
  import opened Wrappers

  type Bytes = seq<nat>

  /** A path is a file name with nothing, `.tmp` or `.bak` appended. */
  datatype Slot = Installed | Temporary | Backup
  datatype Path = Path(name: string, slot: Slot)
  type Files = map<Path, Bytes>

  /** What happens to one storage operation. A failing open or rename has no effect, a
      failing write keeps a strict prefix, and power lost in a write leaves anything. */
  datatype Fate = Works | Fails(kept: nat) | Crashes(partial: Bytes)
  type Fates = nat -> Fate

  datatype Disk = Disk(files: Files, time: nat)

  datatype Run<+T> = Crash(disk: Disk) | Done(disk: Disk, value: T) {
    predicate IsFailure() { Crash? }
    function PropagateFailure<U>(): Run<U> requires Crash? { Crash(disk) }
    function Extract(): (Disk, T) requires Done? { (disk, value) }
  }

  // ----- storage operations -----

  function Remove(d: Disk, p: Path, fates: Fates): Run<()> {
    if fates(d.time).Crashes? then Crash(Disk(d.files, d.time + 1))
    else Done(Disk(d.files - {p}, d.time + 1), ())
  }

  function OpenForWrite(d: Disk, p: Path, fates: Fates): Run<bool> {
    match fates(d.time)
    case Works => Done(Disk(d.files[p := []], d.time + 1), true)
    case Fails(_) => Done(Disk(d.files, d.time + 1), false)
    case Crashes(_) => Crash(Disk(d.files, d.time + 1))
  }

  function Write(d: Disk, p: Path, data: Bytes, fates: Fates): Run<nat> {
    match fates(d.time)
    case Works => Done(Disk(d.files[p := data], d.time + 1), |data|)
    case Fails(kept) =>
      var written := if kept < |data| then kept else 0;
      Done(Disk(d.files[p := data[..written]], d.time + 1), written)
    case Crashes(partial) => Crash(Disk(d.files[p := partial], d.time + 1))
  }

  /** As on a FAT volume, the destination must be free. */
  function Rename(d: Disk, from: Path, to: Path, fates: Fates): Run<bool> {
    match fates(d.time)
    case Works =>
      if from in d.files && to !in d.files then
        Done(Disk((d.files - {from})[to := d.files[from]], d.time + 1), true)
      else
        Done(Disk(d.files, d.time + 1), false)
    case Fails(_) => Done(Disk(d.files, d.time + 1), false)
    case Crashes(_) => Crash(Disk(d.files, d.time + 1))
  }

  function OpenForRead(d: Disk, p: Path, fates: Fates): Run<bool> {
    if fates(d.time).Crashes? then Crash(Disk(d.files, d.time + 1))
    else Done(Disk(d.files, d.time + 1), fates(d.time).Works? && p in d.files)
  }

  /** Contents, or a short read. */
  function Read(d: Disk, p: Path, fates: Fates): Run<Option<Bytes>>
    requires p in d.files
  {
    match fates(d.time)
    case Works => Done(Disk(d.files, d.time + 1), Some(d.files[p]))
    case Fails(_) => Done(Disk(d.files, d.time + 1), None)
    case Crashes(_) => Crash(Disk(d.files, d.time + 1))
  }

  // ----- two-file replacement -----

  function AtomicWrite(d: Disk, name: string, data: Bytes, fates: Fates): Run<bool> {
    var (d, _) :- Remove(d, Path(name, Temporary), fates);
    var (d, created) :- OpenForWrite(d, Path(name, Temporary), fates);
    if !created then Done(d, false) else
    var (d, written) :- Write(d, Path(name, Temporary), data, fates);
    if written != |data| then
      var (d, _) :- Remove(d, Path(name, Temporary), fates);
      Done(d, false)
    else
      var (d, _) :- Remove(d, Path(name, Backup), fates);
      Install(d, name, fates)
  }

  /** The second half of `atomicWrite`: the temporary file is complete. */
  function Install(d: Disk, name: string, fates: Fates): Run<bool> {
    var hadPrevious := Path(name, Installed) in d.files;
    if hadPrevious then
      var (d, kept) :- Rename(d, Path(name, Installed), Path(name, Backup), fates);
      if kept then Promote(d, name, true, fates) else
      var (d, _) :- Remove(d, Path(name, Temporary), fates);
      Done(d, false)
    else
      Promote(d, name, false, fates)
  }

  function Promote(d: Disk, name: string, hadPrevious: bool, fates: Fates): Run<bool> {
    var (d, promoted) :- Rename(d, Path(name, Temporary), Path(name, Installed), fates);
    if promoted then
      var (d, _) :- Remove(d, Path(name, Backup), fates);
      Done(d, true)
    else if hadPrevious then
      var (d, _) :- Rename(d, Path(name, Backup), Path(name, Installed), fates);
      Done(d, false)
    else
      Done(d, false)
  }

  function RecoverFile(d: Disk, name: string, fates: Fates): Run<()> {
    var (d, _) :- Remove(d, Path(name, Temporary), fates);
    if Path(name, Installed) !in d.files && Path(name, Backup) in d.files then
      var (d, _) :- Rename(d, Path(name, Backup), Path(name, Installed), fates);
      Done(d, ())
    else
      Remove(d, Path(name, Backup), fates)
  }

  // ----- what a file holds, and what the protocol keeps -----

  /** Contents of a file as recovery will leave them. */
  function Recovered(files: Files, name: string): Option<Bytes> {
    if Path(name, Installed) in files then Some(files[Path(name, Installed)])
    else if Path(name, Backup) in files then Some(files[Path(name, Backup)])
    else None
  }

  /** Only the backup is left: an interrupted replacement whose recovery failed. */
  predicate Orphan(files: Files, name: string) {
    Path(name, Installed) !in files && Path(name, Backup) in files
  }

  predicate Single(files: Files, name: string) {
    !(Path(name, Installed) in files && Path(name, Backup) in files)
  }

  predicate Clean(files: Files, name: string) {
    Path(name, Temporary) !in files && Path(name, Backup) !in files
  }

  ghost predicate SameElsewhere(before: Files, after: Files, name: string) {
    forall p: Path | p.name != name :: (p in before <==> p in after) && (p in before ==> after[p] == before[p])
  }

  ghost predicate FaultFree(fates: Fates, from: nat) {
    forall t: nat | from <= t :: fates(t).Works?
  }

  lemma OtherFileKept(before: Files, after: Files, name: string, other: string)
    requires SameElsewhere(before, after, name) && other != name
    ensures Recovered(after, other) == Recovered(before, other)
    ensures Single(after, other) == Single(before, other)
    ensures Orphan(after, other) == Orphan(before, other)
  {
    assert Path(other, Installed) in before <==> Path(other, Installed) in after;
    assert Path(other, Backup) in before <==> Path(other, Backup) in after;
  }

  /** Promoting a complete temporary file: either it is installed, or the previous
      contents are still recoverable; there is no third outcome. */
  lemma PromoteOutcome(d: Disk, name: string, hadPrevious: bool, fates: Fates)
    requires Path(name, Temporary) in d.files && Path(name, Installed) !in d.files
    requires hadPrevious <==> Path(name, Backup) in d.files
    ensures var r := Promote(d, name, hadPrevious, fates);
            var new' := Some(d.files[Path(name, Temporary)]);
            && SameElsewhere(d.files, r.disk.files, name) && d.time < r.disk.time
            && (Recovered(r.disk.files, name) == Recovered(d.files, name) || Recovered(r.disk.files, name) == new')
            && (r.Done? && r.value ==> Recovered(r.disk.files, name) == new' && Clean(r.disk.files, name))
            && (r.Done? && !r.value ==> Recovered(r.disk.files, name) == Recovered(d.files, name))
            && (r.Done? ==> Single(r.disk.files, name))
            && (FaultFree(fates, d.time) ==> r.Done? && r.value)
  {
  }

  lemma InstallOutcome(d: Disk, name: string, fates: Fates)
    requires Path(name, Temporary) in d.files && Path(name, Backup) !in d.files
    ensures var r := Install(d, name, fates);
            var new' := Some(d.files[Path(name, Temporary)]);
            && SameElsewhere(d.files, r.disk.files, name) && d.time < r.disk.time
            && (Recovered(r.disk.files, name) == Recovered(d.files, name) || Recovered(r.disk.files, name) == new')
            && (r.Done? && r.value ==> Recovered(r.disk.files, name) == new' && Clean(r.disk.files, name))
            && (r.Done? && !r.value ==> Recovered(r.disk.files, name) == Recovered(d.files, name))
            && (r.Done? ==> Single(r.disk.files, name))
            && (FaultFree(fates, d.time) ==> r.Done? && r.value)
  {
    if Path(name, Installed) in d.files {
      var kept := Rename(d, Path(name, Installed), Path(name, Backup), fates);
      if kept.Done? && kept.value {
        PromoteOutcome(kept.disk, name, true, fates);
      }
    } else {
      PromoteOutcome(d, name, false, fates);
    }
  }

  /** Contents after `AtomicWrite` are the old ones or the new ones. */
  predicate OldOrNew(d: Disk, name: string, data: Bytes, fates: Fates) {
    var after := Recovered(AtomicWrite(d, name, data, fates).disk.files, name);
    after == Recovered(d.files, name) || after == Some(data)
  }

  /** Every outcome of `AtomicWrite`, from every state, under every oracle. The old
      contents can be lost only when they were an orphaned backup. */
  lemma AtomicWriteOutcome(d: Disk, name: string, data: Bytes, fates: Fates)
    ensures var r := AtomicWrite(d, name, data, fates);
            var lost := Orphan(d.files, name) && Recovered(r.disk.files, name) == None;
            && SameElsewhere(d.files, r.disk.files, name) && d.time < r.disk.time
            && (OldOrNew(d, name, data, fates) || lost)
            && (r.Done? && r.value ==> Recovered(r.disk.files, name) == Some(data) && Clean(r.disk.files, name))
            && (r.Done? && !r.value ==> Recovered(r.disk.files, name) == Recovered(d.files, name) || lost)
            && (r.Done? && Single(d.files, name) ==> Single(r.disk.files, name))
            && (FaultFree(fates, d.time) ==> r.Done? && r.value)
  {
    var r1 := Remove(d, Path(name, Temporary), fates);
    if r1.Done? {
      var r2 := OpenForWrite(r1.disk, Path(name, Temporary), fates);
      if r2.Done? && r2.value {
        var r3 := Write(r2.disk, Path(name, Temporary), data, fates);
        if r3.Done? && r3.value == |data| {
          var r4 := Remove(r3.disk, Path(name, Backup), fates);
          if r4.Done? {
            assert r4.disk.files[Path(name, Temporary)] == data;
            InstallOutcome(r4.disk, name, fates);
          }
        }
      }
    }
  }

  /** Recovery, even when it is interrupted or its rename fails, keeps the recoverable
      contents; when it completes without a fault the file is clean. */
  lemma RecoverFileOutcome(d: Disk, name: string, fates: Fates)
    ensures var r := RecoverFile(d, name, fates);
            && SameElsewhere(d.files, r.disk.files, name) && d.time < r.disk.time
            && Recovered(r.disk.files, name) == Recovered(d.files, name)
            && (r.Done? ==> Single(r.disk.files, name) && Path(name, Temporary) !in r.disk.files)
            && (FaultFree(fates, d.time) ==> r.Done? && Clean(r.disk.files, name))
  {
  }

  /** A crash anywhere in `AtomicWrite`, or its completion, followed by a fault-free
      recovery leaves exactly the old or the new contents and no `.tmp` or `.bak`. */
  lemma CrashThenRecover(d: Disk, name: string, data: Bytes, fates: Fates, later: Fates)
    requires !Orphan(d.files, name)
    requires FaultFree(later, AtomicWrite(d, name, data, fates).disk.time)
    ensures var w := AtomicWrite(d, name, data, fates);
            var r := RecoverFile(w.disk, name, later);
            && r.Done? && Clean(r.disk.files, name)
            && (Recovered(r.disk.files, name) == Recovered(d.files, name) || Recovered(r.disk.files, name) == Some(data))
            && (w.Done? ==> Recovered(r.disk.files, name) == if w.value then Some(data) else Recovered(d.files, name))
  {
    AtomicWriteOutcome(d, name, data, fates);
    RecoverFileOutcome(AtomicWrite(d, name, data, fates).disk, name, later);
  }

  /** Exactly when the replacement is safe under every oracle: unless the file is orphaned. */
  lemma SafeExactlyUnlessOrphan(d: Disk, name: string, data: Bytes)
    ensures (forall fates: Fates :: OldOrNew(d, name, data, fates)) <==> !Orphan(d.files, name)
  {
    if Orphan(d.files, name) {
      // Power is lost between removing the backup and installing the new contents.
      var fates: Fates := t => if t == d.time + 4 then Crashes([]) else Works;
      assert !OldOrNew(d, name, data, fates) by {
        var d1 := Remove(d, Path(name, Temporary), fates).disk;
        var d2 := OpenForWrite(d1, Path(name, Temporary), fates).disk;
        var d3 := Write(d2, Path(name, Temporary), data, fates).disk;
        var d4 := Remove(d3, Path(name, Backup), fates).disk;
        assert AtomicWrite(d, name, data, fates) == Install(d4, name, fates);
        assert Path(name, Installed) !in d4.files && Path(name, Backup) !in d4.files;
      }
    } else {
      forall fates: Fates ensures OldOrNew(d, name, data, fates) {
        AtomicWriteOutcome(d, name, data, fates);
      }
    }
  }
}
