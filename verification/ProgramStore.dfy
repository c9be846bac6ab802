/** The program store as it runs: a card whose files are changed in place by ordered
    remove, open, write and rename calls. Each method is proved to leave the card and
    to answer as the corresponding function of `StorageSpec` or `StoreLifecycle` says. */
module ProgramStore {
  import opened Wrappers
  import opened StorageSpec
  import Spec = StoreLifecycle

  /** Result of a call during which the power may be lost. */
  datatype Power<+T> = Lost | Kept(value: T) {
    predicate IsFailure() { Lost? }
    function PropagateFailure<U>(): Power<U> requires Lost? { Lost }
    function Extract(): T requires Kept? { value }
  }

  class Card {
    var files: Files
    var time: nat
    const fates: Fates

    constructor (files: Files, fates: Fates)
      ensures this.files == files && time == 0 && this.fates == fates
    {
      this.files, time, this.fates := files, 0, fates;
    }

    ghost function State(): Disk
      reads this
    {
      Disk(files, time)
    }

    ghost predicate Follows<T>(p: Power<T>, r: Run<T>)
      reads this
    {
      State() == r.disk && p == if r.Crash? then Lost else Kept(r.value)
    }

    method RemoveFile(path: Path) returns (r: Power<()>)
      modifies this
      ensures Follows(r, Remove(old(State()), path, fates))
    {
      var fate := fates(time);
      time := time + 1;
      if fate.Crashes? {
        return Lost;
      }
      files := files - {path};
      return Kept(());
    }

    method CreateFile(path: Path) returns (r: Power<bool>)
      modifies this
      ensures Follows(r, OpenForWrite(old(State()), path, fates))
    {
      var fate := fates(time);
      time := time + 1;
      if fate.Crashes? {
        return Lost;
      }
      if fate.Works? {
        files := files[path := []];
      }
      return Kept(fate.Works?);
    }

    method WriteFile(path: Path, data: Bytes) returns (r: Power<nat>)
      modifies this
      ensures Follows(r, Write(old(State()), path, data, fates))
    {
      var fate := fates(time);
      time := time + 1;
      match fate
      case Crashes(partial) =>
        files := files[path := partial];
        return Lost;
      case Fails(kept) =>
        var written := if kept < |data| then kept else 0;
        files := files[path := data[..written]];
        return Kept(written);
      case Works =>
        files := files[path := data];
        return Kept(|data|);
    }

    method RenameFile(from: Path, to: Path) returns (r: Power<bool>)
      modifies this
      ensures Follows(r, Rename(old(State()), from, to, fates))
    {
      var fate := fates(time);
      time := time + 1;
      if fate.Crashes? {
        return Lost;
      }
      if fate.Fails? || from !in files || to in files {
        return Kept(false);
      }
      files := (files - {from})[to := files[from]];
      return Kept(true);
    }

    method OpenFile(path: Path) returns (r: Power<bool>)
      modifies this
      ensures Follows(r, OpenForRead(old(State()), path, fates))
    {
      var fate := fates(time);
      time := time + 1;
      if fate.Crashes? {
        return Lost;
      }
      return Kept(fate.Works? && path in files);
    }

    method ReadFile(path: Path) returns (r: Power<Option<Bytes>>)
      requires path in files
      modifies this
      ensures Follows(r, Read(old(State()), path, fates))
    {
      var fate := fates(time);
      time := time + 1;
      match fate
      case Crashes(_) => return Lost;
      case Fails(_) => return Kept(None);
      case Works => return Kept(Some(files[path]));
    }
  }

  method Replace(card: Card, name: string, data: Bytes) returns (r: Power<bool>)
    modifies card
    ensures card.Follows(r, AtomicWrite(old(card.State()), name, data, card.fates))
  {
    var temporary, backup, path := Path(name, Temporary), Path(name, Backup), Path(name, Installed);
    var _ :- card.RemoveFile(temporary);
    var created :- card.CreateFile(temporary);
    if !created {
      return Kept(false);
    }
    var written :- card.WriteFile(temporary, data);
    if written != |data| {
      var _ :- card.RemoveFile(temporary);
      return Kept(false);
    }
    var _ :- card.RemoveFile(backup);
    var hadPrevious := path in card.files;
    if hadPrevious {
      var preserved :- card.RenameFile(path, backup);
      if !preserved {
        var _ :- card.RemoveFile(temporary);
        return Kept(false);
      }
    }
    var promoted :- card.RenameFile(temporary, path);
    if !promoted {
      if hadPrevious {
        var _ :- card.RenameFile(backup, path);
      }
      return Kept(false);
    }
    var _ :- card.RemoveFile(backup);
    return Kept(true);
  }

  method Recover(card: Card, name: string) returns (r: Power<()>)
    modifies card
    ensures card.Follows(r, RecoverFile(old(card.State()), name, card.fates))
  {
    var _ :- card.RemoveFile(Path(name, Temporary));
    if Path(name, Installed) !in card.files && Path(name, Backup) in card.files {
      var _ :- card.RenameFile(Path(name, Backup), Path(name, Installed));
      return Kept(());
    }
    r := card.RemoveFile(Path(name, Backup));
  }

  method WriteFlag(card: Card, enabled: bool) returns (r: Power<bool>)
    modifies card
    ensures card.Follows(r, Spec.WriteRunFlag(old(card.State()), enabled, card.fates))
  {
    r := Replace(card, Spec.RUN_FLAG, [if enabled then Spec.FLAG_ON else Spec.FLAG_OFF]);
  }

  method Started(card: Card, program: Bytes) returns (r: Power<Spec.Answer>)
    modifies card
    ensures card.Follows(r, Spec.OnStarted(old(card.State()), program, card.fates))
  {
    var ok :- WriteFlag(card, false);
    if ok {
      ok := program != [];
      if ok {
        ok :- Replace(card, Spec.PROGRAM, program);
      }
    }
    if ok {
      ok :- WriteFlag(card, true);
    }
    if !ok {
      var _ :- WriteFlag(card, false);
      return Kept(Spec.Failed);
    }
    return Kept(Spec.Stored);
  }

  method Stopped(card: Card) returns (r: Power<Spec.Answer>)
    modifies card
    ensures card.Follows(r, Spec.OnStopped(old(card.State()), card.fates))
  {
    var ok :- WriteFlag(card, false);
    return Kept(if ok then Spec.Stored else Spec.Failed);
  }

  method Cleared(card: Card) returns (r: Power<()>)
    modifies card
    ensures card.Follows(r, Spec.OnReset(old(card.State()), card.fates))
  {
    var paths := Spec.RuntimePaths();
    for index := 0 to |paths|
      invariant Spec.RemoveAll(card.State(), paths[index..], card.fates) == Spec.OnReset(old(card.State()), card.fates)
    {
      assert paths[index..][0] == paths[index] && paths[index..][1..] == paths[index + 1..];
      var _ :- card.RemoveFile(paths[index]);
    }
    return Kept(());
  }

  method ReadFlag(card: Card) returns (r: Power<bool>)
    modifies card
    ensures card.Follows(r, Spec.ReadRunFlag(old(card.State()), card.fates))
  {
    var isOpen :- card.OpenFile(Path(Spec.RUN_FLAG, Installed));
    if !isOpen {
      return Kept(false);
    }
    var contents :- card.ReadFile(Path(Spec.RUN_FLAG, Installed));
    return Kept(contents.Some? && contents.value != [] && contents.value[0] == Spec.FLAG_ON);
  }

  /** `begin` followed by `restoreLast`. */
  method PowerOn(card: Card) returns (r: Power<Spec.Restore>)
    modifies card
    ensures card.Follows(r, Spec.Boot(old(card.State()), card.fates))
  {
    var _ :- Recover(card, Spec.PROGRAM);
    var _ :- Recover(card, Spec.RUN_FLAG);
    var isOpen :- card.OpenFile(Path(Spec.PROGRAM, Installed));
    if !isOpen {
      return Kept(Spec.NothingStored);
    }
    var length := |card.files[Path(Spec.PROGRAM, Installed)]|;
    if length == 0 || length > Spec.PROGRAM_BYTES {
      var _ :- WriteFlag(card, false);
      return Kept(Spec.Unusable);
    }
    var contents :- card.ReadFile(Path(Spec.PROGRAM, Installed));
    if contents.None? {
      var _ :- WriteFlag(card, false);
      return Kept(Spec.Unusable);
    }
    var autorun :- ReadFlag(card);
    return Kept(Spec.Restored(contents.value, autorun));
  }
}
