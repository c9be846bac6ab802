/** The speech pipeline: three workers and a player share flags under one mutex and one
    condition variable. A state is what they share plus where each thread is; a step is
    one critical section, one stage run, one playback or one batch of unlinks. */
module VoicePipeline {

  /** A worker in its loop; the index is the item at hand, or the number of items it
      published before it ended. `Asleep` is inside `pthread_cond_wait`. */
  datatype Worker =
    | NotStarted
    | At(i: nat)
    | Asleep(i: nat)
    | Working(i: nat)
    | Publishing(i: nat)
    | Failing(i: nat)
    | Done(i: nat)

  /** The main thread; from `Abort` on, `i` counts the items it has removed. */
  datatype Main =
    | Create(k: nat)
    | Waiting(i: nat)
    | Dozing(i: nat)
    | Playing(i: nat)
    | Removing(i: nat)
    | Abort(i: nat)
    | Join(k: nat, i: nat)
    | Sweep(i: nat)
    | Final

  datatype State = State(
    n: nat,
    dry: seq<bool>, wet: seq<bool>, envelope: seq<bool>,           // ready flags
    dryOut: seq<bool>, wetOut: seq<bool>, envelopeOut: seq<bool>,  // outputs written
    removed: seq<bool>,                                            // files unlinked
    failed: bool,
    piper: Worker, sox: Worker, env: Worker,
    main: Main,
    played: seq<nat>,
    ok: bool)

  datatype Actor = Piper | Sox | Envelope | Player

  function Flags(n: nat, value: bool): (s: seq<bool>)
    ensures |s| == n
  {
    seq(n, _ => value)
  }

  function Initial(n: nat): State {
    State(n, Flags(n, false), Flags(n, false), Flags(n, false), Flags(n, false), Flags(n, false), Flags(n, false),
          Flags(n, false), false, NotStarted, NotStarted, NotStarted, Create(0), [], false)
  }

  // ----- shared actions -----

  function Woken(w: Worker): Worker {
    if w.Asleep? then At(w.i) else w
  }

  /** `pthread_cond_broadcast`. */
  function Broadcast(s: State): State {
    s.(piper := Woken(s.piper), sox := Woken(s.sox), env := Woken(s.env),
       main := if s.main.Dozing? then Waiting(s.main.i) else s.main)
  }

  /** `pipeline_fail`. */
  function Fail(s: State): State {
    Broadcast(s.(failed := true))
  }

  function Set(flags: seq<bool>, i: nat): (r: seq<bool>)
    ensures |r| == |flags|
  {
    if i < |flags| then flags[i := true] else flags
  }

  // ----- the threads -----

  /** Loop head of a worker: end of the loop, failure seen, gate open, or wait. */
  function Head(i: nat, n: nat, failed: bool, open: bool): Worker {
    if i >= n then Done(i)
    else if failed then Done(i)
    else if open then Working(i)
    else Asleep(i)
  }

  predicate CanRun(w: Worker) {
    w.At? || w.Working? || w.Publishing? || w.Failing?
  }

  /** The next place of a worker, its ready flags and its outputs after one of its steps.
      `open` says that the item it needs is ready; `good` is the outcome of the stage. */
  function NextPlace(w: Worker, n: nat, failed: bool, open: bool, good: bool): Worker
    requires CanRun(w)
  {
    match w
    case At(i) => Head(i, n, failed, open)
    case Working(i) => if good then Publishing(i) else Failing(i)
    case Publishing(i) => At(i + 1)
    case Failing(i) => Done(i)
  }

  function NextReady(w: Worker, ready: seq<bool>): seq<bool> {
    if w.Publishing? then Set(ready, w.i) else ready
  }

  function NextOut(w: Worker, out: seq<bool>, good: bool): seq<bool> {
    if w.Working? && good then Set(out, w.i) else out
  }

  /** Publishing and failing broadcast inside the same critical section. */
  function Signal(w: Worker, s: State): State {
    if w.Publishing? then Broadcast(s) else if w.Failing? then Fail(s) else s
  }

  predicate DryReady(s: State, w: Worker) {
    w.At? && w.i < |s.dry| && s.dry[w.i]
  }

  function PiperStep(s: State, good: bool): State
    requires CanRun(s.piper)
  {
    Signal(s.piper, s.(dry := NextReady(s.piper, s.dry), dryOut := NextOut(s.piper, s.dryOut, good),
                       piper := NextPlace(s.piper, s.n, s.failed, true, good)))
  }

  function SoxStep(s: State, good: bool): State
    requires CanRun(s.sox)
  {
    Signal(s.sox, s.(wet := NextReady(s.sox, s.wet), wetOut := NextOut(s.sox, s.wetOut, good),
                     sox := NextPlace(s.sox, s.n, s.failed, DryReady(s, s.sox), good)))
  }

  function EnvelopeStep(s: State, good: bool): State
    requires CanRun(s.env)
  {
    Signal(s.env, s.(envelope := NextReady(s.env, s.envelope), envelopeOut := NextOut(s.env, s.envelopeOut, good),
                     env := NextPlace(s.env, s.n, s.failed, DryReady(s, s.env), good)))
  }

  /** `pthread_join` returns for an ended thread and is skipped for one never started. */
  predicate Joined(w: Worker) {
    w.NotStarted? || w.Done?
  }

  predicate PlayerCanRun(s: State) {
    match s.main
    case Dozing(_) => false
    case Join(k, _) => Joined(if k == 0 then s.piper else if k == 1 then s.sox else s.env)
    case Final => false
    case _ => true
  }

  predicate SentenceReady(s: State, i: nat) {
    i < |s.wet| && i < |s.envelope| && s.wet[i] && s.envelope[i]
  }

  function PlayerStep(s: State, good: bool): State
    requires PlayerCanRun(s)
  {
    match s.main
    case Create(k) =>
      if !good then s.(main := Abort(0))
      else if k == 0 then s.(piper := At(0), main := Create(1))
      else if k == 1 then s.(sox := At(0), main := Create(2))
      else s.(env := At(0), main := Waiting(0))
    case Waiting(i) =>
      if s.failed then s.(main := Abort(i))
      else if SentenceReady(s, i) then s.(main := Playing(i), played := s.played + [i])
      else s.(main := Dozing(i))
    case Playing(i) => s.(main := if good then Removing(i) else Abort(i))
    case Removing(i) =>
      s.(removed := Set(s.removed, i),
         main := if i + 1 < s.n then Waiting(i + 1) else Join(0, i + 1),
         ok := i + 1 >= s.n)
    case Abort(i) => Fail(s.(main := Join(0, i)))
    case Join(k, i) => s.(main := if k < 2 then Join(k + 1, i) else Sweep(i))
    case Sweep(_) => s.(removed := Flags(s.n, true), main := Final)
  }

  predicate Enabled(s: State, a: Actor) {
    match a
    case Piper => CanRun(s.piper)
    case Sox => CanRun(s.sox)
    case Envelope => CanRun(s.env)
    case Player => PlayerCanRun(s)
  }

  function Step(s: State, a: Actor, good: bool): State
    requires Enabled(s, a)
  {
    match a
    case Piper => PiperStep(s, good)
    case Sox => SoxStep(s, good)
    case Envelope => EnvelopeStep(s, good)
    case Player => PlayerStep(s, good)
  }

  /** A schedule with the outcome of each stage; a choice that is not enabled is skipped. */
  function Run(n: nat, schedule: seq<(Actor, bool)>): State {
    if schedule == [] then Initial(n)
    else
      var s, last := Run(n, schedule[..|schedule| - 1]), schedule[|schedule| - 1];
      if Enabled(s, last.0) then Step(s, last.0, last.1) else s
  }

  // ----- the invariant -----

  /** Items a worker has published. */
  function Published(w: Worker): nat {
    if w.NotStarted? then 0 else w.i
  }

  /** Items whose output a worker has written. */
  function Written(w: Worker): nat {
    match w
    case NotStarted => 0
    case Publishing(i) => i + 1
    case _ => w.i
  }

  ghost predicate Prefix(flags: seq<bool>, k: nat) {
    forall j | 0 <= j < |flags| :: flags[j] <==> j < k
  }

  /** What one worker's position says about its flags and outputs. */
  ghost predicate WorkerInv(w: Worker, n: nat, failed: bool, ready: seq<bool>, out: seq<bool>) {
    && |ready| == n && |out| == n
    && Prefix(ready, Published(w)) && Prefix(out, Written(w))
    && Published(w) <= n
    && (w.Asleep? || w.Working? || w.Publishing? || w.Failing? ==> w.i < n)
    && (w.Done? && w.i < n ==> failed)
  }

  /** A worker fed by piper only handles items that are ready. */
  predicate Fed(w: Worker, piper: Worker) {
    && Published(w) <= Published(piper)
    && (w.Working? || w.Publishing? || w.Failing? ==> w.i < Published(piper))
  }

  /** Whoever sleeps has nothing to do: no lost wake-up. */
  predicate SleepersIdle(s: State) {
    && (s.sox.Asleep? ==> !s.failed && s.sox.i == Published(s.piper))
    && (s.env.Asleep? ==> !s.failed && s.env.i == Published(s.piper))
    && (s.main.Dozing? ==> !s.failed && (Published(s.sox) == s.main.i || Published(s.env) == s.main.i))
  }

  function Count(n: nat): (s: seq<nat>)
    ensures |s| == n
  {
    seq(n, i => i)
  }

  predicate AllStarted(s: State) {
    !s.piper.NotStarted? && !s.sox.NotStarted? && !s.env.NotStarted?
  }

  /** Items whose files the main thread has removed. */
  function Cleared(m: Main, n: nat): nat {
    if m.Create? then 0 else if m.Final? then n else m.i
  }

  predicate MainInv(s: State) {
    match s.main
    case Create(k) =>
      && k <= 2 && s.played == [] && !s.ok
      && (s.piper.NotStarted? <==> k == 0) && (s.sox.NotStarted? <==> k <= 1) && s.env.NotStarted?
    case Waiting(i) => i < s.n && |s.played| == i && AllStarted(s) && !s.ok
    case Dozing(i) => i < s.n && |s.played| == i && AllStarted(s) && !s.ok
    case Playing(i) => i < s.n && |s.played| == i + 1 && AllStarted(s) && !s.ok
    case Removing(i) => i < s.n && |s.played| == i + 1 && AllStarted(s) && !s.ok
    case Abort(i) => i <= |s.played| && !s.ok
    case Join(k, i) =>
      && k <= 2 && i <= |s.played| && (if s.ok then i == s.n == |s.played| && AllStarted(s) else s.failed)
      && (k >= 1 ==> Joined(s.piper)) && (k >= 2 ==> Joined(s.sox))
    case Sweep(i) =>
      && i <= |s.played| && (if s.ok then i == s.n == |s.played| else s.failed)
      && Joined(s.piper) && Joined(s.sox) && Joined(s.env)
    case Final =>
      && (if s.ok then |s.played| == s.n else s.failed)
      && Joined(s.piper) && Joined(s.sox) && Joined(s.env)
  }

  /** Sentences are played in order, and only ones that both outputs were published for. */
  predicate PlayedInv(s: State) {
    s.played == Count(|s.played|) && |s.played| <= Published(s.sox) && |s.played| <= Published(s.env)
  }

  ghost predicate Core(s: State) {
    && s.n >= 1 && |s.removed| == s.n
    && WorkerInv(s.piper, s.n, s.failed, s.dry, s.dryOut) && !s.piper.Asleep?
    && WorkerInv(s.sox, s.n, s.failed, s.wet, s.wetOut)
    && WorkerInv(s.env, s.n, s.failed, s.envelope, s.envelopeOut)
    && Fed(s.sox, s.piper) && Fed(s.env, s.piper)
    && Prefix(s.removed, Cleared(s.main, s.n)) && PlayedInv(s) && MainInv(s)
  }

  ghost predicate Inv(s: State) {
    Core(s) && SleepersIdle(s)
  }

  lemma InitialInv(n: nat)
    requires n >= 1
    ensures Inv(Initial(n))
  {
  }

  /** The main thread's part survives any step of the workers that moves them forward. */
  lemma MainUnaffected(s: State, t: State)
    requires MainInv(s) && PlayedInv(s) && t.main == s.main && t.n == s.n
    requires t.played == s.played && t.ok == s.ok && (s.failed ==> t.failed)
    requires Published(s.sox) <= Published(t.sox) && Published(s.env) <= Published(t.env)
    requires t.piper.NotStarted? == s.piper.NotStarted? && t.sox.NotStarted? == s.sox.NotStarted? &&
             t.env.NotStarted? == s.env.NotStarted?
    requires (Joined(s.piper) ==> Joined(t.piper)) && (Joined(s.sox) ==> Joined(t.sox)) && (Joined(s.env) ==> Joined(t.env))
    ensures MainInv(t) && PlayedInv(t)
  {
  }

  lemma WokenKeeps(w: Worker, n: nat, failed: bool, ready: seq<bool>, out: seq<bool>)
    requires WorkerInv(w, n, failed, ready, out)
    ensures WorkerInv(Woken(w), n, failed, ready, out) && WorkerInv(Woken(w), n, true, ready, out)
    ensures Published(Woken(w)) == Published(w) && !Woken(w).Asleep?
  {
  }

  lemma BroadcastKeeps(s: State)
    requires Core(s)
    ensures Inv(Broadcast(s))
  {
    WokenKeeps(s.piper, s.n, s.failed, s.dry, s.dryOut);
    WokenKeeps(s.sox, s.n, s.failed, s.wet, s.wetOut);
    WokenKeeps(s.env, s.n, s.failed, s.envelope, s.envelopeOut);
    var awake := s.(piper := Woken(s.piper), sox := Woken(s.sox), env := Woken(s.env));
    MainUnaffected(s, awake);
  }

  lemma PiperKeepsInv(s: State, good: bool)
    requires Inv(s) && CanRun(s.piper)
    ensures Inv(PiperStep(s, good))
  {
    var w := s.piper;
    var t := s.(dry := NextReady(w, s.dry), dryOut := NextOut(w, s.dryOut, good),
                piper := NextPlace(w, s.n, s.failed, true, good), failed := s.failed || w.Failing?);
    MainUnaffected(s, t);
    assert Core(t);
    if w.Publishing? || w.Failing? {
      BroadcastKeeps(t);
    }
  }

  lemma SoxKeepsInv(s: State, good: bool)
    requires Inv(s) && CanRun(s.sox)
    ensures Inv(SoxStep(s, good))
  {
    var w := s.sox;
    var t := s.(wet := NextReady(w, s.wet), wetOut := NextOut(w, s.wetOut, good),
                sox := NextPlace(w, s.n, s.failed, DryReady(s, w), good), failed := s.failed || w.Failing?);
    MainUnaffected(s, t);
    assert Core(t);
    if w.Publishing? || w.Failing? {
      BroadcastKeeps(t);
    }
  }

  lemma EnvelopeKeepsInv(s: State, good: bool)
    requires Inv(s) && CanRun(s.env)
    ensures Inv(EnvelopeStep(s, good))
  {
    var w := s.env;
    var t := s.(envelope := NextReady(w, s.envelope), envelopeOut := NextOut(w, s.envelopeOut, good),
                env := NextPlace(w, s.n, s.failed, DryReady(s, w), good), failed := s.failed || w.Failing?);
    MainUnaffected(s, t);
    assert Core(t);
    if w.Publishing? || w.Failing? {
      BroadcastKeeps(t);
    }
  }

  lemma CreateKeepsInv(s: State, good: bool)
    requires Inv(s) && s.main.Create?
    ensures Inv(PlayerStep(s, good))
  {
  }

  lemma WaitingKeepsInv(s: State, good: bool)
    requires Inv(s) && s.main.Waiting?
    ensures Inv(PlayerStep(s, good))
  {
    assert Count(s.main.i + 1) == Count(s.main.i) + [s.main.i];
  }

  lemma PlayingKeepsInv(s: State, good: bool)
    requires Inv(s) && (s.main.Playing? || s.main.Removing?)
    ensures Inv(PlayerStep(s, good))
  {
  }

  lemma EndingKeepsInv(s: State, good: bool)
    requires Inv(s) && (s.main.Join? || s.main.Sweep?) && PlayerCanRun(s)
    ensures Inv(PlayerStep(s, good))
  {
  }

  lemma PlayerKeepsInv(s: State, good: bool)
    requires Inv(s) && PlayerCanRun(s)
    ensures Inv(PlayerStep(s, good))
  {
    if s.main.Create? {
      CreateKeepsInv(s, good);
    } else if s.main.Waiting? {
      WaitingKeepsInv(s, good);
    } else if s.main.Playing? || s.main.Removing? {
      PlayingKeepsInv(s, good);
    } else if s.main.Abort? {
      AbortKeepsInv(s);
    } else {
      EndingKeepsInv(s, good);
    }
  }

  lemma AbortKeepsInv(s: State)
    requires Inv(s) && s.main.Abort?
    ensures Inv(Fail(s.(main := Join(0, s.main.i))))
  {
    WokenKeeps(s.piper, s.n, s.failed, s.dry, s.dryOut);
    WokenKeeps(s.sox, s.n, s.failed, s.wet, s.wetOut);
    WokenKeeps(s.env, s.n, s.failed, s.envelope, s.envelopeOut);
  }

  lemma StepKeepsInv(s: State, a: Actor, good: bool)
    requires Inv(s) && Enabled(s, a)
    ensures Inv(Step(s, a, good)) && Step(s, a, good).n == s.n
  {
    match a
    case Piper => PiperKeepsInv(s, good);
    case Sox => SoxKeepsInv(s, good);
    case Envelope => EnvelopeKeepsInv(s, good);
    case Player => PlayerKeepsInv(s, good);
  }

  lemma {:induction false} RunKeepsInv(n: nat, schedule: seq<(Actor, bool)>)
    requires n >= 1
    ensures Inv(Run(n, schedule)) && Run(n, schedule).n == n
  {
    if schedule == [] {
      InitialInv(n);
    } else {
      var s, last := Run(n, schedule[..|schedule| - 1]), schedule[|schedule| - 1];
      RunKeepsInv(n, schedule[..|schedule| - 1]);
      if Enabled(s, last.0) {
        StepKeepsInv(s, last.0, last.1);
      }
    }
  }

  // ----- safety -----

  predicate Holds(flags: seq<bool>, i: nat) {
    i < |flags| && flags[i]
  }

  predicate Touches(w: Worker, i: nat) {
    w.Working? && w.i == i
  }

  /** While a sentence plays its three outputs are written and none of its files is removed. */
  predicate PlaysSafely(s: State) {
    && s.played == Count(|s.played|)
    && (s.main.Playing? ==>
          && |s.played| == s.main.i + 1
          && Holds(s.dryOut, s.main.i) && Holds(s.wetOut, s.main.i) && Holds(s.envelopeOut, s.main.i)
          && !Holds(s.removed, s.main.i))
  }

  lemma InvPlaysSafely(s: State)
    requires Inv(s)
    ensures PlaysSafely(s)
  {
  }

  /** In every interleaving sentences are played in order, each with all its outputs. */
  lemma PlaysInOrderWithOutputs(n: nat, schedule: seq<(Actor, bool)>)
    requires n >= 1
    ensures PlaysSafely(Run(n, schedule))
  {
    RunKeepsInv(n, schedule);
    InvPlaysSafely(Run(n, schedule));
  }

  lemma StepKeepsRemoved(s: State, a: Actor, good: bool, i: nat)
    requires Inv(s) && Enabled(s, a) && Holds(s.removed, i)
    ensures Holds(Step(s, a, good).removed, i)
  {
  }

  lemma {:induction false} RemovedStays(n: nat, schedule: seq<(Actor, bool)>, more: seq<(Actor, bool)>, i: nat)
    requires n >= 1 && Holds(Run(n, schedule).removed, i)
    ensures Holds(Run(n, schedule + more).removed, i)
    decreases |more|
  {
    if more == [] {
      assert schedule + more == schedule;
    } else {
      var all, front := schedule + more, schedule + more[..|more| - 1];
      assert all[..|all| - 1] == front;
      RemovedStays(n, schedule, more[..|more| - 1], i);
      RunKeepsInv(n, front);
      var last := all[|all| - 1];
      if Enabled(Run(n, front), last.0) {
        StepKeepsRemoved(Run(n, front), last.0, last.1, i);
      }
    }
  }

  lemma InvKeepsOff(s: State, i: nat)
    requires Inv(s) && Holds(s.removed, i)
    ensures !Touches(s.piper, i) && !Touches(s.sox, i) && !Touches(s.env, i) && s.main != Playing(i)
  {
  }

  /** Once the files of an item are removed, no worker touches them then or ever after. */
  lemma RemovedFilesAreNeverTouched(n: nat, schedule: seq<(Actor, bool)>, more: seq<(Actor, bool)>, i: nat)
    requires n >= 1 && Holds(Run(n, schedule).removed, i)
    ensures var s := Run(n, schedule + more);
            !Touches(s.piper, i) && !Touches(s.sox, i) && !Touches(s.env, i) && s.main != Playing(i)
  {
    RemovedStays(n, schedule, more, i);
    RunKeepsInv(n, schedule + more);
    InvKeepsOff(Run(n, schedule + more), i);
  }

  /** At the end no file is left, and success means that every sentence was played. */
  lemma FinalIsClean(n: nat, schedule: seq<(Actor, bool)>)
    requires n >= 1 && Run(n, schedule).main.Final?
    ensures var s := Run(n, schedule);
            && (forall i | 0 <= i < n :: Holds(s.removed, i))
            && (s.ok ==> s.played == Count(n)) && (!s.ok ==> s.failed)
  {
    RunKeepsInv(n, schedule);
  }

  predicate AllGood(schedule: seq<(Actor, bool)>) {
    forall k | 0 <= k < |schedule| :: schedule[k].1
  }

  /** No thread has met a failure. */
  predicate Unfailed(s: State) {
    !s.failed && !s.piper.Failing? && !s.sox.Failing? && !s.env.Failing? && !s.main.Abort?
  }

  lemma GoodStepIsUnfailed(s: State, a: Actor)
    requires Unfailed(s) && Enabled(s, a)
    ensures Unfailed(Step(s, a, true))
  {
  }

  /** Failures have a cause: when every stage and every playback succeeds, none is seen. */
  lemma {:induction false} GoodRunIsUnfailed(n: nat, schedule: seq<(Actor, bool)>)
    requires AllGood(schedule)
    ensures Unfailed(Run(n, schedule))
  {
    if schedule != [] {
      var before, last := schedule[..|schedule| - 1], schedule[|schedule| - 1];
      GoodRunIsUnfailed(n, before);
      if Enabled(Run(n, before), last.0) {
        GoodStepIsUnfailed(Run(n, before), last.0);
      }
    }
  }

  /** So such a run ends in success, with every sentence played. */
  lemma GoodRunPlaysAll(n: nat, schedule: seq<(Actor, bool)>)
    requires n >= 1 && AllGood(schedule) && Run(n, schedule).main.Final?
    ensures Run(n, schedule).ok && Run(n, schedule).played == Count(n)
  {
    GoodRunIsUnfailed(n, schedule);
    FinalIsClean(n, schedule);
  }

  // ----- failures -----

  /** The step at hand is a stage, a playback or the start of a thread, which may fail. */
  predicate MayFail(s: State, a: Actor) {
    match a
    case Piper => s.piper.Working?
    case Sox => s.sox.Working?
    case Envelope => s.env.Working?
    case Player => s.main.Create? || s.main.Playing?
  }

  /** A worker that will publish nothing more, with items left. */
  predicate Stuck(w: Worker, n: nat) {
    (w.Failing? || w.Done?) && w.i < n
  }

  /** Success is out of reach. */
  predicate Doomed(s: State) {
    || Stuck(s.piper, s.n) || Stuck(s.sox, s.n) || Stuck(s.env, s.n) || s.main.Abort?
    || ((s.main.Join? || s.main.Sweep? || s.main.Final?) && !s.ok)
  }

  lemma FailingDooms(s: State, a: Actor)
    requires Inv(s) && MayFail(s, a)
    ensures Enabled(s, a) && Doomed(Step(s, a, false))
  {
  }

  lemma StepKeepsDoom(s: State, a: Actor, good: bool)
    requires Inv(s) && Doomed(s) && Enabled(s, a)
    ensures Doomed(Step(s, a, good))
  {
  }

  lemma DoomedIsNotOk(s: State)
    requires Inv(s) && Doomed(s)
    ensures !s.ok
  {
  }

  lemma {:induction false} DoomLasts(n: nat, schedule: seq<(Actor, bool)>, k: nat)
    requires n >= 1 && k < |schedule| && !schedule[k].1 && MayFail(Run(n, schedule[..k]), schedule[k].0)
    ensures Doomed(Run(n, schedule))
  {
    var before, last := schedule[..|schedule| - 1], schedule[|schedule| - 1];
    RunKeepsInv(n, before);
    if k == |schedule| - 1 {
      FailingDooms(Run(n, before), last.0);
    } else {
      assert before[..k] == schedule[..k];
      DoomLasts(n, before, k);
      if Enabled(Run(n, before), last.0) {
        StepKeepsDoom(Run(n, before), last.0, last.1);
      }
    }
  }

  /** A run in which any stage, playback or thread start failed never ends in success. */
  lemma FailedRunIsNotOk(n: nat, schedule: seq<(Actor, bool)>, k: nat)
    requires n >= 1 && k < |schedule| && !schedule[k].1 && MayFail(Run(n, schedule[..k]), schedule[k].0)
    ensures !Run(n, schedule).ok
  {
    RunKeepsInv(n, schedule);
    DoomLasts(n, schedule, k);
    DoomedIsNotOk(Run(n, schedule));
  }

  /** Once a failure is recorded no stage and no playback is begun any more. */
  lemma FailureStartsNothing(s: State, a: Actor, good: bool)
    requires Inv(s) && s.failed && Enabled(s, a)
    ensures var t := Step(s, a, good);
            && t.failed && t.played == s.played
            && (t.piper.Working? ==> t.piper == s.piper) && (t.sox.Working? ==> t.sox == s.sox) && (t.env.Working? ==> t.env == s.env)
  {
  }

  // ----- progress -----

  lemma InvNeverStuck(s: State)
    requires Inv(s) && !s.main.Final?
    ensures CanRun(s.piper) || CanRun(s.sox) || CanRun(s.env) || PlayerCanRun(s)
  {
  }

  /** No lost wake-up and no deadlock: every reachable state but the final one, failed or
      not, has a thread that can run. */
  lemma NeverStuck(n: nat, schedule: seq<(Actor, bool)>)
    requires n >= 1 && !Run(n, schedule).main.Final?
    ensures exists a :: Enabled(Run(n, schedule), a)
  {
    var s := Run(n, schedule);
    RunKeepsInv(n, schedule);
    InvNeverStuck(s);
    assert Enabled(s, Piper) || Enabled(s, Sox) || Enabled(s, Envelope) || Enabled(s, Player);
  }

  function WorkerWork(w: Worker, n: nat): nat
    requires Published(w) <= n
  {
    match w
    case NotStarted => 3 * n + 3
    case At(i) => 3 * (n - i) + 2
    case Asleep(i) => 3 * (n - i) + 2
    case Working(i) => 3 * (n - i) + 1
    case Publishing(i) => 3 * (n - i)
    case Failing(_) => 1
    case Done(_) => 0
  }

  function MainWork(m: Main, n: nat): int {
    match m
    case Create(k) => 3 * n + 12 - k
    case Waiting(i) => 3 * (n - i) + 8
    case Dozing(i) => 3 * (n - i) + 8
    case Playing(i) => 3 * (n - i) + 7
    case Removing(i) => 3 * (n - i) + 6
    case Abort(_) => 6
    case Join(k, _) => 5 - k
    case Sweep(_) => 1
    case Final => 0
  }

  function Awake(w: Worker): nat { if w.At? then 1 else 0 }

  ghost function Measure(s: State): int
    requires Inv(s)
  {
    5 * (WorkerWork(s.piper, s.n) + WorkerWork(s.sox, s.n) + WorkerWork(s.env, s.n) + MainWork(s.main, s.n)) +
    Awake(s.piper) + Awake(s.sox) + Awake(s.env) + (if s.main.Waiting? then 1 else 0)
  }

  /** A worker's step costs work, or puts it to sleep. */
  lemma NextPlaceDecreases(w: Worker, n: nat, failed: bool, open: bool, good: bool, ready: seq<bool>, out: seq<bool>)
    requires CanRun(w) && WorkerInv(w, n, failed, ready, out)
    ensures var next := NextPlace(w, n, failed, open, good);
            Published(next) <= n &&
            (WorkerWork(next, n) < WorkerWork(w, n) ||
             (next.Asleep? && w.At? && WorkerWork(next, n) == WorkerWork(w, n)))
  {
  }

  lemma WokenWorksTheSame(w: Worker, n: nat)
    requires Published(w) <= n
    ensures Published(Woken(w)) <= n && WorkerWork(Woken(w), n) == WorkerWork(w, n)
    ensures Awake(w) <= Awake(Woken(w)) <= 1
  {
  }

  lemma OthersWorkTheSame(s: State)
    requires Inv(s)
    ensures Published(Woken(s.piper)) <= s.n && Published(Woken(s.sox)) <= s.n && Published(Woken(s.env)) <= s.n
    ensures WorkerWork(Woken(s.piper), s.n) == WorkerWork(s.piper, s.n)
    ensures WorkerWork(Woken(s.sox), s.n) == WorkerWork(s.sox, s.n)
    ensures WorkerWork(Woken(s.env), s.n) == WorkerWork(s.env, s.n)
    ensures MainWork(Broadcast(s).main, s.n) == MainWork(s.main, s.n)
  {
    WokenWorksTheSame(s.piper, s.n);
    WokenWorksTheSame(s.sox, s.n);
    WokenWorksTheSame(s.env, s.n);
  }

  lemma PiperDecreases(s: State, good: bool)
    requires Inv(s) && CanRun(s.piper) && Inv(PiperStep(s, good))
    ensures Measure(PiperStep(s, good)) < Measure(s)
  {
    NextPlaceDecreases(s.piper, s.n, s.failed, true, good, s.dry, s.dryOut);
    OthersWorkTheSame(s);
  }

  lemma SoxDecreases(s: State, good: bool)
    requires Inv(s) && CanRun(s.sox) && Inv(SoxStep(s, good))
    ensures Measure(SoxStep(s, good)) < Measure(s)
  {
    NextPlaceDecreases(s.sox, s.n, s.failed, DryReady(s, s.sox), good, s.wet, s.wetOut);
    OthersWorkTheSame(s);
  }

  lemma EnvelopeDecreases(s: State, good: bool)
    requires Inv(s) && CanRun(s.env) && Inv(EnvelopeStep(s, good))
    ensures Measure(EnvelopeStep(s, good)) < Measure(s)
  {
    NextPlaceDecreases(s.env, s.n, s.failed, DryReady(s, s.env), good, s.envelope, s.envelopeOut);
    OthersWorkTheSame(s);
  }

  lemma PlayerDecreases(s: State, good: bool)
    requires Inv(s) && PlayerCanRun(s) && Inv(PlayerStep(s, good))
    ensures Measure(PlayerStep(s, good)) < Measure(s)
  {
    if s.main.Abort? {
      AbortDecreases(s, good);
    } else if s.main.Create? {
      CreateDecreases(s, good);
    } else {
      var t := PlayerStep(s, good);
      assert t.piper == s.piper && t.sox == s.sox && t.env == s.env && t.n == s.n;
      assert MainWork(t.main, t.n) < MainWork(s.main, s.n) || (s.main.Waiting? && t.main == Dozing(s.main.i));
    }
  }

  lemma AbortDecreases(s: State, good: bool)
    requires Inv(s) && s.main.Abort? && Inv(PlayerStep(s, good))
    ensures Measure(PlayerStep(s, good)) < Measure(s)
  {
    OthersWorkTheSame(s);
  }

  lemma CreateDecreases(s: State, good: bool)
    requires Inv(s) && s.main.Create? && Inv(PlayerStep(s, good))
    ensures Measure(PlayerStep(s, good)) < Measure(s)
  {
  }

  lemma MeasureIsNatural(s: State)
    requires Inv(s)
    ensures 0 <= Measure(s)
  {
  }

  /** Every step of every thread decreases a measure that is never negative, so every
      interleaving ends, also after a failure. */
  lemma StepsDecrease(s: State, a: Actor, good: bool)
    requires Inv(s) && Enabled(s, a)
    ensures Inv(Step(s, a, good))
    ensures 0 <= Measure(Step(s, a, good)) < Measure(s)
  {
    StepKeepsInv(s, a, good);
    MeasureIsNatural(Step(s, a, good));
    match a
    case Piper => PiperDecreases(s, good);
    case Sox => SoxDecreases(s, good);
    case Envelope => EnvelopeDecreases(s, good);
    case Player => PlayerDecreases(s, good);
  }

  /** Steps that took effect in a schedule. */
  function Effective(n: nat, schedule: seq<(Actor, bool)>): nat {
    if schedule == [] then 0
    else
      var before, last := schedule[..|schedule| - 1], schedule[|schedule| - 1];
      Effective(n, before) + if Enabled(Run(n, before), last.0) then 1 else 0
  }

  lemma {:induction false} EffectiveStepsAreBounded(n: nat, schedule: seq<(Actor, bool)>)
    requires n >= 1
    ensures Inv(Run(n, schedule)) && Effective(n, schedule) + Measure(Run(n, schedule)) <= 60 * n + 105
  {
    RunKeepsInv(n, schedule);
    if schedule != [] {
      var before, last := schedule[..|schedule| - 1], schedule[|schedule| - 1];
      EffectiveStepsAreBounded(n, before);
      if Enabled(Run(n, before), last.0) {
        StepsDecrease(Run(n, before), last.0, last.1);
      }
    }
  }
}
