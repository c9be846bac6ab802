/** The turn half of the Codex bridge's polling loop: a pending file, a response file and a
    done file keep a grant from being answered twice or with two texts, across crashes and
    restarts between any two steps. Grants are numbered in the order the hub first shows them. */
module CodexBridge {
  import opened Wrappers

  type Grant = nat

  /** How a response file is read: any deterministic reading, which may find nothing. */
  type Reader = Option<string> -> Option<string>

  /** `SAY text` and `END text` are the two actions. */
  predicate IsAction(text: string) {
    |text| >= 4 && (text[..4] == "SAY " || text[..4] == "END ")
  }

  datatype Files = Files(done: Option<Grant>, pending: Option<Grant>, response: Option<string>)

  /** Where the loop is. Outside `Down`, `done` and `pending` are the copies in memory. */
  datatype Place =
    | Down
    | Idle
    | Deciding(grant: Grant)
    | Reading(grant: Grant)
    | Preserving(grant: Grant, text: string)
    | Remembering(grant: Grant, text: string)
    | Resuming(grant: Grant)
    | Sending(grant: Grant, text: string)
    | Finishing(grant: Grant)
    | Unlinking(grant: Grant)

  datatype State = State(
    files: Files,
    place: Place,
    done: Option<Grant>,
    pending: Option<Grant>,
    shown: Grant,                   // the newest grant the hub has shown
    sends: seq<(Grant, string)>,    // every transmission, delivered or not
    completed: set<Grant>)          // grants ever recorded done

  /** What the environment decides at a step. */
  datatype Choice =
    | Crash(response: Option<string>)         // power lost; a running model may have written its file
    | Poll(grant: Grant)                      // our turn, under this grant
    | Codex(response: Option<string>, ok: bool)
    | Proceed(ok: bool)                       // the step at hand succeeds or fails

  const START := State(Files(None, None, None), Down, None, None, 0, [], {})

  function Step(s: State, c: Choice, read: Reader): State {
    match (s.place, c)
    case (Down, Proceed(_)) => s.(place := Idle, done := s.files.done, pending := s.files.pending)
    case (Down, _) => s
    case (Deciding(_), Crash(response)) => s.(place := Down, files := s.files.(response := response))
    case (_, Crash(_)) => s.(place := Down)
    case (Idle, Poll(g)) =>
      var t := s.(shown := if g > s.shown then g else s.shown);
      if s.done == Some(g) then t
      else if s.pending != Some(g) then t.(place := Deciding(g))
      else t.(place := Resuming(g))
    case (Deciding(g), Codex(response, ok)) =>
      s.(files := s.files.(response := response), place := if ok then Reading(g) else Idle)
    case (Reading(g), Proceed(ok)) =>
      var text := read(s.files.response);
      if ok && text.Some? && IsAction(text.value) then s.(place := Preserving(g, text.value)) else s.(place := Idle)
    case (Preserving(g, text), Proceed(ok)) =>
      if ok then s.(files := s.files.(pending := Some(g)), place := Remembering(g, text)) else s.(place := Idle)
    case (Remembering(g, text), Proceed(_)) => s.(pending := Some(g), place := Sending(g, text))
    case (Resuming(g), Proceed(ok)) =>
      var text := read(s.files.response);
      if !ok || text.None? then s.(place := Idle)
      else if IsAction(text.value) then s.(place := Sending(g, text.value))
      else s.(place := Finishing(g))
    case (Sending(g, text), Proceed(ok)) =>
      s.(sends := s.sends + [(g, text)], place := if ok then Finishing(g) else Idle)
    case (Finishing(g), Proceed(ok)) =>
      if ok then s.(files := s.files.(done := Some(g)), done := Some(g), completed := s.completed + {g}, place := Unlinking(g))
      else s.(place := Unlinking(g))
    case (Unlinking(g), Proceed(ok)) =>
      s.(files := s.files.(pending := if ok then None else s.files.pending), pending := None, place := Idle)
    case _ => s
  }

  /** The two assumptions: recording a grant as done fails only by a crash, and the hub
      never goes back to an earlier grant. */
  predicate Careful(s: State, c: Choice) {
    && (s.place.Finishing? && c.Proceed? ==> c.ok)
    && (s.place.Idle? && c.Poll? ==> c.grant >= s.shown)
  }

  function Run(choices: seq<Choice>, read: Reader): State {
    if choices == [] then START
    else Step(Run(choices[..|choices| - 1], read), choices[|choices| - 1], read)
  }

  ghost predicate CarefulRun(choices: seq<Choice>, read: Reader) {
    forall k | 0 <= k < |choices| :: Careful(Run(choices[..k], read), choices[k])
  }

  // ----- what is promised -----

  /** All transmissions for one grant carry the same text. */
  ghost predicate OneText(sends: seq<(Grant, string)>) {
    forall i, j | 0 <= i < |sends| && 0 <= j < |sends| :: sends[i].0 == sends[j].0 ==> sends[i].1 == sends[j].1
  }

  // ----- the invariant -----

  ghost predicate SentOnly(s: State, g: Grant, text: string) {
    forall i | 0 <= i < |s.sends| :: s.sends[i].0 == g ==> s.sends[i].1 == text
  }

  ghost predicate Unsent(s: State, g: Grant) {
    forall i | 0 <= i < |s.sends| :: s.sends[i].0 != g
  }

  /** If anything was sent for the newest grant, either it is recorded done, or the grant
      is pending and the response file still reads as what was sent. */
  ghost predicate Covered(s: State, read: Reader) {
    || Unsent(s, s.shown)
    || s.files.done == Some(s.shown)
    || (s.files.pending == Some(s.shown) && read(s.files.response).Some? && SentOnly(s, s.shown, read(s.files.response).value))
  }

  /** The copies in memory: a grant is pending on file but not in memory only when it is
      about to be remembered, or is already done. */
  predicate MemoryAgrees(s: State) {
    && s.done == s.files.done
    && (s.pending.Some? ==> s.pending == s.files.pending || s.place.Remembering?)
    && (s.files.pending.Some? && s.pending != s.files.pending ==>
          s.place.Remembering? || s.files.pending == s.files.done || s.files.pending.value < s.shown)
  }

  predicate Unfinished(s: State, g: Grant) {
    g == s.shown && s.files.done != Some(g) && g !in s.completed
  }

  /** The grant at hand, before its response is preserved. */
  ghost predicate Undecided(s: State, g: Grant) {
    Unfinished(s, g) && Unsent(s, g) && s.files.pending != Some(g)
  }

  ghost predicate Sent(s: State, g: Grant) {
    exists i :: 0 <= i < |s.sends| && s.sends[i].0 == g
  }

  /** The response file reads as an action. */
  predicate ActionKept(s: State, read: Reader) {
    var text := read(s.files.response);
    text.Some? && IsAction(text.value)
  }

  ghost predicate PlaceInv(s: State, read: Reader) {
    match s.place
    case Down => true
    case Idle => true
    case Deciding(g) => Undecided(s, g)
    case Reading(g) => Undecided(s, g)
    case Preserving(g, text) => Undecided(s, g) && ActionKept(s, read) && read(s.files.response) == Some(text)
    case Remembering(g, text) =>
      Unfinished(s, g) && Unsent(s, g) && s.files.pending == Some(g) && read(s.files.response) == Some(text)
    case Resuming(g) => Unfinished(s, g) && s.files.pending == Some(g)
    case Sending(g, text) =>
      && Unfinished(s, g) && s.files.pending == Some(g) && read(s.files.response) == Some(text) && SentOnly(s, g, text)
    case Finishing(g) => Unfinished(s, g) && s.files.pending == Some(g) && Sent(s, g)
    case Unlinking(g) => g == s.shown && s.files.done == Some(g) && s.files.pending == Some(g)
  }

  ghost predicate Inv(s: State, read: Reader) {
    && OneText(s.sends)
    && (forall i | 0 <= i < |s.sends| :: s.sends[i].0 <= s.shown)
    && (forall g | g in s.completed :: g <= s.shown && Sent(s, g))
    && (s.shown in s.completed ==> s.files.done == Some(s.shown))
    && (s.files.pending.Some? ==> s.files.pending.value <= s.shown)
    && (s.files.done.Some? ==> s.files.done.value <= s.shown)
    && (s.files.pending == Some(s.shown) && s.files.done != Some(s.shown) ==> ActionKept(s, read))
    && Covered(s, read)
    && (!s.place.Down? ==> MemoryAgrees(s))
    && PlaceInv(s, read)
  }

  lemma SendKeepsOneText(s: State, g: Grant, text: string)
    requires OneText(s.sends) && SentOnly(s, g, text)
    ensures OneText(s.sends + [(g, text)]) && SentOnly(s.(sends := s.sends + [(g, text)]), g, text)
  {
  }

  lemma PollKeepsInv(s: State, g: Grant, read: Reader)
    requires Inv(s, read) && s.place.Idle? && g >= s.shown
    ensures Inv(Step(s, Poll(g), read), read)
  {
    var t := Step(s, Poll(g), read);
    if g > s.shown {
      assert Unsent(t, g);
    }
  }

  lemma CrashKeepsInv(s: State, c: Choice, read: Reader)
    requires Inv(s, read) && (c.Crash? || s.place.Down?)
    ensures Inv(Step(s, c, read), read)
  {
  }

  lemma DecidingKeepsInv(s: State, c: Choice, read: Reader)
    requires Inv(s, read) && (s.place.Deciding? || s.place.Reading? || s.place.Preserving? || s.place.Remembering?) && !c.Crash?
    ensures Inv(Step(s, c, read), read)
  {
    var t := Step(s, c, read);
    assert Unsent(s, s.shown) && t.sends == s.sends && t.shown == s.shown;
    assert Unsent(t, t.shown);
  }

  lemma SendingKeepsInv(s: State, ok: bool, read: Reader)
    requires Inv(s, read) && s.place.Sending?
    ensures Inv(Step(s, Proceed(ok), read), read)
  {
    SendKeepsOneText(s, s.place.grant, s.place.text);
    var t := Step(s, Proceed(ok), read);
    SentGrows(s, t, s.place.grant);
    forall g | g in s.completed ensures Sent(t, g) {
      SentGrows(s, t, g);
    }
  }

  lemma SentGrows(s: State, t: State, g: Grant)
    requires |s.sends| < |t.sends| && t.sends[..|s.sends|] == s.sends
    requires Sent(s, g) || t.sends[|s.sends|].0 == g
    ensures Sent(t, g)
  {
    if Sent(s, g) {
      var i :| 0 <= i < |s.sends| && s.sends[i].0 == g;
      assert t.sends[i] == t.sends[..|s.sends|][i];
    }
  }

  lemma EndingKeepsInv(s: State, c: Choice, read: Reader)
    requires Inv(s, read) && Careful(s, c) && (s.place.Resuming? || s.place.Finishing? || s.place.Unlinking?) && c.Proceed?
    ensures Inv(Step(s, c, read), read)
  {
  }

  lemma StepKeepsInv(s: State, c: Choice, read: Reader)
    requires Inv(s, read) && Careful(s, c)
    ensures Inv(Step(s, c, read), read)
  {
    if c.Crash? || s.place.Down? {
      CrashKeepsInv(s, c, read);
    } else if s.place.Idle? {
      if c.Poll? {
        PollKeepsInv(s, c.grant, read);
      }
    } else if s.place.Deciding? || s.place.Reading? || s.place.Preserving? || s.place.Remembering? {
      DecidingKeepsInv(s, c, read);
    } else if c.Proceed? {
      if s.place.Sending? {
        SendingKeepsInv(s, c.ok, read);
      } else {
        EndingKeepsInv(s, c, read);
      }
    }
  }

  lemma {:induction false} CarefulRunKeepsInv(choices: seq<Choice>, read: Reader)
    requires CarefulRun(choices, read)
    ensures Inv(Run(choices, read), read)
  {
    if choices != [] {
      var front := choices[..|choices| - 1];
      forall k | 0 <= k < |front| ensures Careful(Run(front[..k], read), front[k]) {
        assert front[..k] == choices[..k];
      }
      CarefulRunKeepsInv(front, read);
      StepKeepsInv(Run(front, read), choices[|choices| - 1], read);
    }
  }

  /** What is about to be sent answers a grant that is pending and not done, with the text that
      the response file holds. */
  predicate SendsPreserved(s: State, read: Reader) {
    match s.place
    case Sending(g, text) => g !in s.completed && s.files.pending == Some(g) && read(s.files.response) == Some(text)
    case _ => true
  }

  /** Main theorem: across crashes and restarts anywhere, every careful run sends one text
      per grant, always the preserved response, and nothing for a grant recorded done. */
  lemma OneAnswerPerGrant(choices: seq<Choice>, read: Reader)
    requires CarefulRun(choices, read)
    ensures var s := Run(choices, read);
            OneText(s.sends) && SendsPreserved(s, read)
  {
    CarefulRunKeepsInv(choices, read);
    InvIsEnough(Run(choices, read), read);
  }

  lemma InvIsEnough(s: State, read: Reader)
    requires Inv(s, read)
    ensures OneText(s.sends) && SendsPreserved(s, read)
  {
  }

  /** Across crashes and restarts anywhere, no grant is recorded done without its answer having
      been sent: a preserved response always reads as an action until then. */
  lemma EveryDoneGrantIsAnswered(choices: seq<Choice>, read: Reader, g: Grant)
    requires CarefulRun(choices, read) && g in Run(choices, read).completed
    ensures exists i :: 0 <= i < |Run(choices, read).sends| && Run(choices, read).sends[i].0 == g
  {
    CarefulRunKeepsInv(choices, read);
    assert Sent(Run(choices, read), g);
  }

  // ----- an answer from beginning to end, and why both assumptions are needed -----

  /** The choices by which an idle bridge decides on a new grant and transmits its answer. */
  function Answer(g: Grant, text: string, sent: bool): (cs: seq<Choice>)
    ensures |cs| == 6
  {
    [Poll(g), Codex(Some(text), true), Proceed(true), Proceed(true), Proceed(true), Proceed(sent)]
  }

  lemma RunExtends(choices: seq<Choice>, c: Choice, read: Reader)
    ensures Run(choices + [c], read) == Step(Run(choices, read), c, read)
  {
    assert (choices + [c])[..|choices|] == choices;
  }

  /** The first half of an answer: decided, read and about to be preserved. */
  lemma AnswerDecides(choices: seq<Choice>, g: Grant, text: string, read: Reader)
    requires var s := Run(choices, read); s.place.Idle? && s.done != Some(g) && s.pending != Some(g)
    requires IsAction(text) && read(Some(text)) == Some(text)
    ensures var s, t := Run(choices, read), Run(choices + [Poll(g)] + [Codex(Some(text), true)] + [Proceed(true)], read);
            t.sends == s.sends && t.done == s.done && t.place == Preserving(g, text)
  {
    RunExtends(choices, Poll(g), read);
    RunExtends(choices + [Poll(g)], Codex(Some(text), true), read);
    RunExtends(choices + [Poll(g)] + [Codex(Some(text), true)], Proceed(true), read);
  }

  lemma AnswerSends(choices: seq<Choice>, g: Grant, text: string, sent: bool, read: Reader)
    requires var s := Run(choices, read); s.place.Idle? && s.done != Some(g) && s.pending != Some(g)
    requires IsAction(text) && read(Some(text)) == Some(text)
    ensures var s, t := Run(choices, read), Run(choices + Answer(g, text, sent), read);
            && t.sends == s.sends + [(g, text)] && t.done == s.done && t.pending == Some(g)
            && t.place == if sent then Finishing(g) else Idle
  {
    AnswerDecides(choices, g, text, read);
    var c3 := choices + [Poll(g)] + [Codex(Some(text), true)] + [Proceed(true)];
    RunExtends(c3, Proceed(true), read);
    RunExtends(c3 + [Proceed(true)], Proceed(true), read);
    RunExtends(c3 + [Proceed(true)] + [Proceed(true)], Proceed(sent), read);
    assert c3 + [Proceed(true)] + [Proceed(true)] + [Proceed(sent)] == choices + Answer(g, text, sent);
  }

  /** A pending grant is resumed with the preserved text, without deciding again. */
  lemma ResumeSends(choices: seq<Choice>, g: Grant, text: string, sent: bool, read: Reader)
    requires var s := Run(choices, read); s.place.Idle? && s.done != Some(g) && s.pending == Some(g)
    requires IsAction(text) && read(Run(choices, read).files.response) == Some(text)
    ensures var s, t := Run(choices, read), Run(choices + [Poll(g)] + [Proceed(true)] + [Proceed(sent)], read);
            t.sends == s.sends + [(g, text)] && t.files == s.files && t.place == if sent then Finishing(g) else Idle
  {
    RunExtends(choices, Poll(g), read);
    RunExtends(choices + [Poll(g)], Proceed(true), read);
    RunExtends(choices + [Poll(g)] + [Proceed(true)], Proceed(sent), read);
  }

  /** A sent answer is recorded and forgotten, on file and in memory, and the grant is then
      ignored for as long as it is shown. */
  lemma AnswerIsRecorded(choices: seq<Choice>, g: Grant, read: Reader)
    requires Run(choices, read).place == Finishing(g)
    ensures var s, t := Run(choices, read), Run(choices + [Proceed(true)] + [Proceed(true)], read);
            && t.place == Idle && t.sends == s.sends && t.done == t.files.done == Some(g) && g in t.completed
            && t.pending == t.files.pending == None
            && Run(choices + [Proceed(true)] + [Proceed(true)] + [Poll(g)], read) == t.(shown := if g > t.shown then g else t.shown)
  {
    RunExtends(choices, Proceed(true), read);
    RunExtends(choices + [Proceed(true)], Proceed(true), read);
    RunExtends(choices + [Proceed(true)] + [Proceed(true)], Poll(g), read);
  }

  /** A response that is no action is thrown away, and the grant is decided again. */
  lemma NoActionIsDecidedAgain(choices: seq<Choice>, g: Grant, read: Reader)
    requires Run(choices, read).place == Reading(g) && !ActionKept(Run(choices, read), read)
    requires Run(choices, read).pending != Some(g) && Run(choices, read).done != Some(g)
    ensures var s, t := Run(choices, read), Run(choices + [Proceed(true)] + [Poll(g)], read);
            t.place == Deciding(g) && t.sends == s.sends && t.files == s.files
  {
    RunExtends(choices, Proceed(true), read);
    RunExtends(choices + [Proceed(true)], Poll(g), read);
  }

  /** A grant is answered; recording it fails, the loop forgets that it was pending, and
      the same grant is answered again with another text. */
  lemma UnrecordedGrantIsAnsweredTwice(first: string, second: string, read: Reader)
    requires IsAction(first) && IsAction(second) && first != second
    requires read(Some(first)) == Some(first) && read(Some(second)) == Some(second)
    ensures var cs := [Proceed(true)] + Answer(1, first, true) + [Proceed(false)] + [Proceed(true)] + Answer(1, second, true);
            !OneText(Run(cs, read).sends)
  {
    RunExtends([], Proceed(true), read);
    assert [] + [Proceed(true)] == [Proceed(true)];
    AnswerSends([Proceed(true)], 1, first, true, read);
    var c1 := [Proceed(true)] + Answer(1, first, true);
    RunExtends(c1, Proceed(false), read);
    RunExtends(c1 + [Proceed(false)], Proceed(true), read);
    var c2 := c1 + [Proceed(false)] + [Proceed(true)];
    AnswerSends(c2, 1, second, true, read);
    var sends := Run(c2 + Answer(1, second, true), read).sends;
    assert sends == [(1, first), (1, second)];
    assert sends[0].0 == sends[1].0;
  }

  /** Neither transmission is acknowledged; the hub moves on to another grant, whose decision
      replaces the pending one, and then shows the first grant again. */
  lemma RewoundGrantIsAnsweredTwice(first: string, second: string, read: Reader)
    requires IsAction(first) && IsAction(second) && first != second
    requires read(Some(first)) == Some(first) && read(Some(second)) == Some(second)
    ensures var cs := [Proceed(true)] + Answer(1, first, false) + Answer(2, first, false) + Answer(1, second, false);
            !OneText(Run(cs, read).sends)
  {
    RunExtends([], Proceed(true), read);
    assert [] + [Proceed(true)] == [Proceed(true)];
    AnswerSends([Proceed(true)], 1, first, false, read);
    var c1 := [Proceed(true)] + Answer(1, first, false);
    AnswerSends(c1, 2, first, false, read);
    var c2 := c1 + Answer(2, first, false);
    AnswerSends(c2, 1, second, false, read);
    var sends := Run(c2 + Answer(1, second, false), read).sends;
    assert sends == [(1, first), (2, first), (1, second)];
    assert sends[0].0 == sends[2].0;
  }
}
