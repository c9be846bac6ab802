/** What holds over every run of handled commands: who gets the turn, what the transcript
    says about it, and what a conversation end rests on. */
module CouncilRuns {
  import opened Wrappers
  import opened CouncilSpec

  // ----- arbitration -----

  lemma ModuloOnce(a: nat, n: nat)
    requires a < 2 * n
    ensures a % n == if a < n then a else a - n
  {
    if a >= n {
      assert a / n == 1;
    }
  }

  lemma ScannedAtDistance(count: nat, next: nat, checked: nat)
    requires next < count && checked < count
    ensures var i := (next + checked) % count; i < count && Distance(count, next, i) == checked
  {
    ModuloOnce(next + checked, count);
  }

  lemma PassingComesCloser(count: nat, from: nat, i: nat, c: nat)
    requires from < count && i < count && c < count && Distance(count, from, i) < Distance(count, from, c)
    ensures Distance(count, (i + 1) % count, c) < Distance(count, from, c)
  {
    ModuloOnce(i + 1, count);
  }

  /** The scan finds the nearest eligible contact, and nobody only if nobody is eligible. */
  lemma {:induction false} ScanFindsNearest(book: Book, online: seq<bool>, previous: string, next: nat, checked: nat)
    requires |book| == |online| && next < |book| && checked <= |book|
    ensures match Scan(book, online, previous, next, checked)
            case Some(i) =>
              && Eligible(book, online, previous, i)
              && forall j | 0 <= j < |book| && Eligible(book, online, previous, j) && Distance(|book|, next, j) >= checked ::
                   Distance(|book|, next, i) <= Distance(|book|, next, j)
            case None =>
              forall j | 0 <= j < |book| && Distance(|book|, next, j) >= checked :: !Eligible(book, online, previous, j)
    decreases |book| - checked
  {
    if checked < |book| {
      ScannedAtDistance(|book|, next, checked);
      var i := (next + checked) % |book|;
      assert forall j | 0 <= j < |book| && Distance(|book|, next, j) == checked :: j == i;
      if !Eligible(book, online, previous, i) {
        ScanFindsNearest(book, online, previous, next, checked + 1);
      }
    }
  }

  /** One `arbitration_next` call: who spoke before, and who is online. */
  datatype Turn = Turn(previous: string, online: seq<bool>)

  predicate TurnsFit(book: Book, turns: seq<Turn>) {
    forall t | 0 <= t < |turns| :: |turns[t].online| == |book|
  }

  /** The hub before call `k`. */
  function HubAt(book: Book, h: Hub, turns: seq<Turn>, k: nat): (r: Hub)
    requires Shaped(book, h) && TurnsFit(book, turns) && k <= |turns|
    ensures Shaped(book, r)
    decreases k, 0
  {
    if k == 0 then h else Called(book, h, turns, k - 1).0
  }

  /** Call `k`: the hub after it, and who got the turn. */
  function Called(book: Book, h: Hub, turns: seq<Turn>, k: nat): (r: (Hub, Option<nat>))
    requires Shaped(book, h) && TurnsFit(book, turns) && k < |turns|
    ensures Shaped(book, r.0)
    decreases k, 1
  {
    Arbitrate(book, HubAt(book, h, turns, k).(online := turns[k].online), turns[k].previous)
  }

  /** Call `k` grants the turn to `c`, or names `c` as the previous speaker. */
  predicate Served(book: Book, h: Hub, turns: seq<Turn>, k: nat, c: nat)
    requires Shaped(book, h) && TurnsFit(book, turns) && k < |turns| && c < |book|
  {
    var (after, granted) := Called(book, h, turns, k);
    turns[k].previous == book[c].name || (granted == Some(c) && after.speaker == book[c].name)
  }

  /** A call that serves someone else brings the scan strictly closer to `c`. */
  lemma CallComesCloser(book: Book, h: Hub, turns: seq<Turn>, k: nat, c: nat)
    requires Shaped(book, h) && TurnsFit(book, turns) && k < |turns| && c < |book|
    requires turns[k].online[c] && !Served(book, h, turns, k, c)
    ensures Distance(|book|, HubAt(book, h, turns, k + 1).next, c) < Distance(|book|, HubAt(book, h, turns, k).next, c)
  {
    var from := HubAt(book, h, turns, k).next;
    ScanFindsNearest(book, turns[k].online, turns[k].previous, from, 0);
    assert Eligible(book, turns[k].online, turns[k].previous, c);
    var i := Scan(book, turns[k].online, turns[k].previous, from, 0).value;
    assert Called(book, h, turns, k).1 == Some(i);
    PassingComesCloser(|book|, from, i, c);
  }

  lemma {:induction false} ServedWithinDistance(book: Book, h: Hub, turns: seq<Turn>, k: nat, c: nat)
    requires Shaped(book, h) && TurnsFit(book, turns) && c < |book| && k <= |turns|
    requires forall t | 0 <= t < |turns| :: turns[t].online[c]
    requires k + Distance(|book|, HubAt(book, h, turns, k).next, c) < |turns|
    ensures exists j | k <= j <= k + Distance(|book|, HubAt(book, h, turns, k).next, c) :: Served(book, h, turns, j, c)
    decreases |turns| - k
  {
    if !Served(book, h, turns, k, c) {
      CallComesCloser(book, h, turns, k, c);
      ServedWithinDistance(book, h, turns, k + 1, c);
    }
  }

  /** Bounded waiting: from any hub, a contact that stays online is granted the turn, or is
      itself the previous speaker, within as many consecutive calls as there are contacts. */
  lemma BoundedWaiting(book: Book, h: Hub, turns: seq<Turn>, c: nat)
    requires Shaped(book, h) && TurnsFit(book, turns) && c < |book| <= |turns|
    requires forall t | 0 <= t < |turns| :: turns[t].online[c]
    ensures exists k | 0 <= k < |book| :: Served(book, h, turns, k, c)
  {
    ServedWithinDistance(book, h, turns, 0, c);
  }

  // ----- the transcript and the turn -----

  /** `arbitration_next` found nobody since the last recorded grant, end or restart. */
  function NobodySince(history: seq<Entry>): bool {
    if history == [] then false
    else
      match history[|history| - 1]
      case Nobody => true
      case Grant(_) => false
      case OfflineGrant(_, _) => false
      case ConversationEnd => false
      case Restarted => false
      case _ => NobodySince(history[..|history| - 1])
  }

  /** The turn in memory, as the history determines it. */
  function TurnOf(history: seq<Entry>): string {
    if NobodySince(history) then "" else LastSpeaker(history)
  }

  lemma TurnOfAppend(history: seq<Entry>, e: Entry)
    ensures TurnOf(history + [e]) ==
              match e
              case Nobody => ""
              case Grant(name) => Clip(name)
              case OfflineGrant(_, name) => Clip(name)
              case ConversationEnd => ""
              case Restarted => LastSpeaker(history)
              case _ => TurnOf(history)
  {
    assert (history + [e])[..|history|] == history;
  }

  predicate TurnAgrees(h: Hub) {
    h.speaker == TurnOf(h.history)
  }

  lemma AcceptKeepsTurn(book: Book, h: Hub, from: nat, target: Option<nat>, net: Network)
    requires Shaped(book, h) && from < |book| && (target.Some? ==> target.value < |book|) && TurnAgrees(h)
    ensures TurnAgrees(Accept(book, h, from, target, net))
  {
    if target != Some(from) {
      var sent := h.(online := Delivered(book, h.online, from, target, net));
      if target.None? {
        var (after, next) := Arbitrate(book, sent, book[from].name);
        TurnOfAppend(h.history, Nobody);
        if next.Some? {
          GrantThenMessage(h.history, book[next.value].name, from);
        }
      } else {
        GrantThenMessage(h.history, book[target.value].name, from);
      }
    }
  }

  lemma GrantThenMessage(history: seq<Entry>, name: string, from: nat)
    ensures TurnOf(history + [Grant(name)]) == Clip(name)
    ensures TurnOf(history + [Grant(name)] + [Message(from)]) == Clip(name)
  {
    TurnOfAppend(history, Grant(name));
    TurnOfAppend(history + [Grant(name)], Message(from));
  }

  lemma StatusKeepsTurn(book: Book, h: Hub, presence: seq<bool>, net: Network)
    requires Shaped(book, h) && |presence| == |book| && TurnAgrees(h)
    ensures TurnAgrees(Status(book, h, presence, net))
  {
    TurnOfAppend(h.history, Nobody);
    var (after, next) := Arbitrate(book, h.(online := presence), h.speaker);
    if next.Some? {
      TurnOfAppend(h.history, OfflineGrant(h.speaker, book[next.value].name));
    }
  }

  lemma ClosureKeepsTurn(book: Book, h: Hub, person: nat, c: Command)
    requires Shaped(book, h) && person < |book| && Fits(book, c) && TurnAgrees(h)
    ensures c.ProposeEnd? ==> TurnAgrees(Propose(book, h, person, c.recent))
    ensures c.VoteEnd? ==> TurnAgrees(Vote(book, h, person, c.close))
  {
    if c.ProposeEnd? {
      TurnOfAppend(h.history, EndProposal(person, MembersOf(Present(book, h.online, c.recent))));
    } else if c.VoteEnd? {
      var voted := h.history + [EndVote(person, c.close)];
      TurnOfAppend(h.history, EndVote(person, c.close));
      TurnOfAppend(voted + [EndCancelled(person)], Grant(book[person].name));
    }
  }

  lemma HandleKeepsTurn(book: Book, h: Hub, person: nat, c: Command, net: Network)
    requires Shaped(book, h) && person < |book| && Fits(book, c) && TurnAgrees(h)
    ensures TurnAgrees(Handle(book, h, person, c, net))
  {
    var seen := h.(online := h.online[person := true]);
    match c
    case Say(target) => AcceptKeepsTurn(book, seen, person, target, net);
    case Initiate(target, _) => AcceptKeepsTurn(book, seen, person, target, net);
    case StatusCommand(presence) => StatusKeepsTurn(book, seen, presence, net);
    case ProposeEnd(_) => ClosureKeepsTurn(book, seen, person, c);
    case VoteEnd(_) => ClosureKeepsTurn(book, seen, person, c);
    case GrantTo(name) => TurnOfAppend(h.history, Grant(name));
    case Restart => TurnOfAppend(h.history, Restarted);
    case BadVote =>
    case Other =>
  }

  /** After every run, folding the transcript gives the speaker in memory, except that memory
      is empty when the arbitration has found nobody since. */
  lemma {:induction false} TranscriptRestoresTurn(book: Book, inputs: seq<Input>)
    requires InputsFit(book, inputs) && forall k | 0 <= k < |book| :: |book[k].name| < NAME_LENGTH
    ensures var h := Run(book, inputs);
            h.speaker == if NobodySince(h.history) then "" else LastSpeaker(h.history)
  {
    if inputs != [] {
      var front, last := inputs[..|inputs| - 1], inputs[|inputs| - 1];
      TranscriptRestoresTurn(book, front);
      HandleKeepsTurn(book, Run(book, front), last.person, last.command, last.net);
    }
  }

  // ----- closure -----

  /** Entries that leave an open proposal open. */
  predicate Quiet(e: Entry) {
    match e
    case EndVote(_, close) => close
    case EndProposal(_, _) => false
    case EndCancelled(_) => false
    case ConversationEnd => false
    case Restarted => false
    case _ => true
  }

  ghost predicate VotedClose(history: seq<Entry>, after: nat, i: nat) {
    exists j | after < j < |history| :: history[j] == EndVote(i, true)
  }

  /** Since entry `p`, a proposal, nobody voted to continue or reopened the question. */
  ghost predicate StandsOpen(history: seq<Entry>, p: nat) {
    p < |history| && history[p].EndProposal? && forall j | p < j < |history| :: Quiet(history[j])
  }

  /** The prefix justifies ending the conversation: an open proposal, and a close vote of
      every expected participant but the proposer. */
  ghost predicate Unanimous(history: seq<Entry>) {
    exists p: nat :: StandsOpen(history, p) &&
      forall i | i in history[p].expected && i != history[p].proposer :: VotedClose(history, p, i)
  }

  ghost predicate EndsJustified(history: seq<Entry>) {
    forall e | 0 <= e < |history| :: history[e].ConversationEnd? ==> Unanimous(history[..e])
  }

  ghost predicate OpenInv(h: Hub) {
    h.active ==>
      && StandsOpen(h.history, h.openedAt)
      && h.history[h.openedAt] == EndProposal(h.proposer, MembersOf(h.expected))
      && forall i | 0 <= i < |h.votes| && h.votes[i] == 1 && i != h.proposer :: VotedClose(h.history, h.openedAt, i)
  }

  ghost predicate ClosureInv(h: Hub) {
    |h.expected| == |h.votes| && OpenInv(h) && EndsJustified(h.history)
  }

  lemma EndsJustifiedAppend(history: seq<Entry>, e: Entry)
    requires EndsJustified(history) && (e.ConversationEnd? ==> Unanimous(history))
    ensures EndsJustified(history + [e])
  {
    forall k | 0 <= k < |history + [e]| && (history + [e])[k].ConversationEnd?
      ensures Unanimous((history + [e])[..k])
    {
      if k < |history| {
        assert (history + [e])[..k] == history[..k];
      } else {
        assert (history + [e])[..k] == history;
      }
    }
  }

  lemma VotedCloseGrows(history: seq<Entry>, e: Entry, after: nat, i: nat)
    requires VotedClose(history, after, i)
    ensures VotedClose(history + [e], after, i)
  {
    var j :| after < j < |history| && history[j] == EndVote(i, true);
    assert (history + [e])[j] == EndVote(i, true);
  }

  /** A quiet entry changes nothing about the closure. */
  lemma QuietKeepsClosure(h: Hub, e: Entry)
    requires ClosureInv(h) && Quiet(e)
    ensures ClosureInv(Record(h, e))
  {
    EndsJustifiedAppend(h.history, e);
    if h.active {
      forall i | 0 <= i < |h.votes| && h.votes[i] == 1 && i != h.proposer
        ensures VotedClose(h.history + [e], h.openedAt, i)
      {
        VotedCloseGrows(h.history, e, h.openedAt, i);
      }
    }
  }

  /** An entry recorded while no proposal stands keeps the invariant, unless it is an end. */
  lemma InactiveKeepsClosure(h: Hub, e: Entry)
    requires ClosureInv(h) && !h.active && !e.ConversationEnd?
    ensures ClosureInv(Record(h, e))
  {
    EndsJustifiedAppend(h.history, e);
  }

  lemma FinishIsJustified(h: Hub)
    requires ClosureInv(h) && h.active && Complete(h)
    ensures Unanimous(h.history) && ClosureInv(Finish(h))
  {
    var p := h.openedAt;
    forall i | i in h.history[p].expected && i != h.history[p].proposer ensures VotedClose(h.history, p, i) {
      assert h.expected[i] && h.votes[i] == 1;
    }
    EndsJustifiedAppend(h.history, ConversationEnd);
  }

  lemma AcceptKeepsClosure(book: Book, h: Hub, from: nat, target: Option<nat>, net: Network)
    requires Shaped(book, h) && from < |book| && (target.Some? ==> target.value < |book|) && ClosureInv(h)
    ensures ClosureInv(Accept(book, h, from, target, net))
  {
    if target != Some(from) {
      var sent := h.(online := Delivered(book, h.online, from, target, net));
      QuietKeepsClosure(h, Nobody);
      if target.None? {
        var (_, next) := Arbitrate(book, sent, book[from].name);
        if next.Some? {
          QuietKeepsClosure(h, Grant(book[next.value].name));
          QuietKeepsClosure(Record(h, Grant(book[next.value].name)), Message(from));
        }
      } else {
        QuietKeepsClosure(h, Grant(book[target.value].name));
        QuietKeepsClosure(Record(h, Grant(book[target.value].name)), Message(from));
      }
    }
  }

  lemma StatusKeepsClosure(book: Book, h: Hub, presence: seq<bool>, net: Network)
    requires Shaped(book, h) && |presence| == |book| && ClosureInv(h)
    ensures ClosureInv(Status(book, h, presence, net))
  {
    QuietKeepsClosure(h, Nobody);
    var (_, next) := Arbitrate(book, h.(online := presence), h.speaker);
    if next.Some? {
      QuietKeepsClosure(h, OfflineGrant(h.speaker, book[next.value].name));
    }
  }

  lemma ProposeKeepsClosure(book: Book, h: Hub, person: nat, recent: seq<bool>)
    requires Shaped(book, h) && person < |book| && |recent| == |book| && ClosureInv(h)
    ensures ClosureInv(Propose(book, h, person, recent))
  {
    if book[person].priority > 0 && HasTurn(h, book[person].name) && !h.active {
      var present := Present(book, h.online, recent);
      var e := EndProposal(person, MembersOf(present));
      EndsJustifiedAppend(h.history, e);
      var asked := Record(h.(
        active := true, proposer := person, expected := present, openedAt := |h.history|,
        votes := OpeningVotes(present, person)), e);
      assert ClosureInv(asked);
      if Complete(asked) {
        FinishIsJustified(asked);
      }
    }
  }

  lemma VoteKeepsClosure(book: Book, h: Hub, person: nat, close: bool)
    requires Shaped(book, h) && person < |book| && ClosureInv(h)
    ensures ClosureInv(Vote(book, h, person, close))
  {
    if h.active && h.expected[person] {
      var e := EndVote(person, close);
      if close {
        QuietKeepsClosure(h, e);
        var voted := Record(h.(votes := h.votes[person := 1]), e);
        assert voted.history[|h.history|] == EndVote(person, true);
        assert ClosureInv(voted);
        if Complete(voted) {
          FinishIsJustified(voted);
        }
      } else {
        var off := h.(active := false, votes := h.votes[person := -1], speaker := book[person].name);
        InactiveKeepsClosure(off, e);
        InactiveKeepsClosure(Record(off, e), EndCancelled(person));
        InactiveKeepsClosure(Record(Record(off, e), EndCancelled(person)), Grant(book[person].name));
      }
    }
  }

  lemma HandleKeepsClosure(book: Book, h: Hub, person: nat, c: Command, net: Network)
    requires Shaped(book, h) && person < |book| && Fits(book, c) && ClosureInv(h)
    ensures ClosureInv(Handle(book, h, person, c, net))
  {
    var seen := h.(online := h.online[person := true]);
    match c
    case Say(target) => AcceptKeepsClosure(book, seen, person, target, net);
    case Initiate(target, _) => AcceptKeepsClosure(book, seen, person, target, net);
    case StatusCommand(presence) => StatusKeepsClosure(book, seen, presence, net);
    case ProposeEnd(recent) => ProposeKeepsClosure(book, seen, person, recent);
    case VoteEnd(close) => VoteKeepsClosure(book, seen, person, close);
    case GrantTo(name) => QuietKeepsClosure(h, Grant(name));
    case Restart => InactiveKeepsClosure(h.(active := false), Restarted);
    case BadVote =>
    case Other =>
  }

  /** In every run, each conversation end rests on an open proposal after which nobody voted
      to continue and every expected participant but the proposer voted to close. */
  lemma {:induction false} EndsAreUnanimous(book: Book, inputs: seq<Input>)
    requires InputsFit(book, inputs) && forall k | 0 <= k < |book| :: |book[k].name| < NAME_LENGTH
    ensures ClosureInv(Run(book, inputs))
  {
    if inputs != [] {
      var front, last := inputs[..|inputs| - 1], inputs[|inputs| - 1];
      EndsAreUnanimous(book, front);
      HandleKeepsClosure(book, Run(book, front), last.person, last.command, last.net);
    }
  }

  /** The command that ends a conversation leaves closure inactive and the turn empty. */
  lemma EndLeavesNothingOpen(book: Book, h: Hub, person: nat, c: Command, net: Network)
    requires Shaped(book, h) && person < |book| && Fits(book, c)
    requires var r := Handle(book, h, person, c, net);
             |r.history| > |h.history| && r.history[|r.history| - 1].ConversationEnd?
    ensures var r := Handle(book, h, person, c, net); !r.active && r.speaker == ""
  {
  }
}
