/** The hub as it runs: a shared service structure changed in place by one handled command. */
module CouncilService {
  import opened Wrappers
  import opened CouncilSpec

  /** `transcript_last_speaker`: one pass over the records, overwriting the speaker. */
  method RestoredSpeaker(history: seq<Entry>) returns (speaker: string)
    ensures speaker == LastSpeaker(history)
  {
    speaker := "";
    for k := 0 to |history|
      invariant speaker == LastSpeaker(history[..k])
    {
      assert history[..k + 1][..k] == history[..k];
      match history[k]
      case ConversationEnd => speaker := "";
      case Grant(name) => speaker := Clip(name);
      case OfflineGrant(_, name) => speaker := Clip(name);
      case _ =>
    }
    assert history[..|history|] == history;
  }

  class Service {
    const book: Book
    const online: array<bool>
    const expected: array<bool>
    const votes: array<int>
    var next: nat
    var speaker: string
    var active: bool
    var proposer: nat
    var history: seq<Entry>
    ghost var openedAt: nat

    ghost function View(): Hub
      reads this, online, expected, votes
    {
      Hub(next, speaker, online[..], active, proposer, expected[..], votes[..], openedAt, history)
    }

    ghost predicate Valid()
      reads this, online, expected, votes
    {
      && online != expected
      && online.Length == expected.Length == votes.Length == |book|
      && Shaped(book, View())
    }

    constructor (book: Book)
      requires forall k | 0 <= k < |book| :: |book[k].name| < NAME_LENGTH
      ensures Valid() && View() == Fresh(book) && this.book == book
      ensures fresh(online) && fresh(expected) && fresh(votes)
    {
      this.book := book;
      online, expected := new bool[|book|](_ => false), new bool[|book|](_ => false);
      votes := new int[|book|](_ => 0);
      next, speaker, active, proposer, history, openedAt := 0, "", false, 0, [], 0;
      new;
      assert View() == Fresh(book);
    }

    /** `arbitration_next`. */
    method NextSpeaker(previous: string) returns (found: Option<nat>)
      requires Valid()
      modifies this`next, this`speaker, this`history
      ensures Valid() && (View(), found) == Arbitrate(book, old(View()), previous)
    {
      for checked := 0 to |book|
        invariant View() == old(View())
        invariant book != [] ==> Scan(book, online[..], previous, next, 0) == Scan(book, online[..], previous, next, checked)
      {
        var i := (next + checked) % |book|;
        if online[i] && book[i].name != previous {
          next := (i + 1) % |book|;
          speaker := book[i].name;
          return Some(i);
        }
      }
      speaker := "";
      history := history + [Nobody];
      return None;
    }

    /** The delivery loop of `relay_message`. */
    method DeliverAll(from: nat, target: Option<nat>, net: Network)
      requires Valid() && from < |book|
      modifies online
      ensures Valid() && online[..] == Delivered(book, old(online[..]), from, target, net)
    {
      ghost var goal := Delivered(book, online[..], from, target, net);
      for i := 0 to |book|
        invariant forall k | 0 <= k < i :: online[k] == goal[k]
        invariant forall k | i <= k < |book| :: online[k] == old(online[k])
      {
        if book[i].ai && i != from && (target.None? || target.value == i) {
          online[i] := net.reached(i);
        }
        assert goal[i] == if IsDestination(book, from, target, i) then net.reached(i) else old(online[..])[i];
      }
    }

    method Tell(i: nat, net: Network)
      requires Valid() && i < |book|
      modifies online
      ensures Valid() && View() == Told(book, old(View()), i, net)
    {
      if book[i].ai {
        online[i] := net.spoke;
      }
    }

    method RelayMessage(from: nat, target: Option<nat>, net: Network) returns (routed: bool)
      requires Valid() && from < |book| && (target.Some? ==> target.value < |book|)
      modifies this, online
      ensures Valid() && (View(), routed) == Relay(book, old(View()), from, target, net)
    {
      if target == Some(from) {
        return false;
      }
      var humanOnline := target.Some? && !book[target.value].ai && online[target.value];
      DeliverAll(from, target, net);
      var granted := None;
      if target.None? {
        granted := NextSpeaker(book[from].name);
      } else if humanOnline || (book[target.value].ai && online[target.value]) {
        speaker := book[target.value].name;
        granted := target;
      }
      if granted.None? {
        return false;
      }
      Tell(granted.value, net);
      history := history + [Grant(book[granted.value].name)];
      return true;
    }

    method AcceptMessage(from: nat, target: Option<nat>, net: Network)
      requires Valid() && from < |book| && (target.Some? ==> target.value < |book|)
      modifies this, online
      ensures Valid() && View() == Accept(book, old(View()), from, target, net)
    {
      var routed := RelayMessage(from, target, net);
      if routed {
        history := history + [Message(from)];
      }
    }

    /** `send_status`. */
    method SendStatus(presence: seq<bool>, net: Network)
      requires Valid() && |presence| == |book|
      modifies this, online
      ensures Valid() && View() == Status(book, old(View()), presence, net)
    {
      SamplePresence(presence);
      if speaker == "" {
        return;
      }
      var holder := FindHolder(speaker);
      if holder.Some? && online[holder.value] {
        return;
      }
      var current := speaker;
      var granted := NextSpeaker(current);
      if granted.Some? {
        Tell(granted.value, net);
        history := history + [OfflineGrant(current, book[granted.value].name)];
      }
    }

    method SamplePresence(presence: seq<bool>)
      requires Valid() && |presence| == |book|
      modifies online
      ensures Valid() && View() == old(View()).(online := presence)
    {
      for i := 0 to |book|
        invariant forall k | 0 <= k < i :: online[k] == presence[k]
      {
        online[i] := presence[i];
      }
      assert online[..] == presence;
    }

    method FindHolder(name: string) returns (holder: Option<nat>)
      ensures holder == Holder(book, name, 0)
    {
      for i := 0 to |book|
        invariant Holder(book, name, 0) == Holder(book, name, i)
      {
        if book[i].name == name {
          return Some(i);
        }
      }
      return None;
    }

    /** `closure_complete`. */
    method IsComplete() returns (complete: bool)
      requires Valid()
      ensures complete == Complete(View())
    {
      for i := 0 to |book|
        invariant forall k | 0 <= k < i :: expected[k] ==> votes[k] == 1
      {
        if expected[i] && votes[i] != 1 {
          return false;
        }
      }
      return true;
    }

    method EndIfComplete()
      requires Valid()
      modifies this`history, this`active, this`speaker
      ensures Valid() && View() == FinishIfComplete(old(View()))
    {
      var complete := IsComplete();
      if complete {
        history := history + [ConversationEnd];
        active := false;
        speaker := "";
      }
    }

    /** `closure_propose`. */
    method ProposeClosure(person: nat, recent: seq<bool>)
      requires Valid() && person < |book| && |recent| == |book|
      modifies this, expected, votes
      ensures Valid() && View() == Propose(book, old(View()), person, recent)
    {
      if book[person].priority <= 0 || !(speaker == "" || speaker == book[person].name) || active {
        return;
      }
      active, proposer, openedAt := true, person, |history|;
      CountPresent(person, recent);
      history := history + [EndProposal(person, MembersOf(expected[..]))];
      EndIfComplete();
    }

    /** Who is expected to vote, and the proposer's own vote. */
    method CountPresent(person: nat, recent: seq<bool>)
      requires Valid() && person < |book| && |recent| == |book|
      modifies expected, votes
      ensures Valid() && expected[..] == Present(book, online[..], recent)
      ensures votes[..] == OpeningVotes(Present(book, online[..], recent), person)
    {
      ghost var present := Present(book, online[..], recent);
      for i := 0 to |book|
        invariant online[..] == old(online[..])
        invariant forall k | 0 <= k < i :: expected[k] == present[k] && votes[k] == if present[k] && k == person then 1 else 0
      {
        var here := if book[i].ai then online[i] else recent[i];
        expected[i] := here;
        votes[i] := if here && i == person then 1 else 0;
      }
    }

    /** `closure_vote`. */
    method VoteClosure(person: nat, close: bool)
      requires Valid() && person < |book|
      modifies this, votes
      ensures Valid() && View() == Vote(book, old(View()), person, close)
    {
      if !active || !expected[person] {
        return;
      }
      votes[person] := if close then 1 else -1;
      history := history + [EndVote(person, close)];
      if close {
        EndIfComplete();
      } else {
        active := false;
        speaker := book[person].name;
        history := history + [EndCancelled(person)] + [Grant(book[person].name)];
      }
    }

    /** Start-up: nothing in memory but the turn read back from the transcript. */
    method StartAgain()
      requires Valid()
      modifies this, online
      ensures Valid()
      ensures View() == Record(old(View()).(next := 0, speaker := LastSpeaker(old(history)),
                                            online := seq(|book|, _ => false), active := false), Restarted)
    {
      forall i | 0 <= i < |book| {
        online[i] := false;
      }
      assert online[..] == seq(|book|, _ => false);
      next, active := 0, false;
      speaker := RestoredSpeaker(history);
      history := history + [Restarted];
    }

    /** `handle_connection`, after the participant has been authenticated. */
    method HandleCommand(person: nat, c: Command, net: Network)
      requires Valid() && person < |book| && Fits(book, c)
      modifies this, online, expected, votes
      ensures Valid() && View() == Handle(book, old(View()), person, c, net)
    {
      if c.Restart? {
        StartAgain();
        return;
      }
      online[person] := true;
      var hasTurn := speaker == "" || speaker == book[person].name;
      match c
      case Say(target) =>
        if hasTurn {
          AcceptMessage(person, target, net);
        }
      case Initiate(target, busy) =>
        if !busy {
          AcceptMessage(person, target, net);
        }
      case StatusCommand(presence) => SendStatus(presence, net);
      case ProposeEnd(recent) => ProposeClosure(person, recent);
      case VoteEnd(close) => VoteClosure(person, close);
      case GrantTo(name) =>
        speaker := Clip(name);
        history := history + [Grant(name)];
      case BadVote =>
      case Other =>
    }
  }
}
