/** What one command of a participant does to the turn, the transcript, the presence and an
    open closure, said as conditions on the hub before and after. */
module CouncilLaws {
  import opened Wrappers
  import opened CouncilSpec
  import opened CouncilRuns

  /** A stored name is the longest part of the name that fits its buffer. */
  lemma ClipIsLongest(name: string)
    ensures Clip(name) <= name && |Clip(name)| < NAME_LENGTH && (Clip(name) == name || |Clip(name)| == NAME_LENGTH - 1)
  {
  }

  /** `i` is the first in cyclic order from `next` on who is online and not the previous speaker. */
  predicate Nearest(book: Book, online: seq<bool>, previous: string, next: nat, i: nat)
    requires |online| == |book| && next < |book| && i < |book|
  {
    && online[i] && book[i].name != previous
    && forall j | 0 <= j < |book| && online[j] && book[j].name != previous ::
         Distance(|book|, next, i) <= Distance(|book|, next, j)
  }

  predicate NobodyLeft(book: Book, online: seq<bool>, previous: string)
    requires |online| == |book|
  {
    forall j | 0 <= j < |book| :: online[j] ==> book[j].name == previous
  }

  /** The nearest contact gets the turn and becomes the last in order; if there is none, nobody
      has the turn and the order stays. */
  predicate Moved(book: Book, h: Hub, online: seq<bool>, previous: string, r: Hub, granted: Option<nat>)
    requires Shaped(book, h) && |online| == |book|
  {
    match granted
    case None => NobodyLeft(book, online, previous) && r.speaker == "" && r.next == h.next
    case Some(i) =>
      && i < |book| && Nearest(book, online, previous, h.next, i) && r.speaker == book[i].name
      && r.next < |book| && Distance(|book|, r.next, i) == |book| - 1
  }

  lemma ArbitrateMoves(book: Book, h: Hub, previous: string)
    requires Shaped(book, h)
    ensures var (r, granted) := Arbitrate(book, h, previous); Moved(book, h, h.online, previous, r, granted)
  {
    if book != [] {
      ScanFindsNearest(book, h.online, previous, h.next, 0);
      assert forall j | 0 <= j < |book| :: Distance(|book|, h.next, j) >= 0;
      assert forall j | 0 <= j < |book| :: Eligible(book, h.online, previous, j) <==> h.online[j] && book[j].name != previous;
      var granted := Arbitrate(book, h, previous).1;
      if granted.Some? {
        ModuloOnce(granted.value + 1, |book|);
      }
    }
  }

  /** Nothing of an open closure changes. */
  predicate SameClosure(h: Hub, r: Hub) {
    r.active == h.active && r.proposer == h.proposer && r.expected == h.expected && r.votes == h.votes && r.openedAt == h.openedAt
  }

  /** The turn, the order, the closure and the transcript are as before. */
  predicate Untouched(h: Hub, r: Hub) {
    r.speaker == h.speaker && r.next == h.next && r.history == h.history && SameClosure(h, r)
  }

  /** Presence after the command and its deliveries: the participant was heard from, every other
      AI that was addressed is present if it was reached. */
  predicate Heard(book: Book, h: Hub, person: nat, target: Option<nat>, net: Network, online: seq<bool>)
    requires Shaped(book, h) && person < |book|
  {
    |online| == |book| && forall j | 0 <= j < |book| ::
      online[j] == (if j == person then true
                    else if book[j].ai && (target.None? || target.value == j) then net.reached(j)
                    else h.online[j])
  }

  lemma DeliveredIsHeard(book: Book, h: Hub, person: nat, target: Option<nat>, net: Network)
    requires Shaped(book, h) && person < |book|
    ensures Heard(book, h, person, target, net, Delivered(book, h.online[person := true], person, target, net))
  {
    var before := h.online[person := true];
    var online := Delivered(book, before, person, target, net);
    forall j: nat | j < |book|
      ensures online[j] == (if j == person then true
                            else if book[j].ai && (target.None? || target.value == j) then net.reached(j)
                            else h.online[j])
    {
      assert online[j] == if IsDestination(book, person, target, j) then net.reached(j) else before[j];
    }
  }

  /** The same after the one who got the turn, if an AI, was told to speak. */
  predicate ToldToo(book: Book, online: seq<bool>, i: nat, net: Network, r: Hub)
    requires |online| == |book| && i < |book|
  {
    |r.online| == |book| && forall j | 0 <= j < |book| :: r.online[j] == if j == i && book[i].ai then net.spoke else online[j]
  }

  /** A message to all: the turn moves on to the nearest contact, and the grant and the message
      are recorded; with nobody to speak next, no message is. */
  ghost predicate ToAll(book: Book, h: Hub, person: nat, net: Network, online: seq<bool>, r: Hub, granted: Option<nat>)
    requires Shaped(book, h) && person < |book| && |online| == |book|
  {
    && Moved(book, h, online, book[person].name, r, granted) && SameClosure(h, r)
    && match granted
       case None => r.history == h.history + [Nobody] && r.online == online
       case Some(i) => r.history == h.history + [Grant(book[i].name), Message(person)] && ToldToo(book, online, i, net, r)
  }

  lemma MessageToAll(book: Book, h: Hub, person: nat, c: Command, net: Network)
    requires Shaped(book, h) && person < |book| && Fits(book, c)
    requires (c == Say(None) && (h.speaker == "" || h.speaker == book[person].name)) || c == Initiate(None, false)
    ensures exists online, granted :: Heard(book, h, person, None, net, online) &&
              ToAll(book, h, person, net, online, Handle(book, h, person, c, net), granted)
  {
    var seen := h.(online := h.online[person := true]);
    var online := Delivered(book, seen.online, person, None, net);
    var sent := seen.(online := online);
    ArbitrateMoves(book, sent, book[person].name);
    var (after, granted) := Arbitrate(book, sent, book[person].name);
    DeliveredIsHeard(book, h, person, None, net);
    assert ToAll(book, h, person, net, online, Handle(book, h, person, c, net), granted);
  }

  /** A message to one other: if it can be delivered the turn goes there, recorded before the
      message; the order stays. Otherwise turn and transcript stay. */
  lemma MessageToOne(book: Book, h: Hub, person: nat, i: nat, c: Command, net: Network)
    requires Shaped(book, h) && person < |book| && i < |book| && i != person
    requires (c == Say(Some(i)) && (h.speaker == "" || h.speaker == book[person].name)) || c == Initiate(Some(i), false)
    ensures var r := Handle(book, h, person, c, net);
            exists online :: Heard(book, h, person, Some(i), net, online) &&
              if online[i] then
                && r.speaker == book[i].name && r.next == h.next && SameClosure(h, r)
                && r.history == h.history + [Grant(book[i].name), Message(person)] && ToldToo(book, online, i, net, r)
              else Untouched(h, r) && r.online == online
  {
    var seen := h.(online := h.online[person := true]);
    var online := Delivered(book, seen.online, person, Some(i), net);
    DeliveredIsHeard(book, h, person, Some(i), net);
    assert online[i] == if book[i].ai then net.reached(i) else h.online[i];
  }

  /** Out of turn, while another command is handled, or to oneself, nothing but the presence of
      the participant changes. */
  lemma MessageRefused(book: Book, h: Hub, person: nat, c: Command, net: Network)
    requires Shaped(book, h) && person < |book| && Fits(book, c)
    requires (c.Say? && h.speaker != "" && h.speaker != book[person].name) || (c.Initiate? && c.busy) ||
             ((c.Say? || c.Initiate?) && c.target == Some(person))
    ensures var r := Handle(book, h, person, c, net);
            Untouched(h, r) && r.online == h.online[person := true]
  {
  }

  /** The turn of an absent holder goes to the nearest contact present, and that is recorded. */
  predicate PassedOn(book: Book, h: Hub, presence: seq<bool>, net: Network, r: Hub, granted: Option<nat>)
    requires Shaped(book, h) && |presence| == |book|
  {
    && Moved(book, h, presence, h.speaker, r, granted) && SameClosure(h, r)
    && match granted
       case None => r.history == h.history + [Nobody] && r.online == presence
       case Some(i) => r.history == h.history + [OfflineGrant(h.speaker, book[i].name)] && ToldToo(book, presence, i, net, r)
  }

  /** `holder` is the first contact with the name of the speaker, or their number if there is none. */
  predicate Holds(book: Book, name: string, holder: nat) {
    && holder <= |book| && (holder < |book| ==> book[holder].name == name)
    && forall j | 0 <= j < holder :: book[j].name != name
  }

  /** A status keeps the turn while its holder is present, or nobody has it. */
  lemma StatusKeepsTurn(book: Book, h: Hub, person: nat, presence: seq<bool>, net: Network, holder: nat)
    requires Shaped(book, h) && person < |book| && |presence| == |book| && Holds(book, h.speaker, holder)
    requires h.speaker == "" || (holder < |book| && presence[holder])
    ensures var r := Handle(book, h, person, StatusCommand(presence), net);
            Untouched(h, r) && r.online == presence
  {
    HolderIsFirst(book, h.speaker, 0, holder);
  }

  /** An absent holder loses it, and so does a name that is no contact's. */
  lemma StatusPassesTurn(book: Book, h: Hub, person: nat, presence: seq<bool>, net: Network, holder: nat)
    returns (granted: Option<nat>)
    requires Shaped(book, h) && person < |book| && |presence| == |book| && Holds(book, h.speaker, holder)
    requires h.speaker != "" && !(holder < |book| && presence[holder])
    ensures PassedOn(book, h, presence, net, Handle(book, h, person, StatusCommand(presence), net), granted)
  {
    HolderIsFirst(book, h.speaker, 0, holder);
    var sampled := h.(online := presence);
    ArbitrateMoves(book, sampled, h.speaker);
    granted := Arbitrate(book, sampled, h.speaker).1;
  }

  lemma {:induction false} HolderIsFirst(book: Book, name: string, from: nat, holder: nat)
    requires from <= holder <= |book| && (holder < |book| ==> book[holder].name == name)
    requires forall j | from <= j < holder :: book[j].name != name
    ensures Holder(book, name, from) == if holder < |book| then Some(holder) else None
    decreases holder - from
  {
    if from < holder {
      HolderIsFirst(book, name, from + 1, holder);
    }
  }

  // ----- closure -----

  /** Who is expected to vote. */
  predicate IsPresent(book: Book, h: Hub, person: nat, recent: seq<bool>, j: nat)
    requires Shaped(book, h) && |recent| == |book| && j < |book|
  {
    if book[j].ai then j == person || h.online[j] else recent[j]
  }

  /** A proposal is refused without a priority, out of turn or while one is open. Otherwise it is
      recorded with those present, the proposer has voted to close if present, and it ends the
      conversation at once exactly if nobody else is. */
  lemma ProposalOpens(book: Book, h: Hub, person: nat, recent: seq<bool>, net: Network, present: set<nat>)
    requires Shaped(book, h) && person < |book| && |recent| == |book|
    requires forall j :: j in present <==> 0 <= j < |book| && IsPresent(book, h, person, recent, j)
    ensures var r := Handle(book, h, person, ProposeEnd(recent), net);
            && r.online == h.online[person := true]
            && if book[person].priority <= 0 || (h.speaker != "" && h.speaker != book[person].name) || h.active then Untouched(h, r)
               else
                 && Opened(book, h, person, present, r)
                 && if present <= {person} then
                      !r.active && r.speaker == "" && r.history == h.history + [EndProposal(person, present), ConversationEnd]
                    else r.active && r.speaker == h.speaker && r.history == h.history + [EndProposal(person, present)]
  {
    var seen := h.(online := h.online[person := true]);
    var flags := Present(book, seen.online, recent);
    assert forall j | 0 <= j < |book| :: flags[j] <==> j in present;
    assert MembersOf(flags) == present;
    if !(present <= {person}) {
      var j :| j in present && j != person;
      assert flags[j] && OpeningVotes(flags, person)[j] == 0;
    }
  }

  /** The proposal stands, with the votes expected and the proposer's own. */
  predicate Opened(book: Book, h: Hub, person: nat, present: set<nat>, r: Hub) {
    && |r.expected| == |r.votes| == |book| && r.proposer == person && r.openedAt == |h.history| && r.next == h.next
    && forall j | 0 <= j < |book| ::
         && (r.expected[j] <==> j in present)
         && (r.votes[j] == if j == person && j in present then 1 else 0)
  }

  /** All expected participants but `person` have voted to close. */
  predicate OthersClosed(h: Hub, person: nat)
    requires |h.expected| == |h.votes|
  {
    forall j | 0 <= j < |h.votes| && j != person :: h.expected[j] ==> h.votes[j] == 1
  }

  /** A vote counts only while a proposal is open and if it is expected. The last missing vote to
      close ends the conversation; a vote to continue cancels the proposal and takes the turn. */
  lemma VoteDecides(book: Book, h: Hub, person: nat, close: bool, net: Network)
    requires Shaped(book, h) && person < |book|
    ensures var r := Handle(book, h, person, VoteEnd(close), net);
            && r.online == h.online[person := true] && r.next == h.next
            && if !h.active || !h.expected[person] then Untouched(h, r)
               else
                 && r.votes == h.votes[person := if close then 1 else -1] && r.expected == h.expected
                 && r.proposer == h.proposer && r.openedAt == h.openedAt
                 && if !close then
                      && !r.active && r.speaker == book[person].name
                      && r.history == h.history + [EndVote(person, false), EndCancelled(person), Grant(book[person].name)]
                    else if OthersClosed(h, person) then
                      !r.active && r.speaker == "" && r.history == h.history + [EndVote(person, true), ConversationEnd]
                    else r.active && r.speaker == h.speaker && r.history == h.history + [EndVote(person, true)]
  {
    var voted := h.votes[person := if close then 1 else -1];
    if h.active && h.expected[person] && close && !OthersClosed(h, person) {
      var j :| 0 <= j < |h.votes| && j != person && h.expected[j] && h.votes[j] != 1;
      assert voted[j] != 1;
    }
  }

  /** A grant by name takes effect as it will be read back; other commands change only presence;
      a restart keeps what the transcript says and forgets the rest. */
  lemma OtherCommands(book: Book, h: Hub, person: nat, c: Command, net: Network)
    requires Shaped(book, h) && person < |book| && Fits(book, c)
    ensures var r := Handle(book, h, person, c, net);
            && (c.BadVote? || c.Other? ==> Untouched(h, r) && r.online == h.online[person := true])
            && (c.GrantTo? ==>
                  && r.speaker == Clip(c.name) && r.history == h.history + [Grant(c.name)]
                  && r.next == h.next && SameClosure(h, r) && r.online == h.online[person := true])
            && (c.Restart? ==>
                  && r.speaker == LastSpeaker(h.history) && r.history == h.history + [Restarted]
                  && r.next == 0 && !r.active && forall j | 0 <= j < |book| :: !r.online[j])
  {
  }
}
