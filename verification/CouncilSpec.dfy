/** The council hub, one handled command at a time: round-robin turns, relayed messages,
    closure by unanimous vote, and a transcript from which the turn can be restored. */
module CouncilSpec {
  import opened Wrappers

  const NAME_LENGTH: nat := 64

  datatype Contact = Contact(name: string, ai: bool, priority: int)
  type Book = seq<Contact>

  /** Names are stored in 64-byte buffers. */
  function Clip(name: string): string {
    if |name| < NAME_LENGTH then name else name[..NAME_LENGTH - 1]
  }

  /** Transcript records; the last two are not written, they mark what memory went through.
      A proposal is kept with the participants that were expected to vote. */
  datatype Entry =
    | Grant(name: string)
    | OfflineGrant(from: string, name: string)
    | Message(sender: nat)
    | EndProposal(proposer: nat, expected: set<nat>)
    | EndVote(voter: nat, close: bool)
    | EndCancelled(voter: nat)
    | ConversationEnd
    | Nobody
    | Restarted

  datatype Hub = Hub(
    next: nat,
    speaker: string,        // "" when nobody holds the turn
    online: seq<bool>,
    active: bool,           // a closure proposal is open
    proposer: nat,
    expected: seq<bool>,
    votes: seq<int>,        // 1 close, -1 continue, 0 none
    openedAt: nat,          // where in the history the open proposal stands
    history: seq<Entry>)

  predicate Shaped(book: Book, h: Hub) {
    && |h.online| == |h.expected| == |h.votes| == |book|
    && (if book == [] then h.next == 0 else h.next < |book|)
    && forall k | 0 <= k < |book| :: |book[k].name| < NAME_LENGTH
  }

  function Record(h: Hub, e: Entry): Hub {
    h.(history := h.history + [e])
  }

  // ----- arbitration -----

  predicate Eligible(book: Book, online: seq<bool>, previous: string, i: nat)
    requires i < |book| == |online|
  {
    online[i] && book[i].name != previous
  }

  /** `arbitration_next`'s scan, from the `checked`-th contact after `next`. */
  function Scan(book: Book, online: seq<bool>, previous: string, next: nat, checked: nat): (r: Option<nat>)
    requires |book| == |online| && next < |book| && checked <= |book|
    ensures r.Some? ==> r.value < |book|
    decreases |book| - checked
  {
    if checked == |book| then None
    else
      var i := (next + checked) % |book|;
      if Eligible(book, online, previous, i) then Some(i) else Scan(book, online, previous, next, checked + 1)
  }

  /** How many contacts the scan passes before it reaches `i`. */
  function Distance(count: nat, next: nat, i: nat): (d: nat)
    requires next < count && i < count
    ensures d < count
  {
    if i >= next then i - next else i + count - next
  }

  function Arbitrate(book: Book, h: Hub, previous: string): (Hub, Option<nat>)
    requires Shaped(book, h)
  {
    var found := if book == [] then None else Scan(book, h.online, previous, h.next, 0);
    match found
    case None => (Record(h.(speaker := ""), Nobody), None)
    case Some(i) => (h.(next := (i + 1) % |book|, speaker := book[i].name), found)
  }

  // ----- messages -----

  /** What the network does with the deliveries of one command. */
  datatype Network = Network(reached: nat -> bool, spoke: bool)

  predicate IsDestination(book: Book, from: nat, target: Option<nat>, i: nat)
    requires i < |book|
  {
    book[i].ai && i != from && (target.None? || target.value == i)
  }

  function Delivered(book: Book, online: seq<bool>, from: nat, target: Option<nat>, net: Network): (r: seq<bool>)
    requires |online| == |book|
    ensures |r| == |book|
  {
    seq(|book|, (i: nat) requires i < |book| => if IsDestination(book, from, target, i) then net.reached(i) else online[i])
  }

  /** After the turn went to `i`: an AI is told to speak, and its presence updated. */
  function Told(book: Book, h: Hub, i: nat, net: Network): Hub
    requires Shaped(book, h) && i < |book|
  {
    if book[i].ai then h.(online := h.online[i := net.spoke]) else h
  }

  /** `relay_message`: the hub after it, and whether the message was routed. */
  function Relay(book: Book, h: Hub, from: nat, target: Option<nat>, net: Network): (Hub, bool)
    requires Shaped(book, h) && from < |book| && (target.Some? ==> target.value < |book|)
  {
    if target == Some(from) then (h, false)
    else
      var sent := h.(online := Delivered(book, h.online, from, target, net));
      if target.None? then
        var (after, next) := Arbitrate(book, sent, book[from].name);
        if next.None? then (after, false)
        else (Record(Told(book, after, next.value, net), Grant(book[next.value].name)), true)
      else
        var i := target.value;
        if !(if book[i].ai then net.reached(i) else h.online[i]) then (sent, false)
        else (Record(Told(book, sent.(speaker := book[i].name), i, net), Grant(book[i].name)), true)
  }

  /** `accept_message`: a routed message is recorded after its grant. */
  function Accept(book: Book, h: Hub, from: nat, target: Option<nat>, net: Network): Hub
    requires Shaped(book, h) && from < |book| && (target.Some? ==> target.value < |book|)
  {
    var (after, routed) := Relay(book, h, from, target, net);
    if routed then Record(after, Message(from)) else after
  }

  // ----- status -----

  function Holder(book: Book, name: string, from: nat): (r: Option<nat>)
    requires from <= |book|
    ensures r.Some? ==> r.value < |book|
    decreases |book| - from
  {
    if from == |book| then None
    else if book[from].name == name then Some(from)
    else Holder(book, name, from + 1)
  }

  /** `send_status`: presence is sampled, and an absent holder loses the turn. */
  function Status(book: Book, h: Hub, presence: seq<bool>, net: Network): Hub
    requires Shaped(book, h) && |presence| == |book|
  {
    var seen := h.(online := presence);
    var holder := Holder(book, h.speaker, 0);
    if h.speaker == "" || (holder.Some? && presence[holder.value]) then seen
    else
      var (after, next) := Arbitrate(book, seen, h.speaker);
      if next.None? then after
      else Record(Told(book, after, next.value, net), OfflineGrant(h.speaker, book[next.value].name))
  }

  // ----- closure -----

  predicate Complete(h: Hub)
    requires |h.expected| == |h.votes|
  {
    forall i | 0 <= i < |h.votes| :: h.expected[i] ==> h.votes[i] == 1
  }

  function Finish(h: Hub): Hub {
    Record(h, ConversationEnd).(active := false, speaker := "")
  }

  function FinishIfComplete(h: Hub): Hub
    requires |h.expected| == |h.votes|
  {
    if Complete(h) then Finish(h) else h
  }

  function MembersOf(flags: seq<bool>): (s: set<nat>)
    ensures forall i :: i in s <==> 0 <= i < |flags| && flags[i]
  {
    set i | 0 <= i < |flags| && flags[i]
  }

  predicate HasTurn(h: Hub, name: string) {
    h.speaker == "" || h.speaker == name
  }

  /** Who counts as present: an AI that was last reached, a human seen recently. */
  function Present(book: Book, online: seq<bool>, recent: seq<bool>): (r: seq<bool>)
    requires |online| == |recent| == |book|
    ensures |r| == |book|
  {
    seq(|book|, (i: nat) requires i < |book| => if book[i].ai then online[i] else recent[i])
  }

  /** The proposer's own vote is counted at once. */
  function OpeningVotes(present: seq<bool>, person: nat): (r: seq<int>)
    ensures |r| == |present|
  {
    seq(|present|, (i: nat) requires i < |present| => if present[i] && i == person then 1 else 0)
  }

  /** `closure_propose`. */
  function Propose(book: Book, h: Hub, person: nat, recent: seq<bool>): Hub
    requires Shaped(book, h) && person < |book| && |recent| == |book|
  {
    var present := Present(book, h.online, recent);
    if book[person].priority <= 0 || !HasTurn(h, book[person].name) || h.active then h
    else
      FinishIfComplete(Record(h.(
        active := true, proposer := person, expected := present, openedAt := |h.history|,
        votes := OpeningVotes(present, person)),
        EndProposal(person, MembersOf(present))))
  }

  /** `closure_vote` with a well-formed vote. */
  function Vote(book: Book, h: Hub, person: nat, close: bool): Hub
    requires Shaped(book, h) && person < |book|
  {
    if !h.active || !h.expected[person] then h
    else
      var voted := Record(h.(votes := h.votes[person := if close then 1 else -1]), EndVote(person, close));
      if close then FinishIfComplete(voted)
      else Record(Record(voted.(active := false, speaker := book[person].name), EndCancelled(person)), Grant(book[person].name))
  }

  // ----- commands -----

  datatype Command =
    | Say(target: Option<nat>)
    | Initiate(target: Option<nat>, busy: bool)
    | StatusCommand(presence: seq<bool>)
    | ProposeEnd(recent: seq<bool>)
    | VoteEnd(close: bool)
    | BadVote
    | GrantTo(name: string)
    | Other
    | Restart

  predicate Fits(book: Book, c: Command) {
    match c
    case Say(target) => target.Some? ==> target.value < |book|
    case Initiate(target, _) => target.Some? ==> target.value < |book|
    case StatusCommand(presence) => |presence| == |book|
    case ProposeEnd(recent) => |recent| == |book|
    case _ => true
  }

  /** The whole transcript, folded as at start-up. */
  function LastSpeaker(history: seq<Entry>): string {
    if history == [] then ""
    else
      match history[|history| - 1]
      case Grant(name) => Clip(name)
      case OfflineGrant(_, name) => Clip(name)
      case ConversationEnd => ""
      case _ => LastSpeaker(history[..|history| - 1])
  }

  /** One authenticated command of one participant; `Restart` is the service starting again. */
  function Handle(book: Book, h: Hub, person: nat, c: Command, net: Network): Hub
    requires Shaped(book, h) && person < |book| && Fits(book, c)
  {
    var seen := h.(online := h.online[person := true]);
    match c
    case Say(target) => if HasTurn(h, book[person].name) then Accept(book, seen, person, target, net) else seen
    case Initiate(target, busy) => if busy then seen else Accept(book, seen, person, target, net)
    case StatusCommand(presence) => Status(book, seen, presence, net)
    case ProposeEnd(recent) => Propose(book, seen, person, recent)
    case VoteEnd(close) => Vote(book, seen, person, close)
    case BadVote => seen
    case GrantTo(name) => Record(seen.(speaker := Clip(name)), Grant(name))
    case Other => seen
    case Restart =>
      Record(h.(next := 0, speaker := LastSpeaker(h.history), online := seq(|book|, _ => false), active := false), Restarted)
  }

  function Fresh(book: Book): Hub {
    Hub(0, "", seq(|book|, _ => false), false, 0, seq(|book|, _ => false), seq(|book|, _ => 0), 0, [])
  }

  lemma AcceptKeepsShape(book: Book, h: Hub, from: nat, target: Option<nat>, net: Network)
    requires Shaped(book, h) && from < |book| && (target.Some? ==> target.value < |book|)
    ensures Shaped(book, Accept(book, h, from, target, net))
  {
  }

  lemma HandleKeepsShape(book: Book, h: Hub, person: nat, c: Command, net: Network)
    requires Shaped(book, h) && person < |book| && Fits(book, c)
    ensures Shaped(book, Handle(book, h, person, c, net))
  {
    if c.Say? || c.Initiate? {
      AcceptKeepsShape(book, h.(online := h.online[person := true]), person, c.target, net);
    }
  }

  datatype Input = Input(person: nat, command: Command, net: Network)

  predicate InputsFit(book: Book, inputs: seq<Input>) {
    forall k | 0 <= k < |inputs| :: inputs[k].person < |book| && Fits(book, inputs[k].command)
  }

  function Run(book: Book, inputs: seq<Input>): (h: Hub)
    requires InputsFit(book, inputs) && forall k | 0 <= k < |book| :: |book[k].name| < NAME_LENGTH
    ensures Shaped(book, h)
  {
    if inputs == [] then Fresh(book)
    else
      var before, last := Run(book, inputs[..|inputs| - 1]), inputs[|inputs| - 1];
      HandleKeepsShape(book, before, last.person, last.command, last.net);
      Handle(book, before, last.person, last.command, last.net)
  }
}
