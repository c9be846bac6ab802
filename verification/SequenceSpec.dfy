/** The four-track sequencer: what a tick, a start and a stop do, and what whole runs of
    ticks call, when, and with which bits. */
module SequenceSpec {
  import opened Deadline
  import opened RecordQueue

  const MAX_TRACKS: nat := 4
  const MAX_BITS: nat := 64
  const MAX_INTERVAL_MS: nat := 60000

  type Record = seq<(string, int)>

  datatype Channel = Channel(functionId: nat, fixed: seq<int>, ascii: string, append: bool)

  datatype Track = Track(
    configured: bool,
    active: bool,
    interval: nat,
    nextAt: nat,       // 32-bit milliseconds
    bits: seq<bool>,
    position: nat,
    channel: Channel,
    results: Ledger<Record>)

  const IDLE := Track(false, false, 0, 0, [], 0, Channel(0, [], "", true), Ledger([], 0, [], 0, 0))

  /** A native call made for a track at a true time, and any behaviour of the natives. */
  datatype Call = Call(slot: nat, bit: bool, at: nat, functionId: nat, numbers: seq<int>, ascii: string)
  datatype Reply = Fails | Succeeds(value: int, record: Record)
  type Natives = (seq<Call>, Call) -> Reply

  datatype Event = NoEvent | SequenceError(slot: nat) | SequenceComplete

  datatype Sequencer = Sequencer(
    tracks: seq<Track>,
    busy: seq<bool>,
    running: bool,
    repeating: bool,
    calls: seq<Call>,      // since the last start
    events: seq<Event>)    // since the last start

  predicate TrackOk(t: Track) {
    && (t.configured ==> 1 <= |t.bits| <= MAX_BITS && 1 <= t.interval <= MAX_INTERVAL_MS)
    && (t.active ==> t.configured && t.position < |t.bits|)
  }

  predicate Shaped(s: Sequencer) {
    |s.tracks| == MAX_TRACKS && |s.busy| == MAX_TRACKS && forall k | 0 <= k < MAX_TRACKS :: TrackOk(s.tracks[k])
  }

  // ----- operations -----

  function StopAll(s: Sequencer): Sequencer
    requires Shaped(s)
  {
    s.(running := false, busy := seq(MAX_TRACKS, _ => false),
       tracks := seq(MAX_TRACKS, (k: nat) requires k < MAX_TRACKS => s.tracks[k].(active := false)))
  }

  predicate AnyConfigured(s: Sequencer)
    requires Shaped(s)
  {
    exists k | 0 <= k < MAX_TRACKS :: s.tracks[k].configured
  }

  /** `start`: refused while running or with nothing configured. */
  function Start(s: Sequencer, repeating: bool, time: nat): Sequencer
    requires Shaped(s)
  {
    if s.running || !AnyConfigured(s) then s
    else
      Sequencer(
        seq(MAX_TRACKS, (k: nat) requires k < MAX_TRACKS =>
              s.tracks[k].(active := s.tracks[k].configured, position := 0, nextAt := time % UINT32)),
        seq(MAX_TRACKS, (k: nat) requires k < MAX_TRACKS => s.tracks[k].configured),
        true, repeating, [], [])
  }

  predicate Fires(t: Track, time: nat) {
    t.active && Due(time % UINT32, t.nextAt)
  }

  function CallOf(t: Track, slot: nat, time: nat): Call
    requires t.position < |t.bits|
  {
    var bit := t.bits[t.position];
    Call(slot, bit, time, t.channel.functionId,
         t.channel.fixed + (if t.channel.append then [if bit then 1 else 0] else []), t.channel.ascii)
  }

  /** What a successful call leaves in the channel's queue. */
  function ResultOf(reply: Reply): Record
    requires reply.Succeeds?
  {
    if reply.record == [] then [("value", reply.value)] else reply.record
  }

  /** A track after one of its calls succeeded. */
  function Advanced(t: Track, time: nat, repeating: bool, result: Record): Track
    requires t.position < |t.bits|
  {
    var last := t.position + 1 >= |t.bits|;
    t.(position := if last && repeating then 0 else t.position + 1,
       active := !(last && !repeating),
       nextAt := (time + t.interval) % UINT32,
       results := Push(t.results, result))
  }

  datatype Visit = Visit(s: Sequencer, invoked: bool, failed: bool)

  /** One slot of a tick. */
  function VisitSlot(s: Sequencer, slot: nat, time: nat, invoked: bool, natives: Natives): Visit
    requires Shaped(s) && slot < MAX_TRACKS
  {
    var t := s.tracks[slot];
    if !Fires(t, time) then Visit(s, invoked, false)
    else
      var call := CallOf(t, slot, time);
      var reply := natives(s.calls, call);
      if reply.Fails? then
        Visit(StopAll(s).(calls := s.calls + [call], events := s.events + [SequenceError(slot)]), true, true)
      else
        var t' := Advanced(t, time, s.repeating, ResultOf(reply));
        Visit(s.(tracks := s.tracks[slot := t'], busy := s.busy[slot := s.busy[slot] && t'.active], calls := s.calls + [call]),
              true, false)
  }

  lemma VisitKeepsShape(s: Sequencer, slot: nat, time: nat, invoked: bool, natives: Natives)
    requires Shaped(s) && slot < MAX_TRACKS
    ensures Shaped(VisitSlot(s, slot, time, invoked, natives).s)
  {
  }

  /** The slots from `slot` on, stopping at the first failure. */
  function VisitFrom(s: Sequencer, slot: nat, time: nat, invoked: bool, natives: Natives): Visit
    requires Shaped(s) && slot <= MAX_TRACKS
    decreases MAX_TRACKS - slot
  {
    if slot == MAX_TRACKS then Visit(s, invoked, false)
    else
      VisitKeepsShape(s, slot, time, invoked, natives);
      var v := VisitSlot(s, slot, time, invoked, natives);
      if v.failed then v else VisitFrom(v.s, slot + 1, time, v.invoked, natives)
  }

  predicate AnyActive(s: Sequencer)
    requires Shaped(s)
  {
    exists k | 0 <= k < MAX_TRACKS :: s.tracks[k].active
  }

  lemma {:induction false} VisitsKeepShape(s: Sequencer, slot: nat, time: nat, invoked: bool, natives: Natives)
    requires Shaped(s) && slot <= MAX_TRACKS
    ensures Shaped(VisitFrom(s, slot, time, invoked, natives).s)
    decreases MAX_TRACKS - slot
  {
    if slot < MAX_TRACKS {
      VisitKeepsShape(s, slot, time, invoked, natives);
      var v := VisitSlot(s, slot, time, invoked, natives);
      if !v.failed {
        VisitsKeepShape(v.s, slot + 1, time, v.invoked, natives);
      }
    }
  }

  /** One tick at true time `time`. */
  function Tick(s: Sequencer, time: nat, natives: Natives): (r: Sequencer)
    requires Shaped(s)
    ensures Shaped(r)
  {
    if !s.running then s
    else
      VisitsKeepShape(s, 0, time, false, natives);
      var v := VisitFrom(s, 0, time, false, natives);
      if v.failed then v.s
      else if v.invoked && !AnyActive(v.s) then v.s.(running := false, events := v.s.events + [SequenceComplete])
      else v.s
  }

  function PopResult(s: Sequencer, slot: nat): (r: Sequencer)
    requires Shaped(s)
    ensures Shaped(r)
  {
    if slot >= MAX_TRACKS then s
    else s.(tracks := s.tracks[slot := s.tracks[slot].(results := Pop(s.tracks[slot].results))])
  }

  // ----- runs -----

  datatype Op = TickAt(time: nat) | PopFrom(slot: nat)

  function Run(s: Sequencer, ops: seq<Op>, natives: Natives): (r: Sequencer)
    requires Shaped(s)
    ensures Shaped(r)
  {
    if ops == [] then s
    else
      var before := Run(s, ops[..|ops| - 1], natives);
      match ops[|ops| - 1]
      case TickAt(time) => Tick(before, time, natives)
      case PopFrom(slot) => PopResult(before, slot)
  }

  /** The calls of one track, in order. */
  function CallsOf(calls: seq<Call>, slot: nat): seq<Call> {
    if calls == [] then []
    else
      var front, last := CallsOf(calls[..|calls| - 1], slot), calls[|calls| - 1];
      if last.slot == slot then front + [last] else front
  }

  /** Every call was made for one of the tracks, and succeeded. */
  predicate Succeeded(calls: seq<Call>, natives: Natives) {
    calls == [] ||
    (var front, last := calls[..|calls| - 1], calls[|calls| - 1];
     last.slot < MAX_TRACKS && natives(front, last).Succeeds? && Succeeded(front, natives))
  }

  /** The last call, and only that, failed. */
  predicate LastFailed(calls: seq<Call>, natives: Natives) {
    calls != [] &&
    var front, last := calls[..|calls| - 1], calls[|calls| - 1];
    last.slot < MAX_TRACKS && natives(front, last).Fails? && Succeeded(front, natives)
  }

  /** Bit number `k` of a track that repeats for ever. */
  function CyclicBit(t: Track, k: nat): bool
    requires |t.bits| > 0
  {
    t.bits[k % |t.bits|]
  }

  /** What the native receives for a bit of a track: its function, the fixed arguments with
      the bit behind them if it is to be appended, and the text. */
  predicate PlaysBit(c: Call, t: Track, bit: bool) {
    && c.bit == bit && c.functionId == t.channel.functionId && c.ascii == t.channel.ascii
    && c.numbers == if t.channel.append then t.channel.fixed + [if bit then 1 else 0] else t.channel.fixed
  }

  /** The results of a track's calls, in order: one for each call that succeeded. */
  function ResultsOf(calls: seq<Call>, slot: nat, natives: Natives): seq<Record> {
    if calls == [] then []
    else
      var front, last := calls[..|calls| - 1], calls[|calls| - 1];
      var reply := natives(front, last);
      ResultsOf(front, slot, natives) + (if last.slot == slot && reply.Succeeds? then [ResultOf(reply)] else [])
  }

  /** The part of a track that configuring sets and playing leaves alone. */
  predicate SameSetup(t: Track, u: Track) {
    t.configured == u.configured && t.bits == u.bits && t.interval == u.interval && t.channel == u.channel
  }

  /** The calls are the bits of the track in order: in a finite run at most all of them, in a
      repeating one over and over. */
  ghost predicate PlaysInOrder(mine: seq<Call>, t: Track, repeating: bool)
    requires TrackOk(t)
  {
    if !t.configured then mine == []
    else
      && (forall k | 0 <= k < |mine| :: PlaysBit(mine[k], t, CyclicBit(t, k)))
      && (repeating || |mine| <= |t.bits|)
  }

  /** What the calls made so far say about a track: finite runs have called exactly the
      first `position` bits, repeating runs have called the pattern over and over. */
  ghost predicate TrackFollows(t: Track, mine: seq<Call>, repeating: bool)
    requires TrackOk(t)
  {
    if !t.configured then mine == [] && !t.active
    else
      && (forall k | 0 <= k < |mine| :: PlaysBit(mine[k], t, CyclicBit(t, k)))
      && (if repeating then t.active && t.position == |mine| % |t.bits|
          else t.position == |mine| <= |t.bits| && (t.active <==> |mine| < |t.bits|))
  }

  ghost predicate Follows(s: Sequencer)
    requires Shaped(s)
  {
    forall k | 0 <= k < MAX_TRACKS :: TrackFollows(s.tracks[k], CallsOf(s.calls, k), s.repeating)
  }

  ghost predicate BusyIsActive(s: Sequencer)
    requires Shaped(s)
  {
    forall k | 0 <= k < MAX_TRACKS :: s.busy[k] == s.tracks[k].active
  }

  /** Busy bits are the active tracks; the run is over exactly when none is active, and
      the completion event was emitted exactly then. */
  ghost predicate Consistent(s: Sequencer)
    requires Shaped(s)
  {
    && BusyIsActive(s)
    && (s.running <==> AnyActive(s))
    && s.events == if s.running then [] else [SequenceComplete]
  }

  /** The run was stopped by its last call: nothing is active or busy, and the one event names
      the track. */
  ghost predicate StoppedByFailure(s: Sequencer, natives: Natives)
    requires Shaped(s)
  {
    && !s.running && (forall k | 0 <= k < MAX_TRACKS :: !s.tracks[k].active && !s.busy[k])
    && LastFailed(s.calls, natives) && s.events == [SequenceError(s.calls[|s.calls| - 1].slot)]
  }
}
