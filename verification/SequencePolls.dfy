/** The sequencer under a condition on its polling alone: ticks in order, less than 2^31 ms
    apart. Such runs are timely, and enough ticks an interval apart end a finite one. */
module SequencePolls {
  import opened Deadline
  import opened SequenceSpec
  import opened SequenceRuns

  /** The time of the last tick, or of the start before any. */
  function LastTick(ops: seq<Op>, start: nat): nat {
    if ops == [] then start
    else if ops[|ops| - 1].TickAt? then ops[|ops| - 1].time
    else LastTick(ops[..|ops| - 1], start)
  }

  /** Ticks are in order, each less than 2^31 ms after the one before. */
  predicate Polled(ops: seq<Op>, start: nat) {
    ops == [] ||
    (var front, last := ops[..|ops| - 1], ops[|ops| - 1];
     Polled(front, start) && (last.TickAt? ==> LastTick(front, start) <= last.time < LastTick(front, start) + HALF))
  }

  /** The ticks that come `gap` or more after the one before. */
  function SlowTicks(ops: seq<Op>, start: nat, gap: nat): nat {
    if ops == [] then 0
    else
      var front, last := ops[..|ops| - 1], ops[|ops| - 1];
      SlowTicks(front, start, gap) +
      if last.TickAt? && LastTick(front, start) + gap <= last.time then 1 else 0
  }

  /** No configured track has a longer interval. */
  predicate IntervalsWithin(tracks: seq<Track>, gap: nat) {
    forall k | 0 <= k < |tracks| :: tracks[k].configured ==> tracks[k].interval <= gap
  }

  /** An active track is next due at or after the last tick, by at most the gap. */
  predicate TrackPaced(t: Track, mine: seq<Call>, start: nat, last: nat, gap: nat) {
    t.active ==> last <= NextTrue(t, mine, start) <= last + gap
  }

  /** Slots before `slot` are paced by the tick at hand, the others by the one before. */
  ghost predicate Paced(s: Sequencer, start: nat, slot: nat, time: nat, last: nat, gap: nat) {
    && (forall k | 0 <= k < |s.tracks| && k < slot :: TrackPaced(s.tracks[k], CallsOf(s.calls, k), start, time, gap))
    && (forall k | 0 <= k < |s.tracks| && k >= slot :: TrackPaced(s.tracks[k], CallsOf(s.calls, k), start, last, gap))
  }

  /** A track that is paced meets a tick less than 2^31 ms later in time. */
  lemma PacedIsTimely(s: Sequencer, start: nat, last: nat, time: nat, gap: nat)
    requires Paced(s, start, 0, time, last, gap) && last <= time < last + HALF && gap <= HALF
    ensures Timely(s, start, time, 0)
  {
    forall k | 0 <= k < |s.tracks|
      ensures TrackTimely(s.tracks[k], CallsOf(s.calls, k), start, time)
    {
      assert TrackPaced(s.tracks[k], CallsOf(s.calls, k), start, last, gap);
    }
  }

  lemma AdvancedPaced(t: Track, mine: seq<Call>, start: nat, slot: nat, time: nat, repeating: bool, result: Record, gap: nat)
    requires TrackOk(t) && t.active && t.interval <= gap
    ensures TrackPaced(Advanced(t, time, repeating, result), mine + [CallOf(t, slot, time)], start, time, gap)
  {
  }

  lemma FiringPaced(s: Sequencer, slot: nat, time: nat, natives: Natives, start: nat, gap: nat, k: nat)
    requires Shaped(s) && slot < MAX_TRACKS && k < MAX_TRACKS && Fires(s.tracks[slot], time) && s.tracks[slot].interval <= gap
    ensures var v := VisitSlot(s, slot, time, false, natives);
            && k < |v.s.tracks|
            && (v.failed ==> !v.s.tracks[k].active)
            && (!v.failed && k != slot ==> v.s.tracks[k] == s.tracks[k] && CallsOf(v.s.calls, k) == CallsOf(s.calls, k))
            && (k == slot ==> TrackPaced(v.s.tracks[k], CallsOf(v.s.calls, k), start, time, gap))
  {
    var t, call := s.tracks[slot], CallOf(s.tracks[slot], slot, time);
    CallsOfAppend(s.calls, call, k);
    if natives(s.calls, call).Succeeds? {
      AdvancedPaced(t, CallsOf(s.calls, slot), start, slot, time, s.repeating, ResultOf(natives(s.calls, call)), gap);
    }
  }

  /** A visit paces its slot by the tick: it fires, or it is not due yet. */
  lemma VisitPaces(s: Sequencer, slot: nat, time: nat, invoked: bool, natives: Natives, start: nat, last: nat, gap: nat)
    requires Shaped(s) && slot < MAX_TRACKS && IntervalsWithin(s.tracks, gap) && last <= time
    requires TrackTimed(s.tracks[slot], CallsOf(s.calls, slot), start)
    requires TrackTimely(s.tracks[slot], CallsOf(s.calls, slot), start, time)
    requires Paced(s, start, slot, time, last, gap)
    ensures Paced(VisitSlot(s, slot, time, invoked, natives).s, start, slot + 1, time, last, gap)
  {
    var v := VisitSlot(s, slot, time, invoked, natives).s;
    var t, mine := s.tracks[slot], CallsOf(s.calls, slot);
    assert TrackPaced(t, mine, start, last, gap);
    if t.active {
      FiresExactlyWhenDue(t, mine, start, time);
    }
    if Fires(t, time) {
      VisitKeepsShape(s, slot, time, invoked, natives);
      forall k | 0 <= k < MAX_TRACKS
        ensures TrackPaced(v.tracks[k], CallsOf(v.calls, k), start, if k <= slot then time else last, gap)
      {
        FiringPaced(s, slot, time, natives, start, gap, k);
        assert k < slot ==> TrackPaced(s.tracks[k], CallsOf(s.calls, k), start, time, gap);
        assert k > slot ==> TrackPaced(s.tracks[k], CallsOf(s.calls, k), start, last, gap);
      }
    }
  }

  lemma FailedVisitStops(s: Sequencer, slot: nat, time: nat, invoked: bool, natives: Natives, k: nat)
    requires Shaped(s) && slot < MAX_TRACKS && k < MAX_TRACKS && VisitSlot(s, slot, time, invoked, natives).failed
    ensures var v := VisitSlot(s, slot, time, invoked, natives).s;
            |v.tracks| == MAX_TRACKS && !v.tracks[k].active
  {
  }

  lemma {:induction false} VisitsPace(s: Sequencer, slot: nat, time: nat, invoked: bool, natives: Natives, start: nat, last: nat, gap: nat)
    requires Shaped(s) && slot <= MAX_TRACKS && IntervalsWithin(s.tracks, gap) && last <= time
    requires Timed(s, start) && Timely(s, start, time, slot) && Paced(s, start, slot, time, last, gap)
    ensures Paced(VisitFrom(s, slot, time, invoked, natives).s, start, MAX_TRACKS, time, last, gap)
    decreases MAX_TRACKS - slot
  {
    if slot < MAX_TRACKS {
      VisitPaces(s, slot, time, invoked, natives, start, last, gap);
      VisitTimed(s, slot, time, invoked, natives, start);
      VisitKeepsSetup(s, slot, time, invoked, natives);
      var v := VisitSlot(s, slot, time, invoked, natives);
      if v.failed {
        forall k | 0 <= k < MAX_TRACKS ensures !v.s.tracks[k].active {
          FailedVisitStops(s, slot, time, invoked, natives, k);
        }
      } else {
        SetupKeepsIntervals(s, v.s, gap);
        VisitsPace(v.s, slot + 1, time, v.invoked, natives, start, last, gap);
      }
    }
  }

  lemma SetupKeepsIntervals(s: Sequencer, r: Sequencer, gap: nat)
    requires Shaped(s) && Shaped(r) && KeepsSetup(s, r) && IntervalsWithin(s.tracks, gap)
    ensures IntervalsWithin(r.tracks, gap)
  {
    forall k | 0 <= k < MAX_TRACKS && r.tracks[k].configured ensures r.tracks[k].interval <= gap {
      assert SameSetup(s.tracks[k], r.tracks[k]);
    }
  }

  // ----- over runs -----

  /** All tracks are paced by the last tick. */
  ghost predicate PacedBy(s: Sequencer, start: nat, last: nat, gap: nat) {
    Paced(s, start, 0, last, last, gap)
  }

  lemma OverIsPaced(s: Sequencer, natives: Natives, start: nat, last: nat, gap: nat)
    requires RunInv(s, natives) && !s.running
    ensures PacedBy(s, start, last, gap)
  {
  }

  lemma TickPaces(s: Sequencer, time: nat, natives: Natives, start: nat, last: nat, gap: nat)
    requires RunInv(s, natives) && IntervalsWithin(s.tracks, gap) && gap <= HALF && last <= time < last + HALF
    requires Timed(s, start) && PacedBy(s, start, last, gap)
    ensures Timely(s, start, time, 0) && PacedBy(Tick(s, time, natives), start, time, gap)
  {
    PacedIsTimely(s, start, last, time, gap);
    if s.running {
      VisitsPace(s, 0, time, false, natives, start, last, gap);
    } else {
      OverIsPaced(s, natives, start, time, gap);
    }
  }

  lemma PopPaced(s: Sequencer, slot: nat, start: nat, last: nat, gap: nat)
    requires Shaped(s) && PacedBy(s, start, last, gap)
    ensures PacedBy(PopResult(s, slot), start, last, gap)
  {
    if slot < MAX_TRACKS {
      var r := PopResult(s, slot);
      forall k | 0 <= k < MAX_TRACKS ensures TrackPaced(r.tracks[k], CallsOf(r.calls, k), start, last, gap) {
        assert TrackPaced(s.tracks[k], CallsOf(s.calls, k), start, last, gap);
      }
    }
  }

  /** A run that is polled in order, with less than 2^31 ms between ticks, is timely. */
  lemma {:induction false} PolledIsTimely(s: Sequencer, ops: seq<Op>, natives: Natives, start: nat, gap: nat)
    requires RunInv(s, natives) && Timed(s, start) && PacedBy(s, start, start, gap) && IntervalsWithin(s.tracks, gap)
    requires Polled(ops, start) && gap <= HALF
    ensures TimelyRun(s, ops, natives, start) && PacedBy(Run(s, ops, natives), start, LastTick(ops, start), gap)
  {
    if ops != [] {
      var front, last := ops[..|ops| - 1], ops[|ops| - 1];
      PolledIsTimely(s, front, natives, start, gap);
      var before := Run(s, front, natives);
      RunKeepsInv(s, front, natives);
      RunKeepsTimed(s, front, natives, start);
      RunKeepsSetup(s, front, natives);
      SetupKeepsIntervals(s, before, gap);
      if last.TickAt? {
        TickPaces(before, last.time, natives, start, LastTick(front, start), gap);
      } else {
        PopPaced(before, last.slot, start, LastTick(front, start), gap);
      }
    }
  }

  lemma StartedRunIsTimely(s: Sequencer, repeating: bool, time: nat, ops: seq<Op>, natives: Natives, gap: nat)
    requires Shaped(s) && !s.running && AnyConfigured(s) && Polled(ops, time) && IntervalsWithin(s.tracks, gap) && gap <= HALF
    ensures var begun := Start(s, repeating, time);
            TimelyRun(begun, ops, natives, time) && PacedBy(Run(begun, ops, natives), time, LastTick(ops, time), gap)
  {
    var begun := Start(s, repeating, time);
    StartEstablishesInv(s, repeating, time, natives);
    StartIsTimed(s, repeating, time);
    PolledIsTimely(begun, ops, natives, time, gap);
  }

  /** However the sequencer is polled, in order and less than 2^31 ms apart: consecutive calls of
      a track are never closer than its configured interval. */
  lemma PolledRunIsSpaced(s: Sequencer, repeating: bool, time: nat, ops: seq<Op>, natives: Natives, slot: nat)
    requires Shaped(s) && !s.running && AnyConfigured(s) && slot < MAX_TRACKS && Polled(ops, time)
    ensures SpacedCalls(CallsOf(Run(Start(s, repeating, time), ops, natives).calls, slot), s.tracks[slot].interval, time)
  {
    StartedRunIsTimely(s, repeating, time, ops, natives, MAX_INTERVAL_MS);
    TimelyRunIsSpaced(s, repeating, time, ops, natives, slot);
  }

  // ----- polled runs end -----

  function LongestInterval(tracks: seq<Track>): nat {
    if tracks == [] then 0
    else
      var rest := LongestInterval(tracks[1..]);
      if tracks[0].configured && tracks[0].interval > rest then tracks[0].interval else rest
  }

  lemma {:induction false} LongestIsWithin(tracks: seq<Track>)
    requires forall k | 0 <= k < |tracks| :: TrackOk(tracks[k])
    ensures IntervalsWithin(tracks, LongestInterval(tracks)) && LongestInterval(tracks) <= MAX_INTERVAL_MS
  {
    if tracks != [] {
      LongestIsWithin(tracks[1..]);
      forall k | 0 <= k < |tracks| && tracks[k].configured ensures tracks[k].interval <= LongestInterval(tracks) {
        if k > 0 {
          assert tracks[1..][k - 1] == tracks[k];
        }
      }
    }
  }

  /** In a run that is on, some track is due once the longest interval has passed. */
  lemma SlowTickIsRipe(s: Sequencer, natives: Natives, start: nat, last: nat, time: nat, gap: nat)
    requires RunInv(s, natives) && s.running && PacedBy(s, start, last, gap) && last + gap <= time
    ensures Ripe(s, time, start)
  {
    var slot :| 0 <= slot < MAX_TRACKS && s.tracks[slot].active;
    assert TrackPaced(s.tracks[slot], CallsOf(s.calls, slot), start, last, gap);
  }

  lemma {:induction false} SlowTicksAreServed(s: Sequencer, ops: seq<Op>, natives: Natives, start: nat, gap: nat)
    requires RunInv(s, natives) && Timed(s, start) && PacedBy(s, start, start, gap) && IntervalsWithin(s.tracks, gap)
    requires Polled(ops, start) && gap <= HALF
    ensures SlowTicks(ops, start, gap) <= ServedTicks(s, ops, natives, start)
  {
    if ops != [] {
      var front, last := ops[..|ops| - 1], ops[|ops| - 1];
      SlowTicksAreServed(s, front, natives, start, gap);
      PolledIsTimely(s, front, natives, start, gap);
      RunKeepsInv(s, front, natives);
      var before := Run(s, front, natives);
      if last.TickAt? && LastTick(front, start) + gap <= last.time && before.running {
        SlowTickIsRipe(before, natives, start, LastTick(front, start), last.time, gap);
      }
    }
  }

  /** A finite run ends, under a condition on the polling alone: once as many ticks as there are
      bits configured have come the longest interval or more after the tick before, and however
      many others between them. */
  lemma PolledRunEnds(s: Sequencer, time: nat, ops: seq<Op>, natives: Natives)
    requires Shaped(s) && !s.running && AnyConfigured(s) && Polled(ops, time)
    requires SlowTicks(ops, time, LongestInterval(s.tracks)) >= ConfiguredBits(s.tracks)
    ensures var r := Run(Start(s, false, time), ops, natives);
            !r.running && if Succeeded(r.calls, natives) then r.events == [SequenceComplete] else StoppedByFailure(r, natives)
  {
    var begun, gap := Start(s, false, time), LongestInterval(s.tracks);
    LongestIsWithin(s.tracks);
    StartedRunIsTimely(s, false, time, ops, natives, gap);
    StartEstablishesInv(s, false, time, natives);
    StartIsTimed(s, false, time);
    SlowTicksAreServed(begun, ops, natives, time, gap);
    FiniteRunEnds(s, time, ops, natives);
  }
}
