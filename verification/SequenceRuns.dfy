/** Whole runs of the sequencer. */
module SequenceRuns {
  import opened Deadline
  import opened RecordQueue
  import opened SequenceSpec

  lemma CallsOfAppend(calls: seq<Call>, call: Call, slot: nat)
    ensures CallsOf(calls + [call], slot) ==
              if call.slot == slot then CallsOf(calls, slot) + [call] else CallsOf(calls, slot)
  {
    assert (calls + [call])[..|calls|] == calls;
  }

  lemma NextModulo(n: nat, m: nat)
    requires m > 0
    ensures (n + 1) % m == if n % m + 1 == m then 0 else n % m + 1
  {
    var q, r := n / m, n % m;
    assert n == m * q + r;
    if r + 1 == m {
      assert n + 1 == m * (q + 1);
      MultipleModulo(m, q + 1, 0);
    } else {
      MultipleModulo(m, q, r + 1);
    }
  }

  lemma MultipleModulo(m: nat, q: nat, r: nat)
    requires r < m
    ensures (m * q + r) % m == r
  {
    var n := m * q + r;
    var e := n / m - q;
    assert m * e == r - n % m;
  }

  // ----- what playing leaves alone -----

  ghost predicate KeepsSetup(s: Sequencer, r: Sequencer)
    requires Shaped(s) && Shaped(r)
  {
    forall k | 0 <= k < MAX_TRACKS :: SameSetup(s.tracks[k], r.tracks[k])
  }

  lemma VisitKeepsSetup(s: Sequencer, slot: nat, time: nat, invoked: bool, natives: Natives)
    requires Shaped(s) && slot < MAX_TRACKS
    ensures var v := VisitSlot(s, slot, time, invoked, natives);
            Shaped(v.s) && KeepsSetup(s, v.s) && v.s.repeating == s.repeating
  {
    VisitKeepsShape(s, slot, time, invoked, natives);
  }

  lemma SetupIsTransitive(s: Sequencer, r: Sequencer, u: Sequencer)
    requires Shaped(s) && Shaped(r) && Shaped(u) && KeepsSetup(s, r) && KeepsSetup(r, u)
    ensures KeepsSetup(s, u)
  {
  }

  lemma {:induction false} VisitsKeepSetup(s: Sequencer, slot: nat, time: nat, invoked: bool, natives: Natives)
    requires Shaped(s) && slot <= MAX_TRACKS
    ensures var v := VisitFrom(s, slot, time, invoked, natives);
            Shaped(v.s) && KeepsSetup(s, v.s) && v.s.repeating == s.repeating
    decreases MAX_TRACKS - slot
  {
    if slot < MAX_TRACKS {
      VisitKeepsSetup(s, slot, time, invoked, natives);
      var v := VisitSlot(s, slot, time, invoked, natives);
      if !v.failed {
        VisitsKeepSetup(v.s, slot + 1, time, v.invoked, natives);
        SetupIsTransitive(s, v.s, VisitFrom(v.s, slot + 1, time, v.invoked, natives).s);
      }
    }
  }

  /** No run, whatever the natives answer, changes a track's pattern, interval or channel, nor
      whether the run repeats. */
  lemma {:induction false} RunKeepsSetup(s: Sequencer, ops: seq<Op>, natives: Natives)
    requires Shaped(s)
    ensures KeepsSetup(s, Run(s, ops, natives)) && Run(s, ops, natives).repeating == s.repeating
  {
    if ops != [] {
      var before, last := Run(s, ops[..|ops| - 1], natives), ops[|ops| - 1];
      RunKeepsSetup(s, ops[..|ops| - 1], natives);
      if last.TickAt? {
        VisitsKeepSetup(before, 0, last.time, false, natives);
      }
    }
  }

  // ----- which bits are called -----

  /** A successful call keeps a track in step with its calls. */
  lemma AdvancedFollows(t: Track, mine: seq<Call>, slot: nat, time: nat, repeating: bool, result: Record)
    requires TrackOk(t) && t.active && TrackFollows(t, mine, repeating)
    ensures var t' := Advanced(t, time, repeating, result);
            TrackOk(t') && TrackFollows(t', mine + [CallOf(t, slot, time)], repeating)
  {
    NextModulo(|mine|, |t.bits|);
    if !repeating {
      MultipleModulo(|t.bits|, 0, |mine|);
    }
    assert CyclicBit(t, |mine|) == t.bits[t.position];
  }

  lemma FiringFollows(s: Sequencer, slot: nat, time: nat, natives: Natives, k: nat)
    requires Shaped(s) && slot < MAX_TRACKS && k < MAX_TRACKS && Follows(s) && Fires(s.tracks[slot], time)
    requires natives(s.calls, CallOf(s.tracks[slot], slot, time)).Succeeds?
    ensures var v := VisitSlot(s, slot, time, false, natives).s;
            |v.tracks| == MAX_TRACKS && TrackOk(v.tracks[k]) && TrackFollows(v.tracks[k], CallsOf(v.calls, k), s.repeating)
  {
    var t, call := s.tracks[slot], CallOf(s.tracks[slot], slot, time);
    assert TrackFollows(s.tracks[k], CallsOf(s.calls, k), s.repeating);
    AdvancedFollows(t, CallsOf(s.calls, slot), slot, time, s.repeating, ResultOf(natives(s.calls, call)));
    CallsOfAppend(s.calls, call, k);
  }

  /** A call that fails is the next bit of its track, too. */
  lemma FailingInOrder(s: Sequencer, slot: nat, time: nat, k: nat)
    requires Shaped(s) && slot < MAX_TRACKS && k < MAX_TRACKS && Follows(s) && Fires(s.tracks[slot], time)
    ensures PlaysInOrder(CallsOf(s.calls + [CallOf(s.tracks[slot], slot, time)], k), s.tracks[k], s.repeating)
  {
    assert TrackFollows(s.tracks[k], CallsOf(s.calls, k), s.repeating);
    AdvancedFollows(s.tracks[slot], CallsOf(s.calls, slot), slot, time, s.repeating, []);
    CallsOfAppend(s.calls, CallOf(s.tracks[slot], slot, time), k);
  }

  lemma OneMoreCall(calls: seq<Call>, call: Call, natives: Natives)
    requires Succeeded(calls, natives) && call.slot < MAX_TRACKS
    ensures if natives(calls, call).Succeeds? then Succeeded(calls + [call], natives) else LastFailed(calls + [call], natives)
  {
    assert (calls + [call])[..|calls + [call]| - 1] == calls;
  }

  /** What holds while no call has failed. */
  ghost predicate Going(s: Sequencer, natives: Natives)
    requires Shaped(s)
  {
    Follows(s) && BusyIsActive(s) && Succeeded(s.calls, natives)
  }

  /** What holds after one has. */
  ghost predicate Gone(s: Sequencer, natives: Natives)
    requires Shaped(s)
  {
    && StoppedByFailure(s, natives)
    && forall k | 0 <= k < MAX_TRACKS :: PlaysInOrder(CallsOf(s.calls, k), s.tracks[k], s.repeating)
  }

  lemma FailingStops(s: Sequencer, slot: nat, time: nat, natives: Natives)
    requires Shaped(s) && slot < MAX_TRACKS && Going(s, natives) && s.events == [] && Fires(s.tracks[slot], time)
    requires natives(s.calls, CallOf(s.tracks[slot], slot, time)).Fails?
    ensures Shaped(VisitSlot(s, slot, time, false, natives).s) && Gone(VisitSlot(s, slot, time, false, natives).s, natives)
  {
    var v := VisitSlot(s, slot, time, false, natives).s;
    VisitKeepsShape(s, slot, time, false, natives);
    OneMoreCall(s.calls, CallOf(s.tracks[slot], slot, time), natives);
    forall k | 0 <= k < MAX_TRACKS
      ensures PlaysInOrder(CallsOf(v.calls, k), v.tracks[k], v.repeating)
    {
      FailingInOrder(s, slot, time, k);
    }
  }

  /** What a visit, or several, leave of a run without failures. */
  ghost predicate Visited(s: Sequencer, invoked: bool, v: Visit, natives: Natives)
    requires Shaped(v.s)
  {
    if v.failed then Gone(v.s, natives)
    else
      && Going(v.s, natives) && v.s.running == s.running && v.s.events == s.events && v.s.repeating == s.repeating
      && (invoked ==> v.invoked) && (!v.invoked ==> v.s == s)
  }

  lemma VisitFollows(s: Sequencer, slot: nat, time: nat, invoked: bool, natives: Natives)
    requires Shaped(s) && slot < MAX_TRACKS && Going(s, natives) && s.events == []
    ensures var v := VisitSlot(s, slot, time, invoked, natives);
            Shaped(v.s) && Visited(s, invoked, v, natives)
  {
    VisitKeepsShape(s, slot, time, invoked, natives);
    if Fires(s.tracks[slot], time) {
      var call := CallOf(s.tracks[slot], slot, time);
      if natives(s.calls, call).Fails? {
        FailingStops(s, slot, time, natives);
      } else {
        OneMoreCall(s.calls, call, natives);
        forall k | 0 <= k < MAX_TRACKS
          ensures var v := VisitSlot(s, slot, time, invoked, natives).s;
                  TrackFollows(v.tracks[k], CallsOf(v.calls, k), s.repeating)
        {
          FiringFollows(s, slot, time, natives, k);
        }
      }
    }
  }

  lemma VisitedTwice(s: Sequencer, invoked: bool, v: Visit, r: Visit, natives: Natives)
    requires Shaped(v.s) && Shaped(r.s) && Visited(s, invoked, v, natives) && !v.failed
    requires Visited(v.s, v.invoked, r, natives)
    ensures Visited(s, invoked, r, natives)
  {
  }

  lemma {:induction false} VisitsFollow(s: Sequencer, slot: nat, time: nat, invoked: bool, natives: Natives)
    requires Shaped(s) && slot <= MAX_TRACKS && Going(s, natives) && s.events == []
    ensures var v := VisitFrom(s, slot, time, invoked, natives);
            Shaped(v.s) && Visited(s, invoked, v, natives)
    decreases MAX_TRACKS - slot
  {
    if slot < MAX_TRACKS {
      VisitFollows(s, slot, time, invoked, natives);
      var v := VisitSlot(s, slot, time, invoked, natives);
      if !v.failed {
        VisitsFollow(v.s, slot + 1, time, v.invoked, natives);
        VisitedTwice(s, invoked, v, VisitFrom(v.s, slot + 1, time, v.invoked, natives), natives);
      }
    }
  }

  ghost predicate RunInv(s: Sequencer, natives: Natives) {
    Shaped(s) && ((Going(s, natives) && Consistent(s)) || Gone(s, natives))
  }

  lemma TickKeepsInv(s: Sequencer, time: nat, natives: Natives)
    requires RunInv(s, natives)
    ensures RunInv(Tick(s, time, natives), natives)
  {
    if s.running {
      VisitsFollow(s, 0, time, false, natives);
      var v := VisitFrom(s, 0, time, false, natives);
      if !v.failed {
        var done := v.s.(running := false, events := v.s.events + [SequenceComplete]);
        assert Follows(done) && BusyIsActive(done);
      }
    }
  }

  lemma PopKeepsInv(s: Sequencer, slot: nat, natives: Natives)
    requires RunInv(s, natives)
    ensures RunInv(PopResult(s, slot), natives)
  {
    if slot < MAX_TRACKS {
      var r := PopResult(s, slot);
      assert forall k | 0 <= k < MAX_TRACKS :: r.tracks[k].active == s.tracks[k].active;
      forall k | 0 <= k < MAX_TRACKS
        ensures Going(s, natives) ==> TrackFollows(r.tracks[k], CallsOf(r.calls, k), r.repeating)
        ensures Gone(s, natives) ==> PlaysInOrder(CallsOf(r.calls, k), r.tracks[k], r.repeating)
      {
        assert Going(s, natives) ==> TrackFollows(s.tracks[k], CallsOf(s.calls, k), s.repeating);
        assert Gone(s, natives) ==> PlaysInOrder(CallsOf(s.calls, k), s.tracks[k], s.repeating);
      }
    }
  }

  lemma FreshTrackFollows(t: Track, time: nat, repeating: bool)
    requires TrackOk(t)
    ensures var r := t.(active := t.configured, position := 0, nextAt := time % UINT32);
            TrackOk(r) && TrackFollows(r, [], repeating)
  {
    if t.configured {
      MultipleModulo(|t.bits|, 0, 0);
    }
  }

  lemma StartEstablishesInv(s: Sequencer, repeating: bool, time: nat, natives: Natives)
    requires Shaped(s) && !s.running && AnyConfigured(s)
    ensures RunInv(Start(s, repeating, time), natives)
  {
    var r := Start(s, repeating, time);
    forall k | 0 <= k < MAX_TRACKS
      ensures TrackOk(r.tracks[k]) && TrackFollows(r.tracks[k], CallsOf(r.calls, k), r.repeating)
    {
      FreshTrackFollows(s.tracks[k], time, repeating);
    }
    var k :| 0 <= k < MAX_TRACKS && s.tracks[k].configured;
    assert r.tracks[k].active;
  }

  lemma {:induction false} RunKeepsInv(s: Sequencer, ops: seq<Op>, natives: Natives)
    requires RunInv(s, natives)
    ensures RunInv(Run(s, ops, natives), natives)
  {
    if ops != [] {
      var before := Run(s, ops[..|ops| - 1], natives);
      RunKeepsInv(s, ops[..|ops| - 1], natives);
      match ops[|ops| - 1]
      case TickAt(time) => TickKeepsInv(before, time, natives);
      case PopFrom(slot) => PopKeepsInv(before, slot, natives);
    }
  }

  /** What a finite run has done for a track configured as `t`: called its function with
      exactly its first bits, in order; its busy bit is set exactly while calls remain. */
  ghost predicate PlayedSoFar(r: Sequencer, slot: nat, t: Track)
    requires Shaped(r) && slot < MAX_TRACKS
  {
    var mine := CallsOf(r.calls, slot);
    if !t.configured then mine == [] && !r.busy[slot]
    else
      && |mine| <= |t.bits| && (forall k | 0 <= k < |mine| :: PlaysBit(mine[k], t, t.bits[k]))
      && (r.busy[slot] <==> |mine| < |t.bits|)
      && (!r.running ==> |mine| == |t.bits|)
  }

  /** Some pattern configured in `tracks` has calls left to make. */
  ghost predicate CallsRemain(r: Sequencer, tracks: seq<Track>) {
    exists k | 0 <= k < |tracks| :: tracks[k].configured && |CallsOf(r.calls, k)| < |tracks[k].bits|
  }

  lemma GoingSaysRunning(r: Sequencer, natives: Natives, tracks: seq<Track>)
    requires Shaped(r) && Going(r, natives) && Consistent(r) && !r.repeating
    requires |tracks| == MAX_TRACKS && forall k | 0 <= k < MAX_TRACKS :: SameSetup(tracks[k], r.tracks[k])
    ensures r.running <==> CallsRemain(r, tracks)
  {
    forall k | 0 <= k < MAX_TRACKS
      ensures r.tracks[k].active <==> tracks[k].configured && |CallsOf(r.calls, k)| < |tracks[k].bits|
    {
      assert TrackFollows(r.tracks[k], CallsOf(r.calls, k), false) && SameSetup(tracks[k], r.tracks[k]);
    }
  }

  lemma GoingSaysPlayed(r: Sequencer, slot: nat, natives: Natives)
    requires Shaped(r) && Going(r, natives) && Consistent(r) && !r.repeating && slot < MAX_TRACKS
    ensures PlayedSoFar(r, slot, r.tracks[slot])
  {
    var t, mine := r.tracks[slot], CallsOf(r.calls, slot);
    assert TrackFollows(t, mine, false);
    if t.configured {
      forall k | 0 <= k < |mine| ensures PlaysBit(mine[k], t, t.bits[k]) {
        MultipleModulo(|t.bits|, 0, k);
        assert PlaysBit(mine[k], t, CyclicBit(t, k));
      }
    }
  }

  /** A run that has lost a call is over, and a run that has lost none is not stopped. */
  lemma RunGoesOrIsGone(s: Sequencer, repeating: bool, time: nat, ops: seq<Op>, natives: Natives)
    requires Shaped(s) && !s.running && AnyConfigured(s)
    ensures var r := Run(Start(s, repeating, time), ops, natives);
            && r.repeating == repeating && KeepsSetup(s, r)
            && if Succeeded(r.calls, natives) then Going(r, natives) && Consistent(r) else Gone(r, natives)
  {
    var begun := Start(s, repeating, time);
    StartEstablishesInv(s, repeating, time, natives);
    RunKeepsInv(begun, ops, natives);
    RunKeepsSetup(begun, ops, natives);
    SetupIsTransitive(s, begun, Run(begun, ops, natives));
  }

  /** Main theorem for a finite run, at every moment of it and whatever the natives answer.
      While calls succeed, each track configured at the start has called its function with
      exactly its first bits in order, the run is on exactly while some pattern has bits left,
      and one completion event is emitted, exactly when all have been played out. The first call that fails is the last: nothing stays active
      or busy, and the only event names its track. */
  lemma FiniteRunPlaysEveryBit(s: Sequencer, time: nat, ops: seq<Op>, natives: Natives, slot: nat)
    requires Shaped(s) && !s.running && AnyConfigured(s) && slot < MAX_TRACKS
    ensures var r := Run(Start(s, false, time), ops, natives);
            if Succeeded(r.calls, natives) then
              && PlayedSoFar(r, slot, s.tracks[slot]) && (r.running <==> CallsRemain(r, s.tracks))
              && r.events == if r.running then [] else [SequenceComplete]
            else
              StoppedByFailure(r, natives) && PlaysInOrder(CallsOf(r.calls, slot), s.tracks[slot], false)
  {
    RunGoesOrIsGone(s, false, time, ops, natives);
    var r := Run(Start(s, false, time), ops, natives);
    assert SameSetup(s.tracks[slot], r.tracks[slot]);
    if Succeeded(r.calls, natives) {
      GoingSaysPlayed(r, slot, natives);
      GoingSaysRunning(r, natives, s.tracks);
    } else {
      assert PlaysInOrder(CallsOf(r.calls, slot), r.tracks[slot], false);
    }
  }

  /** A repeating run calls each pattern over and over, and ends only when a call fails. */
  lemma RepeatingRunCycles(s: Sequencer, time: nat, ops: seq<Op>, natives: Natives, slot: nat)
    requires Shaped(s) && !s.running && AnyConfigured(s) && slot < MAX_TRACKS
    ensures var r := Run(Start(s, true, time), ops, natives);
            && PlaysInOrder(CallsOf(r.calls, slot), s.tracks[slot], true)
            && if Succeeded(r.calls, natives) then r.running && r.busy[slot] == s.tracks[slot].configured && r.events == []
               else StoppedByFailure(r, natives)
  {
    RunGoesOrIsGone(s, true, time, ops, natives);
    var r := Run(Start(s, true, time), ops, natives);
    assert SameSetup(s.tracks[slot], r.tracks[slot]);
    if Succeeded(r.calls, natives) {
      assert TrackFollows(r.tracks[slot], CallsOf(r.calls, slot), true);
      var k :| 0 <= k < MAX_TRACKS && s.tracks[k].configured;
      assert SameSetup(s.tracks[k], r.tracks[k]) && TrackFollows(r.tracks[k], CallsOf(r.calls, k), true);
    } else {
      assert PlaysInOrder(CallsOf(r.calls, slot), r.tracks[slot], true);
    }
  }

  // ----- when calls are made -----

  /** The true time from which a track may be called next. */
  function NextTrue(t: Track, mine: seq<Call>, start: nat): nat {
    if mine == [] then start else mine[|mine| - 1].at + t.interval
  }

  ghost predicate TrackTimed(t: Track, mine: seq<Call>, start: nat) {
    && (t.active ==> t.nextAt == NextTrue(t, mine, start) % UINT32)
    && (mine != [] ==> mine[0].at >= start)
    && (forall k | 0 < k < |mine| :: mine[k].at >= mine[k - 1].at + t.interval)
  }

  /** A tick comes less than 2^31 ms before or after the deadline of every active track. */
  ghost predicate TrackTimely(t: Track, mine: seq<Call>, start: nat, time: nat) {
    t.active ==> -(HALF as int) <= time - NextTrue(t, mine, start) < HALF
  }

  ghost predicate Timed(s: Sequencer, start: nat) {
    forall k | 0 <= k < |s.tracks| :: TrackTimed(s.tracks[k], CallsOf(s.calls, k), start)
  }

  ghost predicate Timely(s: Sequencer, start: nat, time: nat, from: nat) {
    forall k | from <= k < |s.tracks| :: TrackTimely(s.tracks[k], CallsOf(s.calls, k), start, time)
  }

  /** Across counter wrap, a timely tick calls a track exactly when its interval has passed. */
  lemma FiresExactlyWhenDue(t: Track, mine: seq<Call>, start: nat, time: nat)
    requires TrackTimed(t, mine, start) && TrackTimely(t, mine, start, time) && t.active
    ensures Fires(t, time) <==> NextTrue(t, mine, start) <= time
  {
    DueIsExact(time, NextTrue(t, mine, start));
  }

  lemma AdvancedTimed(t: Track, mine: seq<Call>, start: nat, slot: nat, time: nat, repeating: bool, result: Record)
    requires TrackOk(t) && TrackTimed(t, mine, start) && TrackTimely(t, mine, start, time) && Fires(t, time)
    ensures TrackTimed(Advanced(t, time, repeating, result), mine + [CallOf(t, slot, time)], start)
  {
    FiresExactlyWhenDue(t, mine, start, time);
  }

  lemma FiringTimed(s: Sequencer, slot: nat, time: nat, natives: Natives, start: nat, k: nat)
    requires Shaped(s) && slot < MAX_TRACKS && k < MAX_TRACKS && Timed(s, start) && Fires(s.tracks[slot], time)
    requires TrackTimely(s.tracks[slot], CallsOf(s.calls, slot), start, time)
    ensures var v := VisitSlot(s, slot, time, false, natives).s;
            k < |v.tracks| && TrackTimed(v.tracks[k], CallsOf(v.calls, k), start)
    ensures var v := VisitSlot(s, slot, time, false, natives);
            k != slot && !v.failed ==> v.s.tracks[k] == s.tracks[k] && CallsOf(v.s.calls, k) == CallsOf(s.calls, k)
  {
    var mine := CallsOf(s.calls, slot);
    var call := CallOf(s.tracks[slot], slot, time);
    CallsOfAppend(s.calls, call, k);
    assert TrackTimed(s.tracks[k], CallsOf(s.calls, k), start);
    if k == slot {
      FailedTimed(s.tracks[slot], mine, start, slot, time);
      if natives(s.calls, call).Succeeds? {
        AdvancedTimed(s.tracks[slot], mine, start, slot, time, s.repeating, ResultOf(natives(s.calls, call)));
      }
    }
  }

  /** A call that fails was not early either. */
  lemma FailedTimed(t: Track, mine: seq<Call>, start: nat, slot: nat, time: nat)
    requires TrackOk(t) && TrackTimed(t, mine, start) && TrackTimely(t, mine, start, time) && Fires(t, time)
    ensures TrackTimed(t.(active := false), mine + [CallOf(t, slot, time)], start)
  {
    FiresExactlyWhenDue(t, mine, start, time);
  }

  lemma VisitTimed(s: Sequencer, slot: nat, time: nat, invoked: bool, natives: Natives, start: nat)
    requires Shaped(s) && slot < MAX_TRACKS && Timed(s, start) && Timely(s, start, time, slot)
    ensures var v := VisitSlot(s, slot, time, invoked, natives);
            Timed(v.s, start) && (!v.failed ==> Timely(v.s, start, time, slot + 1))
  {
    VisitKeepsShape(s, slot, time, invoked, natives);
    var v := VisitSlot(s, slot, time, invoked, natives);
    if Fires(s.tracks[slot], time) {
      forall k | 0 <= k < MAX_TRACKS
        ensures TrackTimed(v.s.tracks[k], CallsOf(v.s.calls, k), start)
        ensures k > slot && !v.failed ==> TrackTimely(v.s.tracks[k], CallsOf(v.s.calls, k), start, time)
      {
        FiringTimed(s, slot, time, natives, start, k);
      }
    }
  }

  lemma {:induction false} VisitsTimed(s: Sequencer, slot: nat, time: nat, invoked: bool, natives: Natives, start: nat)
    requires Shaped(s) && slot <= MAX_TRACKS && Timed(s, start) && Timely(s, start, time, slot)
    ensures Timed(VisitFrom(s, slot, time, invoked, natives).s, start)
    decreases MAX_TRACKS - slot
  {
    if slot < MAX_TRACKS {
      VisitKeepsShape(s, slot, time, invoked, natives);
      VisitTimed(s, slot, time, invoked, natives, start);
      var v := VisitSlot(s, slot, time, invoked, natives);
      if !v.failed {
        VisitsTimed(v.s, slot + 1, time, v.invoked, natives, start);
      }
    }
  }

  /** Every tick of the run is timely. */
  ghost predicate TimelyRun(s: Sequencer, ops: seq<Op>, natives: Natives, start: nat)
    requires Shaped(s)
  {
    ops == [] ||
    (var front, last := ops[..|ops| - 1], ops[|ops| - 1];
     TimelyRun(s, front, natives, start) && (last.TickAt? ==> Timely(Run(s, front, natives), start, last.time, 0)))
  }

  lemma {:induction false} RunKeepsTimed(s: Sequencer, ops: seq<Op>, natives: Natives, start: nat)
    requires Shaped(s) && Timed(s, start) && TimelyRun(s, ops, natives, start)
    ensures Timed(Run(s, ops, natives), start)
  {
    if ops != [] {
      var front, last := ops[..|ops| - 1], ops[|ops| - 1];
      RunKeepsTimed(s, front, natives, start);
      var before := Run(s, front, natives);
      if last.TickAt? {
        VisitsTimed(before, 0, last.time, false, natives, start);
      } else {
        PopTimed(before, last.slot, start);
      }
    }
  }

  lemma PopTimed(s: Sequencer, slot: nat, start: nat)
    requires Shaped(s) && Timed(s, start)
    ensures Timed(PopResult(s, slot), start)
  {
    if slot < MAX_TRACKS {
      var r := PopResult(s, slot);
      forall k | 0 <= k < MAX_TRACKS ensures TrackTimed(r.tracks[k], CallsOf(r.calls, k), start) {
        assert TrackTimed(s.tracks[k], CallsOf(s.calls, k), start);
      }
    }
  }

  /** Calls not before the start, and never closer than the interval. */
  ghost predicate SpacedCalls(mine: seq<Call>, interval: nat, start: nat) {
    && (mine != [] ==> mine[0].at >= start)
    && forall k | 0 < k < |mine| :: mine[k].at >= mine[k - 1].at + interval
  }

  /** In a timely run, finite or repeating, failed or not, consecutive calls of one track are
      never closer than the interval it was configured with, and the first is not before the
      start. */
  lemma TimelyRunIsSpaced(s: Sequencer, repeating: bool, time: nat, ops: seq<Op>, natives: Natives, slot: nat)
    requires Shaped(s) && !s.running && AnyConfigured(s) && slot < MAX_TRACKS
    requires TimelyRun(Start(s, repeating, time), ops, natives, time)
    ensures SpacedCalls(CallsOf(Run(Start(s, repeating, time), ops, natives).calls, slot), s.tracks[slot].interval, time)
  {
    var begun := Start(s, repeating, time);
    StartIsTimed(s, repeating, time);
    RunKeepsTimed(begun, ops, natives, time);
    RunKeepsSetup(begun, ops, natives);
    var r := Run(begun, ops, natives);
    assert TrackTimed(r.tracks[slot], CallsOf(r.calls, slot), time);
    assert SameSetup(begun.tracks[slot], r.tracks[slot]) && SameSetup(s.tracks[slot], begun.tracks[slot]);
  }

  lemma StartIsTimed(s: Sequencer, repeating: bool, time: nat)
    requires Shaped(s) && !s.running && AnyConfigured(s)
    ensures Timed(Start(s, repeating, time), time)
  {
  }

  // ----- finite runs end -----

  /** Calls that a finite run still has to make. */
  function Left(t: Track): nat {
    if t.active && t.position < |t.bits| then |t.bits| - t.position else 0
  }

  function Remaining(tracks: seq<Track>): nat {
    if tracks == [] then 0 else Left(tracks[0]) + Remaining(tracks[1..])
  }

  lemma {:induction false} RemainingAfter(tracks: seq<Track>, slot: nat, t: Track)
    requires slot < |tracks|
    ensures Remaining(tracks[slot := t]) == Remaining(tracks) - Left(tracks[slot]) + Left(t)
  {
    if slot == 0 {
      assert tracks[slot := t][1..] == tracks[1..];
    } else {
      assert tracks[slot := t][1..] == tracks[1..][slot - 1 := t];
      RemainingAfter(tracks[1..], slot - 1, t);
    }
  }

  lemma {:induction false} ActiveHasWork(tracks: seq<Track>, slot: nat)
    requires slot < |tracks| && TrackOk(tracks[slot]) && tracks[slot].active
    ensures Remaining(tracks) > 0
  {
    if slot > 0 {
      ActiveHasWork(tracks[1..], slot - 1);
    }
  }

  lemma {:induction false} IdleHasNone(tracks: seq<Track>)
    requires forall k | 0 <= k < |tracks| :: !tracks[k].active
    ensures Remaining(tracks) == 0
  {
    if tracks != [] {
      IdleHasNone(tracks[1..]);
    }
  }

  /** A call is one less to make, and none is left when it fails. */
  lemma VisitProgresses(s: Sequencer, slot: nat, time: nat, invoked: bool, natives: Natives)
    requires Shaped(s) && slot < MAX_TRACKS && !s.repeating
    ensures var v := VisitSlot(s, slot, time, invoked, natives);
            Remaining(v.s.tracks) <= Remaining(s.tracks) - (if Fires(s.tracks[slot], time) then 1 else 0)
  {
    var t := s.tracks[slot];
    if Fires(t, time) {
      var reply := natives(s.calls, CallOf(t, slot, time));
      if reply.Fails? {
        IdleHasNone(StopAll(s).tracks);
        ActiveHasWork(s.tracks, slot);
      } else {
        RemainingAfter(s.tracks, slot, Advanced(t, time, s.repeating, ResultOf(reply)));
      }
    }
  }

  lemma {:induction false} VisitsProgress(s: Sequencer, slot: nat, time: nat, invoked: bool, natives: Natives, due: nat)
    requires Shaped(s) && slot <= MAX_TRACKS && !s.repeating
    ensures var v := VisitFrom(s, slot, time, invoked, natives);
            && v.s.repeating == s.repeating && Remaining(v.s.tracks) <= Remaining(s.tracks)
            && (slot <= due < MAX_TRACKS && Fires(s.tracks[due], time) ==> Remaining(v.s.tracks) < Remaining(s.tracks))
    decreases MAX_TRACKS - slot
  {
    if slot < MAX_TRACKS {
      VisitKeepsShape(s, slot, time, invoked, natives);
      VisitProgresses(s, slot, time, invoked, natives);
      var v := VisitSlot(s, slot, time, invoked, natives);
      if !v.failed {
        VisitsProgress(v.s, slot + 1, time, v.invoked, natives, due);
      }
    }
  }

  /** The run is on and some track is due. */
  ghost predicate Ripe(s: Sequencer, time: nat, start: nat) {
    s.running && exists slot | 0 <= slot < |s.tracks| ::
      s.tracks[slot].active && NextTrue(s.tracks[slot], CallsOf(s.calls, slot), start) <= time
  }

  /** The ticks of a run at which some track is due. */
  ghost function RipeTicks(s: Sequencer, ops: seq<Op>, natives: Natives, start: nat): nat
    requires Shaped(s)
  {
    if ops == [] then 0
    else
      var front, last := ops[..|ops| - 1], ops[|ops| - 1];
      RipeTicks(s, front, natives, start) +
      if last.TickAt? && Ripe(Run(s, front, natives), last.time, start) then 1 else 0
  }

  lemma RipeTickProgresses(s: Sequencer, time: nat, natives: Natives, start: nat)
    requires Shaped(s) && !s.repeating
    requires Timed(s, start) && Timely(s, start, time, 0) && Ripe(s, time, start)
    ensures Remaining(Tick(s, time, natives).tracks) < Remaining(s.tracks)
  {
    var slot :| 0 <= slot < |s.tracks| && s.tracks[slot].active &&
                NextTrue(s.tracks[slot], CallsOf(s.calls, slot), start) <= time;
    FiresExactlyWhenDue(s.tracks[slot], CallsOf(s.calls, slot), start, time);
    VisitsProgress(s, 0, time, false, natives, slot);
  }

  lemma PopKeepsRemaining(s: Sequencer, slot: nat)
    requires Shaped(s)
    ensures Remaining(PopResult(s, slot).tracks) == Remaining(s.tracks)
  {
    if slot < MAX_TRACKS {
      RemainingAfter(s.tracks, slot, s.tracks[slot].(results := Pop(s.tracks[slot].results)));
    }
  }

  lemma {:induction false} RipeTicksAreSpent(s: Sequencer, ops: seq<Op>, natives: Natives, start: nat)
    requires Shaped(s) && !s.repeating && Timed(s, start) && TimelyRun(s, ops, natives, start)
    ensures RipeTicks(s, ops, natives, start) + Remaining(Run(s, ops, natives).tracks) <= Remaining(s.tracks)
  {
    if ops != [] {
      var front, last := ops[..|ops| - 1], ops[|ops| - 1];
      RipeTicksAreSpent(s, front, natives, start);
      RunKeepsTimed(s, front, natives, start);
      RunKeepsSetup(s, front, natives);
      var before := Run(s, front, natives);
      if last.PopFrom? {
        PopKeepsRemaining(before, last.slot);
      } else {
        VisitsProgress(before, 0, last.time, false, natives, 0);
        if Ripe(before, last.time, start) {
          RipeTickProgresses(before, last.time, natives, start);
        }
      }
    }
  }

  function ConfiguredBits(tracks: seq<Track>): nat {
    if tracks == [] then 0 else (if tracks[0].configured then |tracks[0].bits| else 0) + ConfiguredBits(tracks[1..])
  }

  lemma {:induction false} BitsRemain(before: seq<Track>, after: seq<Track>)
    requires |before| == |after|
    requires forall k | 0 <= k < |before| ::
               after[k].bits == before[k].bits && after[k].position == 0 && after[k].active == before[k].configured
    ensures Remaining(after) == ConfiguredBits(before)
  {
    if before != [] {
      BitsRemain(before[1..], after[1..]);
    }
  }

  /** The ticks of a run at which some track is due, or that come after its end. */
  ghost function ServedTicks(s: Sequencer, ops: seq<Op>, natives: Natives, start: nat): nat
    requires Shaped(s)
  {
    if ops == [] then 0
    else
      var front, last := ops[..|ops| - 1], ops[|ops| - 1];
      var before := Run(s, front, natives);
      ServedTicks(s, front, natives, start) +
      if last.TickAt? && (!before.running || Ripe(before, last.time, start)) then 1 else 0
  }

  lemma {:induction false} TicksServedWhileRunning(s: Sequencer, ops: seq<Op>, natives: Natives, start: nat)
    requires Shaped(s) && Run(s, ops, natives).running
    ensures ServedTicks(s, ops, natives, start) == RipeTicks(s, ops, natives, start)
  {
    if ops != [] {
      TicksServedWhileRunning(s, ops[..|ops| - 1], natives, start);
    }
  }

  /** A finite run ends: however often it is polled in between, after as many timely ticks as
      there are bits configured, each with a track due or after the end already, everything has
      been played out and the completion event emitted, or a call has failed. */
  lemma FiniteRunEnds(s: Sequencer, time: nat, ops: seq<Op>, natives: Natives)
    requires Shaped(s) && !s.running && AnyConfigured(s)
    requires TimelyRun(Start(s, false, time), ops, natives, time)
    requires ServedTicks(Start(s, false, time), ops, natives, time) >= ConfiguredBits(s.tracks)
    ensures var r := Run(Start(s, false, time), ops, natives);
            !r.running && if Succeeded(r.calls, natives) then r.events == [SequenceComplete] else StoppedByFailure(r, natives)
  {
    var begun := Start(s, false, time);
    StartIsTimed(s, false, time);
    BitsRemain(s.tracks, begun.tracks);
    RipeTicksAreSpent(begun, ops, natives, time);
    RunGoesOrIsGone(s, false, time, ops, natives);
    var r := Run(begun, ops, natives);
    if r.running {
      TicksServedWhileRunning(begun, ops, natives, time);
      var slot :| 0 <= slot < MAX_TRACKS && r.tracks[slot].active;
      ActiveHasWork(r.tracks, slot);
    }
  }

  // ----- what the queues hold -----

  /** The results pushed so far are those before the start and those of the calls since; what
      each queue holds, dropped and gave out accounts for all of them. */
  ghost predicate Accounted(s: Sequencer, base: nat -> seq<Record>, natives: Natives) {
    forall k: nat | k < |s.tracks| :: Accounts(s.tracks[k].results, base(k) + ResultsOf(s.calls, k, natives))
  }

  ghost predicate Accounts(l: Ledger<Record>, results: seq<Record>) {
    Balanced(l) && l.pushed == results
  }

  /** A call's own record is kept; a call without one leaves its value. */
  lemma ResultIsKept(value: int, record: Record)
    ensures ResultOf(Succeeds(value, record)) == record || (record == [] && ResultOf(Succeeds(value, record)) == [("value", value)])
    ensures record != [] ==> ResultOf(Succeeds(value, record)) == record
    ensures ResultOf(Succeeds(value, [])) != []
  {
  }

  lemma ResultsOfAppend(calls: seq<Call>, call: Call, slot: nat, natives: Natives)
    ensures ResultsOf(calls + [call], slot, natives) == ResultsOf(calls, slot, natives) +
              if call.slot == slot && natives(calls, call).Succeeds? then [ResultOf(natives(calls, call))] else []
  {
    assert (calls + [call])[..|calls|] == calls;
  }

  lemma PushAccounted(l: Ledger<Record>, base: seq<Record>, so: seq<Record>, x: Record)
    requires Accounts(l, base + so)
    ensures Accounts(Push(l, x), base + (so + [x]))
  {
    PushKeepsBalance(l, x);
    assert base + so + [x] == base + (so + [x]);
  }

  /** What a firing slot does to the queue of track `k` and to the calls. */
  lemma FiringLedger(s: Sequencer, slot: nat, time: nat, natives: Natives, k: nat)
    requires Shaped(s) && slot < MAX_TRACKS && k < MAX_TRACKS && Fires(s.tracks[slot], time)
    ensures var call := CallOf(s.tracks[slot], slot, time);
            var v, reply, l := VisitSlot(s, slot, time, false, natives).s, natives(s.calls, call), s.tracks[k].results;
            && v.calls == s.calls + [call] && k < |v.tracks|
            && v.tracks[k].results == if k == slot && reply.Succeeds? then Push(l, ResultOf(reply)) else l
  {
  }

  lemma FiringAccounted(s: Sequencer, slot: nat, time: nat, natives: Natives, base: nat -> seq<Record>, k: nat, v: Sequencer)
    requires Shaped(s) && slot < MAX_TRACKS && k < MAX_TRACKS && Accounted(s, base, natives) && Fires(s.tracks[slot], time)
    requires v == VisitSlot(s, slot, time, false, natives).s
    ensures k < |v.tracks| && Accounts(v.tracks[k].results, base(k) + ResultsOf(v.calls, k, natives))
  {
    FiringLedger(s, slot, time, natives, k);
    LedgerAccounted(s.tracks[k].results, v.tracks[k].results, s.calls, CallOf(s.tracks[slot], slot, time), k, natives, base(k));
  }

  lemma LedgerAccounted(l: Ledger<Record>, next: Ledger<Record>, calls: seq<Call>, call: Call, k: nat, natives: Natives, base: seq<Record>)
    requires Accounts(l, base + ResultsOf(calls, k, natives))
    requires var reply := natives(calls, call);
             next == if call.slot == k && reply.Succeeds? then Push(l, ResultOf(reply)) else l
    ensures Accounts(next, base + ResultsOf(calls + [call], k, natives))
  {
    var reply, so := natives(calls, call), ResultsOf(calls, k, natives);
    ResultsOfAppend(calls, call, k, natives);
    if call.slot == k && reply.Succeeds? {
      PushAccounted(l, base, so, ResultOf(reply));
    } else {
      assert so + [] == so;
    }
  }

  lemma VisitAccounted(s: Sequencer, slot: nat, time: nat, invoked: bool, natives: Natives, base: nat -> seq<Record>)
    requires Shaped(s) && slot < MAX_TRACKS && Accounted(s, base, natives)
    ensures Accounted(VisitSlot(s, slot, time, invoked, natives).s, base, natives)
  {
    if Fires(s.tracks[slot], time) {
      var v := VisitSlot(s, slot, time, false, natives).s;
      forall k: nat | k < |v.tracks|
        ensures Accounts(v.tracks[k].results, base(k) + ResultsOf(v.calls, k, natives))
      {
        FiringAccounted(s, slot, time, natives, base, k, v);
      }
    }
  }

  lemma {:induction false} VisitsAccounted(s: Sequencer, slot: nat, time: nat, invoked: bool, natives: Natives, base: nat -> seq<Record>)
    requires Shaped(s) && slot <= MAX_TRACKS && Accounted(s, base, natives)
    ensures Accounted(VisitFrom(s, slot, time, invoked, natives).s, base, natives)
    decreases MAX_TRACKS - slot
  {
    if slot < MAX_TRACKS {
      VisitKeepsShape(s, slot, time, invoked, natives);
      VisitAccounted(s, slot, time, invoked, natives, base);
      var v := VisitSlot(s, slot, time, invoked, natives);
      if !v.failed {
        VisitsAccounted(v.s, slot + 1, time, v.invoked, natives, base);
      }
    }
  }

  lemma {:induction false} RunKeepsAccounts(s: Sequencer, ops: seq<Op>, natives: Natives, base: nat -> seq<Record>)
    requires Shaped(s) && Accounted(s, base, natives)
    ensures Accounted(Run(s, ops, natives), base, natives)
  {
    if ops != [] {
      var before, last := Run(s, ops[..|ops| - 1], natives), ops[|ops| - 1];
      RunKeepsAccounts(s, ops[..|ops| - 1], natives, base);
      if last.TickAt? {
        VisitsAccounted(before, 0, last.time, false, natives, base);
      } else if last.slot < MAX_TRACKS {
        PopKeepsBalance(before.tracks[last.slot].results);
      }
    }
  }

  /** Over any run with pops in between, whether calls succeed or fail: what was pushed to a
      track's queue is what was there before and the result of each of its calls that
      succeeded, in order; pushes = popped + queued + dropped; and the queue holds the newest
      min(8, unpopped) of these results. */
  lemma RunAccountsForResults(s: Sequencer, repeating: bool, time: nat, ops: seq<Op>, natives: Natives, slot: nat)
    requires Shaped(s) && !s.running && AnyConfigured(s) && slot < MAX_TRACKS
    requires forall k | 0 <= k < MAX_TRACKS :: Balanced(s.tracks[k].results)
    ensures var r := Run(Start(s, repeating, time), ops, natives);
            var l := r.tracks[slot].results;
            Balanced(l) && l.pushed == s.tracks[slot].results.pushed + ResultsOf(r.calls, slot, natives)
  {
    var begun := Start(s, repeating, time);
    var base := (k: nat) => if k < |s.tracks| then s.tracks[k].results.pushed else [];
    forall k: nat | k < |begun.tracks|
      ensures Accounts(begun.tracks[k].results, base(k) + ResultsOf(begun.calls, k, natives))
    {
      assert base(k) + [] == base(k);
    }
    RunKeepsAccounts(begun, ops, natives, base);
    assert Accounts(Run(begun, ops, natives).tracks[slot].results,
                    base(slot) + ResultsOf(Run(begun, ops, natives).calls, slot, natives));
  }
}
