/** The edge interrupt of the IR receiver, and what it records of a true signal. */
module IrCapture {
  import opened PulseAlignment

  const CAPACITY: nat := 8192

  /** The limits Iris sets: an idle gap of 15 ms ends a frame, shorter than 2 us is noise. */
  const MIN_PULSE_US: nat := 2

  datatype Receiver = Receiver(
    active: bool,
    ready: bool,
    overflow: bool,
    pulses: seq<Pulse>,
    lastEdge: nat,    // 32-bit microseconds
    lastLevel: nat)

  function Elapsed(now: nat, before: nat): nat { (now - before) % UINT32 }

  /** `captureEdge` when the counter shows `now`, which is `duration` after the last edge,
      and the pin has changed to `level`. */
  function Edge(r: Receiver, now: nat, duration: nat, level: nat): Receiver {
    var seen := r.(lastEdge := now, lastLevel := level);
    if !r.active || r.ready then r
    else if duration >= IDLE_US then seen.(ready := r.pulses != [])
    else if duration < MIN_PULSE_US then seen
    else if |r.pulses| < CAPACITY then seen.(pulses := r.pulses + [Pulse(r.lastLevel, duration)])
    else seen.(overflow := true)
  }

  /** `captureStart` and `captureRearm`. */
  function Armed(now: nat, level: nat): Receiver {
    Receiver(true, false, false, [], now, level)
  }

  /** An edge of the signal at a true time that never wraps. */
  datatype Change = Change(at: nat, level: nat)

  /** The counter at a true time, and the time between two of its values. */
  datatype Clock = Clock(read: nat -> nat, elapsed: (nat, nat) -> nat)

  /** `micros()`, which wraps. */
  function Micros(): Clock { Clock((at: nat) => at % UINT32, Elapsed) }

  function Noticed(r: Receiver, edge: Change, clock: Clock): Receiver {
    var now := clock.read(edge.at);
    Edge(r, now, clock.elapsed(now, r.lastEdge), edge.level)
  }

  function Watch(r: Receiver, edges: seq<Change>, clock: Clock): Receiver {
    if edges == [] then r
    else
      var last := edges[|edges| - 1];
      Noticed(Watch(r, edges[..|edges| - 1], clock), last, clock)
  }

  /** Whatever the edges, only pulses that the comparison can handle are recorded, at most
      as many as there is room for. */
  lemma {:induction false} RecordsWithinLimits(now: nat, level: nat, edges: seq<Change>, clock: Clock)
    ensures var r := Watch(Armed(now, level), edges, clock);
            Recordable(r.pulses) && |r.pulses| <= CAPACITY
  {
    if edges != [] {
      RecordsWithinLimits(now, level, edges[..|edges| - 1], clock);
    }
  }

  function Latest(start: Change, edges: seq<Change>): Change {
    if edges == [] then start else edges[|edges| - 1]
  }

  /** Neighbouring edges are far enough apart to be pulses and too close to be an idle gap. */
  ghost predicate OneFrame(start: Change, edges: seq<Change>) {
    edges == [] ||
    var front := edges[..|edges| - 1];
    OneFrame(start, front) && MIN_PULSE_US <= edges[|edges| - 1].at - Latest(start, front).at < IDLE_US
  }

  /** The true pulses of a signal: the level and the time between neighbouring edges. */
  ghost function TruePulses(start: Change, edges: seq<Change>): (r: seq<Pulse>)
    requires OneFrame(start, edges)
    ensures |r| == |edges|
  {
    if edges == [] then []
    else
      var front := edges[..|edges| - 1];
      var from := Latest(start, front);
      TruePulses(start, front) + [Pulse(from.level, edges[|edges| - 1].at - from.at)]
  }

  /** A clock whose differences are right for pulses of one frame. */
  ghost predicate Faithful(clock: Clock) {
    forall from: nat, at: nat | 0 <= at - from < IDLE_US ::
      clock.elapsed(clock.read(at), clock.read(from)) == at - from
  }

  lemma MicrosIsFaithful()
    ensures Faithful(Micros())
  {
    forall from: nat, at: nat | 0 <= at - from < IDLE_US
      ensures Elapsed(at % UINT32, from % UINT32) == at - from
    {
      assert (at % UINT32 - from % UINT32 - (at - from)) % UINT32 == 0;
    }
  }

  lemma {:induction false} FrameIsTracked(start: Change, edges: seq<Change>, clock: Clock)
    requires OneFrame(start, edges) && |edges| <= CAPACITY && Faithful(clock)
    ensures var r, latest := Watch(Armed(clock.read(start.at), start.level), edges, clock), Latest(start, edges);
            r == Receiver(true, false, false, TruePulses(start, edges), clock.read(latest.at), latest.level)
  {
    if edges != [] {
      var front := edges[..|edges| - 1];
      FrameIsTracked(start, front, clock);
      var r := Watch(Armed(clock.read(start.at), start.level), front, clock);
    }
  }

  /** A frame without idle gaps is recorded exactly, wherever the counter wraps. */
  lemma FrameIsRecorded(start: Change, edges: seq<Change>)
    requires OneFrame(start, edges) && |edges| <= CAPACITY
    ensures var r := Watch(Armed(start.at % UINT32, start.level), edges, Micros());
            r.pulses == TruePulses(start, edges) && r.active && !r.ready && !r.overflow
  {
    MicrosIsFaithful();
    FrameIsTracked(start, edges, Micros());
  }

  /** One edge, by the true time since the one before: nothing while not capturing, the end of a
      frame after 15 ms if there is one, noise below 2 us, and otherwise a pulse of the level
      before, or an overflow once 8192 are recorded. */
  lemma EdgeDecides(r: Receiver, before: nat, edge: Change)
    requires r.lastEdge == before % UINT32 && before <= edge.at < before + UINT32
    ensures var t, gap := Noticed(r, edge, Micros()), edge.at - before;
            if !r.active || r.ready then t == r
            else
              && t.active && t.lastEdge == edge.at % UINT32 && t.lastLevel == edge.level
              && (t.ready <==> gap >= 15000 && r.pulses != [])
              && (t.overflow <==> r.overflow || (2 <= gap < 15000 && |r.pulses| >= 8192))
              && t.pulses == if 2 <= gap < 15000 && |r.pulses| < 8192 then r.pulses + [Pulse(r.lastLevel, gap)] else r.pulses
  {
    assert (edge.at % UINT32 - before % UINT32 - (edge.at - before)) % UINT32 == 0;
  }

  /** The interrupt's state, changed in place. */
  class Service {
    const levels: array<nat>
    const durations: array<nat>
    var active: bool
    var ready: bool
    var overflow: bool
    var count: nat
    var lastEdge: nat
    var lastLevel: nat

    ghost predicate Valid()
      reads this
    {
      levels.Length == durations.Length == CAPACITY && levels != durations && count <= CAPACITY
    }

    ghost function View(): Receiver
      requires Valid()
      reads this, levels, durations
    {
      Receiver(active, ready, overflow,
               seq(count, k requires 0 <= k < count reads this, levels, durations requires Valid() => Pulse(levels[k], durations[k])),
               lastEdge, lastLevel)
    }

    constructor ()
      ensures Valid() && fresh(levels) && fresh(durations) && !active
    {
      levels, durations := new nat[CAPACITY], new nat[CAPACITY];
      active, ready, overflow, count, lastEdge, lastLevel := false, false, false, 0, 0, 1;
    }

    method Rearm(now: nat, level: nat)
      requires Valid()
      modifies this
      ensures Valid() && View() == Armed(now, level)
    {
      count, overflow, ready, lastLevel, lastEdge, active := 0, false, false, level, now, true;
    }

    method OnEdge(now: nat, level: nat)
      requires Valid()
      modifies this, levels, durations
      ensures Valid() && View() == Edge(old(View()), now, Elapsed(now, old(lastEdge)), level)
    {
      if !active || ready {
        return;
      }
      ghost var before := View().pulses;
      var duration := Elapsed(now, lastEdge);
      if duration >= IDLE_US {
        if count > 0 {
          ready := true;
        }
        lastEdge, lastLevel := now, level;
        return;
      }
      if duration >= MIN_PULSE_US {
        if count < CAPACITY {
          levels[count], durations[count] := lastLevel, duration;
          count := count + 1;
          assert View().pulses == before + [Pulse(lastLevel, duration)];
        } else {
          overflow := true;
        }
      }
      lastEdge, lastLevel := now, level;
    }
  }
}
