/** The sequencer as it runs: global tracks and busy bits changed in place. */
module SequenceRunner {
  import opened Deadline
  import opened RecordQueue
  import opened SequenceSpec

  // ----- packed patterns -----

  /** Bit `index` of a pattern of `count` bits, most significant first. */
  function PackedBit(packed: nat, count: nat, index: nat): bool
    requires index < count
  {
    Shifted(packed, count - index - 1) % 2 == 1
  }

  /** `packed >> n`. */
  function Shifted(packed: nat, n: nat): nat {
    if n == 0 then packed else Shifted(packed, n - 1) / 2
  }

  function Unpacked(packed: nat, count: nat): (bits: seq<bool>)
    ensures |bits| == count
  {
    seq(count, (index: nat) requires index < count => PackedBit(packed, count, index))
  }

  /** The number that bits stand for, most significant first. */
  function Packed(bits: seq<bool>): nat {
    if bits == [] then 0 else 2 * Packed(bits[..|bits| - 1]) + if bits[|bits| - 1] then 1 else 0
  }

  function Power2(n: nat): (p: nat)
    ensures p > 0
  {
    if n == 0 then 1 else 2 * Power2(n - 1)
  }

  lemma {:induction false} PrefixOfUnpacked(packed: nat, count: nat, k: nat)
    requires k <= count && Shifted(packed, count) == 0
    ensures Packed(Unpacked(packed, count)[..k]) == Shifted(packed, count - k)
  {
    if k > 0 {
      var bits := Unpacked(packed, count);
      PrefixOfUnpacked(packed, count, k - 1);
      assert bits[..k][..k - 1] == bits[..k - 1];
      assert Shifted(packed, count - k + 1) == Shifted(packed, count - k) / 2;
    }
  }

  /** A pattern that fits its bit count is played back as exactly that number. */
  lemma UnpackedIsFaithful(packed: nat, count: nat)
    requires packed < Power2(count)
    ensures Packed(Unpacked(packed, count)) == packed
  {
    ShiftedBelow(packed, count, count);
    PrefixOfUnpacked(packed, count, count);
    assert Unpacked(packed, count)[..count] == Unpacked(packed, count);
  }

  lemma {:induction false} ShiftedBelow(packed: nat, count: nat, n: nat)
    requires n <= count && packed < Power2(count)
    ensures Shifted(packed, n) < Power2(count - n)
  {
    if n > 0 {
      ShiftedBelow(packed, count, n - 1);
      assert Power2(count - n + 1) == 2 * Power2(count - n);
    }
  }

  // ----- the service -----

  class Service {
    const natives: Natives
    const tracks: array<Track>
    const busy: array<bool>
    var running: bool
    var repeating: bool
    var calls: seq<Call>
    var events: seq<Event>

    ghost function View(): Sequencer
      reads this, tracks, busy
    {
      Sequencer(tracks[..], busy[..], running, repeating, calls, events)
    }

    ghost predicate Valid()
      reads this, tracks, busy
    {
      tracks.Length == MAX_TRACKS && busy.Length == MAX_TRACKS && Shaped(View())
    }

    constructor (natives: Natives)
      ensures Valid() && fresh(tracks) && fresh(busy) && this.natives == natives
      ensures View() == Sequencer(seq(MAX_TRACKS, _ => IDLE), seq(MAX_TRACKS, _ => false), false, false, [], [])
    {
      this.natives := natives;
      tracks := new Track[MAX_TRACKS](_ => IDLE);
      busy := new bool[MAX_TRACKS](_ => false);
      running, repeating, calls, events := false, false, [], [];
      new;
      assert tracks[..] == seq(MAX_TRACKS, _ => IDLE) && busy[..] == seq(MAX_TRACKS, _ => false);
    }

    /** `stopAll`. */
    method StopTracks()
      requires Valid()
      modifies this`running, tracks, busy
      ensures Valid() && View() == StopAll(old(View()))
    {
      running := false;
      for slot := 0 to MAX_TRACKS
        invariant !running
        invariant forall k | 0 <= k < slot :: tracks[k] == old(tracks[k]).(active := false) && !busy[k]
        invariant forall k | slot <= k < MAX_TRACKS :: tracks[k] == old(tracks[k]) && busy[k] == old(busy[k])
      {
        tracks[slot] := tracks[slot].(active := false);
        busy[slot] := false;
      }
      ghost var goal := StopAll(old(View()));
      assert tracks[..] == goal.tracks && busy[..] == goal.busy;
      forall k | 0 <= k < MAX_TRACKS ensures TrackOk(tracks[..][k]) {
        assert TrackOk(old(tracks[..])[k]);
      }
    }

    method CountActive() returns (count: nat)
      requires Valid()
      ensures count == 0 <==> !AnyActive(View())
    {
      count := 0;
      for slot := 0 to MAX_TRACKS
        invariant count == 0 <==> forall k | 0 <= k < slot :: !tracks[k].active
      {
        if tracks[slot].active {
          count := count + 1;
        }
      }
    }

    /** One slot of a tick. */
    method TickSlot(slot: nat, time: nat, wasInvoked: bool) returns (invoked: bool, failed: bool)
      requires Valid() && slot < MAX_TRACKS
      modifies this`calls, this`events, this`running, tracks, busy
      ensures Valid() && Visit(View(), invoked, failed) == VisitSlot(old(View()), slot, time, wasInvoked, natives)
    {
      VisitKeepsShape(View(), slot, time, wasInvoked, natives);
      var track := tracks[slot];
      if !track.active || !Due(time % UINT32, track.nextAt) {
        return wasInvoked, false;
      }
      var call := CallOf(track, slot, time);
      var reply := natives(calls, call);
      if reply.Fails? {
        StopTracks();
        calls := calls + [call];
        events := events + [SequenceError(slot)];
        return true, true;
      }
      calls := calls + [call];
      track := track.(results := Push(track.results, ResultOf(reply)), position := track.position + 1);
      if track.position >= |track.bits| {
        if repeating {
          track := track.(position := 0);
        } else {
          track := track.(active := false);
          busy[slot] := false;
        }
      }
      tracks[slot] := track.(nextAt := (time + track.interval) % UINT32);
      return true, false;
    }

    method DoTick(time: nat)
      requires Valid()
      modifies this, tracks, busy
      ensures Valid() && View() == Tick(old(View()), time, natives)
    {
      if !running {
        return;
      }
      ghost var all := VisitFrom(View(), 0, time, false, natives);
      var invoked, failed := false, false;
      for slot := 0 to MAX_TRACKS
        invariant Valid()
        invariant VisitFrom(View(), slot, time, invoked, natives) == all
      {
        invoked, failed := TickSlot(slot, time, invoked);
        if failed {
          return;
        }
      }
      var active := CountActive();
      if invoked && active == 0 {
        running := false;
        events := events + [SequenceComplete];
      }
    }

    /** `start`: the one argument, 0 or 1, asks for repetition. */
    method DoStart(arguments: seq<int>, time: nat) returns (ok: bool)
      requires Valid()
      modifies this, tracks, busy
      ensures ok <==> (arguments == [] || arguments == [0] || arguments == [1]) && !old(running) && AnyConfigured(old(View()))
      ensures Valid() && View() == if ok then Start(old(View()), arguments == [1], time) else old(View())
    {
      if |arguments| > 1 || (|arguments| == 1 && arguments[0] != 0 && arguments[0] != 1) || running {
        return false;
      }
      var any := false;
      for slot := 0 to MAX_TRACKS
        invariant any <==> exists k | 0 <= k < slot :: tracks[k].configured
      {
        any := any || tracks[slot].configured;
      }
      if !any {
        return false;
      }
      for slot := 0 to MAX_TRACKS
        invariant forall k | 0 <= k < slot ::
            tracks[k] == old(tracks[k]).(active := old(tracks[k]).configured, position := 0, nextAt := time % UINT32) &&
            busy[k] == old(tracks[k]).configured
        invariant forall k | slot <= k < MAX_TRACKS :: tracks[k] == old(tracks[k])
      {
        tracks[slot] := tracks[slot].(active := tracks[slot].configured, position := 0, nextAt := time % UINT32);
        busy[slot] := tracks[slot].active;
      }
      repeating, running, calls, events := |arguments| == 1 && arguments[0] == 1, true, [], [];
      ghost var goal := Start(old(View()), arguments == [1], time);
      assert tracks[..] == goal.tracks && busy[..] == goal.busy;
      forall k | 0 <= k < MAX_TRACKS ensures TrackOk(tracks[..][k]) {
        assert TrackOk(old(tracks[..])[k]);
      }
      return true;
    }

    /** `setNumeric`: a channel from slot, interval, function, bit count, packed bits and
        fixed arguments; refused, with nothing changed, unless every field is in range. */
    method SetNumeric(arguments: seq<int>, ascii: string, append: bool, registered: nat -> bool) returns (ok: bool)
      requires Valid()
      modifies tracks
      ensures Valid()
      ensures ok <==>
              && !running && 5 <= |arguments| <= 12
              && 0 <= arguments[0] < MAX_TRACKS && 1 <= arguments[1] <= MAX_INTERVAL_MS
              && 0 <= arguments[2] <= 65535 && 1 <= arguments[3] <= 32 && registered(arguments[2])
              && |ascii| <= 255 && forall k | 0 <= k < |ascii| :: ' ' <= ascii[k] <= '~'
      ensures !ok ==> tracks[..] == old(tracks[..])
      ensures ok ==> tracks[..] == old(tracks[..])[arguments[0] := IDLE.(
                       configured := true, interval := arguments[1],
                       bits := Unpacked(arguments[4] % UINT32, arguments[3]),
                       channel := Channel(arguments[2], arguments[5..], ascii, append))]
    {
      if running || |arguments| < 5 {
        return false;
      }
      var slot, interval, functionId, bitCount := arguments[0], arguments[1], arguments[2], arguments[3];
      if slot < 0 || slot >= MAX_TRACKS || interval < 1 || interval > MAX_INTERVAL_MS ||
         functionId < 0 || functionId > 65535 || bitCount < 1 || bitCount > 32 || |arguments| - 5 > 7 || !registered(functionId) {
        return false;
      }
      var packed := arguments[4] % UINT32;
      var bits := [];
      for index := 0 to bitCount
        invariant bits == Unpacked(packed, bitCount)[..index]
      {
        bits := bits + [PackedBit(packed, bitCount, index)];
      }
      assert bits == Unpacked(packed, bitCount);
      if |ascii| > 255 {
        return false;
      }
      for k := 0 to |ascii|
        invariant forall j | 0 <= j < k :: ' ' <= ascii[j] <= '~'
      {
        if ascii[k] < ' ' || ascii[k] > '~' {
          return false;
        }
      }
      ghost var before := View();
      tracks[slot] := IDLE.(configured := true, interval := interval, bits := bits,
                            channel := Channel(functionId, arguments[5..], ascii, append));
      assert forall k | 0 <= k < MAX_TRACKS :: k != slot ==> tracks[..][k] == before.tracks[k];
      return true;
    }
  }
}
