/** The signed 32-bit deadline test shared by the VM wait, the sequencer and the
    periodic threads, against a true clock that never wraps. */
module Deadline {

  const UINT32: nat := 0x1_0000_0000
  const HALF: nat := 0x8000_0000

  /** `static_cast<int32_t>(now - at) >= 0` on 32-bit counters. */
  predicate Due(now: nat, at: nat) {
    (now - at) % UINT32 < HALF
  }

  /** For true times less than 2^31 ms apart either way, the test fires exactly when the
      deadline has passed, wherever the counter wraps in between. */
  lemma DueIsExact(now: nat, at: nat)
    requires -(HALF as int) <= now - at < HALF
    ensures Due(now % UINT32, at % UINT32) <==> at <= now
  {
    var d := now - at;
    assert (now % UINT32 - at % UINT32 - d) % UINT32 == 0;
    assert (now % UINT32 - at % UINT32) % UINT32 == d % UINT32;
  }

  /** The bound cannot be dropped: a tick 2^31 ms after its deadline reads as early. */
  lemma TooLateReadsAsEarly(at: nat)
    ensures !Due((at + HALF) % UINT32, at % UINT32)
  {
    var now := at + HALF;
    assert (now % UINT32 - at % UINT32 - HALF) % UINT32 == 0;
  }
}
