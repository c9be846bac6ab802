/** The four searches of the IR decoder over the envelope of an active-low receiver. */
module IrFrames {
  import opened Wrappers

  const LOW: uint8 := 0
  const HIGH: uint8 := 1

  type uint8 = x: int | 0 <= x < 0x100
  type uint32 = x: int | 0 <= x < 0x1_0000_0000

  datatype Pulse = Pulse(level: uint8, us: uint32)

  datatype Protocol = Nec | NecRepeat | Rc5 | PulseDistance24

  datatype Frame = Frame(protocol: Protocol, address: nat, data: nat, bits: nat, code: nat, repeated: bool)

  // ----- numbers from bits -----

  function Pow2(n: nat): (r: nat)
    ensures r >= 1
  {
    if n == 0 then 1 else 2 * Pow2(n - 1)
  }

  function Bit(b: bool): nat { if b then 1 else 0 }

  /** The bit at index k is worth 2^k. */
  function LowFirst(bits: seq<bool>): nat {
    if bits == [] then 0 else Bit(bits[0]) + 2 * LowFirst(bits[1..])
  }

  /** The first bit is the most significant one. */
  function HighFirst(bits: seq<bool>): nat {
    if bits == [] then 0 else 2 * HighFirst(bits[..|bits| - 1]) + Bit(bits[|bits| - 1])
  }

  function BitsOf(code: nat, n: nat): (r: seq<bool>)
    ensures |r| == n
  {
    if n == 0 then [] else [code % 2 == 1] + BitsOf(code / 2, n - 1)
  }

  lemma {:induction false} LowFirstRoundTrip(code: nat, n: nat)
    requires code < Pow2(n)
    ensures LowFirst(BitsOf(code, n)) == code
  {
    if n > 0 {
      LowFirstRoundTrip(code / 2, n - 1);
      assert BitsOf(code, n)[1..] == BitsOf(code / 2, n - 1);
    }
  }

  // ----- pulse-distance frames: NEC and the 24-bit remote -----

  datatype Range = Range(least: nat, most: nat)

  predicate Within(us: uint32, r: Range) { r.least <= us <= r.most }
  predicate Mark(p: Pulse, r: Range) { p.level == LOW && Within(p.us, r) }
  predicate Space(p: Pulse, r: Range) { p.level == HIGH && Within(p.us, r) }

  /** A lead-in, then `bits` pairs of a mark and a space; a space of `one` or more is a 1.
      One more pulse follows, which is checked only when `stop` is set. */
  datatype Timing = Timing(leadMark: Range, leadSpace: Range, mark: Range, space: Range, one: nat, bits: nat, stop: bool)

  function Pd24Timing(): Timing {
    Timing(Range(3400, 4600), Range(3400, 4600), Range(350, 650), Range(800, 2300), 1500, 24, true)
  }

  function NecTiming(): Timing {
    Timing(Range(7500, 10000), Range(3500, 5500), Range(300, 850), Range(300, 2100), 1001, 32, false)
  }

  predicate PairAt(p: seq<Pulse>, s: nat, t: Timing, b: nat)
    requires s + 3 + 2 * b < |p|
  {
    Mark(p[s + 2 + 2 * b], t.mark) && Space(p[s + 3 + 2 * b], t.space)
  }

  predicate FrameAt(p: seq<Pulse>, s: nat, t: Timing) {
    && s + 2 + 2 * t.bits < |p| && Mark(p[s], t.leadMark) && Space(p[s + 1], t.leadSpace)
    && (forall b: nat | b < t.bits :: PairAt(p, s, t, b))
    && (t.stop ==> Mark(p[s + 2 + 2 * t.bits], t.mark))
  }

  function FrameBits(p: seq<Pulse>, s: nat, t: Timing): (r: seq<bool>)
    requires s + 2 + 2 * t.bits < |p|
    ensures |r| == t.bits
  {
    seq(t.bits, b requires 0 <= b < t.bits => p[s + 3 + 2 * b].us >= t.one)
  }

  function Code(p: seq<Pulse>, s: nat, t: Timing): nat
    requires s + 2 + 2 * t.bits < |p|
  {
    LowFirst(FrameBits(p, s, t))
  }

  /** What the search takes: a frame whose code passes the protocol's check. */
  predicate Taken(p: seq<Pulse>, s: nat, t: Timing, good: nat -> bool) {
    FrameAt(p, s, t) && good(Code(p, s, t))
  }

  function FirstFrame(p: seq<Pulse>, s: nat, t: Timing, good: nat -> bool): (r: Option<nat>)
    ensures r.Some? ==> r.value >= s && Taken(p, r.value, t, good)
    decreases |p| - s
  {
    if s + 2 + 2 * t.bits >= |p| then None
    else if Taken(p, s, t, good) then Some(s)
    else FirstFrame(p, s + 1, t, good)
  }

  lemma {:induction false} FirstFrameIs(p: seq<Pulse>, s: nat, t: Timing, good: nat -> bool, k: nat)
    requires s <= k && Taken(p, k, t, good) && forall i: nat | s <= i < k :: !Taken(p, i, t, good)
    ensures FirstFrame(p, s, t, good) == Some(k)
    decreases k - s
  {
    if s < k {
      FirstFrameIs(p, s + 1, t, good, k);
    }
  }

  lemma NoLeadInInside(p: seq<Pulse>, s: nat, k: nat, t: Timing)
    requires t.mark.most < t.leadMark.least && FrameAt(p, s, t) && s < k < s + 2 + 2 * t.bits
    ensures !Mark(p[k], t.leadMark)
  {
    if k > s + 1 {
      assert PairAt(p, s, t, (k - s - 2) / 2);
    }
  }

  /** Two frames of one kind never overlap when a lead-in mark is longer than every other:
      the next lead-in stands past the data, and past the stop mark if that is checked. */
  lemma FramesDoNotOverlap(p: seq<Pulse>, s: nat, k: nat, t: Timing)
    requires t.mark.most < t.leadMark.least && FrameAt(p, s, t) && s < k < |p| && Mark(p[k], t.leadMark)
    ensures k >= s + 2 + 2 * t.bits && (t.stop ==> k > s + 2 + 2 * t.bits)
  {
    if k < s + 2 + 2 * t.bits {
      NoLeadInInside(p, s, k, t);
    }
  }

  /** A transmission of `code`: the pulses of one frame, any durations within the limits. */
  ghost predicate Sends(frame: seq<Pulse>, t: Timing, code: nat) {
    && |frame| == 3 + 2 * t.bits && FrameAt(frame, 0, t)
    && FrameBits(frame, 0, t) == BitsOf(code, t.bits) && code < Pow2(t.bits)
  }

  lemma SentCode(frame: seq<Pulse>, t: Timing, code: nat)
    requires Sends(frame, t, code)
    ensures Code(frame, 0, t) == code
  {
    LowFirstRoundTrip(code, t.bits);
  }

  /** A transmission keeps its place and its code inside a longer capture. */
  lemma FrameInCapture(noise: seq<Pulse>, frame: seq<Pulse>, tail: seq<Pulse>, t: Timing, code: nat)
    requires Sends(frame, t, code)
    ensures var p := noise + frame + tail;
            FrameAt(p, |noise|, t) && Code(p, |noise|, t) == code
  {
    var p, s := noise + frame + tail, |noise|;
    assert forall i | 0 <= i < |frame| :: p[s + i] == frame[i];
    forall b: nat | b < t.bits
      ensures PairAt(p, s, t, b) && FrameBits(p, s, t)[b] == FrameBits(frame, 0, t)[b]
    {
      assert PairAt(frame, 0, t, b);
      assert p[s + (2 + 2 * b)] == frame[2 + 2 * b] && p[s + (3 + 2 * b)] == frame[3 + 2 * b];
    }
    assert p[s + (2 + 2 * t.bits)] == frame[2 + 2 * t.bits];
    assert FrameBits(p, s, t) == BitsOf(code, t.bits);
    LowFirstRoundTrip(code, t.bits);
  }

  // ----- RC5 -----

  const HALVES: nat := 28

  /** Nominal half-bits of a run, in 32-bit arithmetic. */
  function Units(us: uint32): nat { (us + 444) % 0x1_0000_0000 / 889 }

  predicate Fits(us: uint32) {
    1 <= Units(us) <= 3 && Units(us) * 889 * 65 / 100 <= us <= Units(us) * 889 * 135 / 100
  }

  function Repeat(level: uint8, n: nat): (r: seq<uint8>)
    ensures |r| == n && forall k | 0 <= k < n :: r[k] == level
  {
    seq(n, k => level)
  }

  /** The half-bits of the runs from `edge` on, until there are 28 or a run does not fit. */
  function Expand(p: seq<Pulse>, edge: nat, halves: seq<uint8>): (r: seq<uint8>)
    requires |halves| < HALVES + 3
    ensures |r| < HALVES + 3
    decreases |p| - edge
  {
    if edge < |p| && |halves| < HALVES && Fits(p[edge].us) then
      Expand(p, edge + 1, halves + Repeat(p[edge].level, Units(p[edge].us)))
    else halves
  }

  predicate Changes(halves: seq<uint8>, offset: nat, b: nat)
    requires offset + 2 * b + 1 < |halves|
  {
    halves[offset + 2 * b] != halves[offset + 2 * b + 1]
  }

  /** Fourteen bits from `offset`, each a change of level; a mark first is a 1. */
  predicate Manchester(halves: seq<uint8>, offset: nat) {
    offset + HALVES <= |halves| && forall b: nat | b < HALVES / 2 :: Changes(halves, offset, b)
  }

  function ManchesterBits(halves: seq<uint8>, offset: nat): (r: seq<bool>)
    requires offset + HALVES <= |halves|
    ensures |r| == HALVES / 2
  {
    seq(HALVES / 2, b requires 0 <= b < HALVES / 2 => halves[offset + 2 * b] == LOW)
  }

  /** The start bit is set and the low twelve bits are not all ones. */
  predicate Rc5Good(raw: nat) { raw / 8192 % 2 == 1 && raw % 4096 != 4095 }

  predicate Rc5At(halves: seq<uint8>, offset: nat) {
    Manchester(halves, offset) && Rc5Good(HighFirst(ManchesterBits(halves, offset)))
  }

  function FirstOffset(halves: seq<uint8>, offset: nat): (r: Option<nat>)
    ensures r.Some? ==> r.value >= offset && Rc5At(halves, r.value)
    ensures r.None? ==> forall o: nat | o >= offset :: !Rc5At(halves, o)
    decreases |halves| - offset
  {
    if offset + HALVES > |halves| then None
    else if Rc5At(halves, offset) then Some(offset)
    else FirstOffset(halves, offset + 1)
  }

  function FirstRc5(p: seq<Pulse>, start: nat): Option<nat>
    decreases |p| - start
  {
    if start >= |p| then None
    else
      var halves := Expand(p, start, []);
      var found := FirstOffset(halves, 0);
      if found.Some? then Some(HighFirst(ManchesterBits(halves, found.value))) else FirstRc5(p, start + 1)
  }

  // ----- the decoder -----

  function Any(raw: nat): bool { true }

  /** The command and its inverse: their exclusive or is 0xff. */
  function NecGood(raw: nat): bool { raw / 0x10000 % 0x100 + raw / 0x1000000 % 0x100 == 0xff }

  /** Exclusive or of the lowest `n` bits. */
  function Xor(a: nat, b: nat, n: nat): nat {
    if n == 0 then 0 else Bit(a % 2 != b % 2) + 2 * Xor(a / 2, b / 2, n - 1)
  }

  lemma {:induction false} XorIsComplement(a: nat, b: nat, n: nat)
    requires a < Pow2(n) && b < Pow2(n)
    ensures Xor(a, b, n) < Pow2(n) && (Xor(a, b, n) == Pow2(n) - 1 <==> a + b == Pow2(n) - 1)
  {
    if n > 0 {
      XorIsComplement(a / 2, b / 2, n - 1);
    }
  }

  /** The test of the source: the exclusive or of the two bytes is 0xff. */
  lemma NecGoodIsXor(raw: nat)
    ensures NecGood(raw) <==> Xor(raw / 0x10000 % 0x100, raw / 0x1000000 % 0x100, 8) == 0xff
  {
    assert Pow2(8) == 0x100;
    XorIsComplement(raw / 0x10000 % 0x100, raw / 0x1000000 % 0x100, 8);
  }

  function NecAddress(raw: nat): nat {
    if raw % 0x100 + raw / 0x100 % 0x100 == 0xff then raw % 0x100 else raw % 0x10000
  }

  function Pd24Frame(raw: nat): Frame { Frame(PulseDistance24, 0, 0, 24, raw, false) }

  function Rc5Frame(raw: nat): Frame {
    Frame(Rc5, raw / 64 % 32, raw % 64 + (if raw / 4096 % 2 == 1 then 0 else 64), 14, raw, false)
  }

  function NecFrame(raw: nat): Frame { Frame(Nec, NecAddress(raw), raw / 0x10000 % 0x100, 32, raw, false) }

  predicate RepeatAt(p: seq<Pulse>, s: nat) {
    s + 2 < |p| && Mark(p[s], Range(7500, 10000)) && Space(p[s + 1], Range(1700, 3000)) && Mark(p[s + 2], Range(300, 850))
  }

  ghost predicate HasRepeat(p: seq<Pulse>) { exists s: nat :: RepeatAt(p, s) }

  ghost function DecodeOf(p: seq<Pulse>): Option<Frame> {
    var pd24 := FirstFrame(p, 0, Pd24Timing(), Any);
    var rc5 := FirstRc5(p, 0);
    var nec := FirstFrame(p, 0, NecTiming(), NecGood);
    if |p| < 3 then None
    else if pd24.Some? then Some(Pd24Frame(Code(p, pd24.value, Pd24Timing())))
    else if rc5.Some? then Some(Rc5Frame(rc5.value))
    else if nec.Some? then Some(NecFrame(Code(p, nec.value, NecTiming())))
    else if HasRepeat(p) then Some(Frame(NecRepeat, 0, 0, 0, 0, true))
    else None
  }
}
