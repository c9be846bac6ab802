/** `Esp32IrDecoder::decode`: the search loops, against the specification in IrFrames. */
module IrDecoder {
  import opened Wrappers
  import opened IrFrames

  lemma {:induction false} NextLowBit(bits: seq<bool>, x: bool)
    ensures LowFirst(bits + [x]) == LowFirst(bits) + Bit(x) * Pow2(|bits|)
  {
    if bits == [] {
      assert bits + [x] == [x] && [x][1..] == [];
    } else {
      NextLowBit(bits[1..], x);
      assert (bits + [x])[1..] == bits[1..] + [x];
    }
  }

  /** The first bits in their places among `n`, the highest first. */
  ghost function Partial(bits: seq<bool>, b: nat, n: nat): int
    requires b <= |bits| && b <= n
  {
    HighFirst(bits[..b]) * Pow2(n - b)
  }

  lemma NextHighBit(bits: seq<bool>, b: nat, n: nat)
    requires b < |bits| && b < n
    ensures Partial(bits, b + 1, n) == Partial(bits, b, n) + (if bits[b] then Pow2(n - 1 - b) else 0)
  {
    var h, left := HighFirst(bits[..b]), Pow2(n - 1 - b);
    assert bits[..b + 1][..b] == bits[..b];
    assert Pow2(n - b) == 2 * left;
    assert h * (2 * left) == 2 * h * left;
    assert (2 * h + 1) * left == 2 * h * left + left;
  }

  lemma WholeNumber(bits: seq<bool>)
    ensures Partial(bits, |bits|, |bits|) == HighFirst(bits)
  {
    assert bits[..|bits|] == bits;
  }

  /** The data loop of a pulse-distance frame: the bits are set one by one from the lowest. */
  method ReadPairs(p: seq<Pulse>, s: nat, t: Timing) returns (valid: bool, raw: nat)
    requires s + 2 + 2 * t.bits < |p|
    ensures valid <==> forall b: nat | b < t.bits :: PairAt(p, s, t, b)
    ensures valid ==> raw == Code(p, s, t)
  {
    raw := 0;
    ghost var bits := FrameBits(p, s, t);
    for b := 0 to t.bits
      invariant forall k: nat | k < b :: PairAt(p, s, t, k)
      invariant raw == LowFirst(bits[..b])
    {
      if !PairAt(p, s, t, b) {
        return false, raw;
      }
      NextLowBit(bits[..b], bits[b]);
      assert bits[..b + 1] == bits[..b] + [bits[b]];
      if p[s + 3 + 2 * b].us >= t.one {
        raw := raw + Pow2(b);
      }
    }
    assert bits[..t.bits] == bits;
    return true, raw;
  }

  method FindFrame(p: seq<Pulse>, t: Timing, good: nat -> bool) returns (found: Option<nat>, raw: nat)
    ensures found == FirstFrame(p, 0, t, good)
    ensures found.Some? ==> raw == Code(p, found.value, t)
  {
    raw := 0;
    var start := 0;
    while start + 2 + 2 * t.bits < |p|
      invariant FirstFrame(p, 0, t, good) == FirstFrame(p, start, t, good)
    {
      if Mark(p[start], t.leadMark) && Space(p[start + 1], t.leadSpace) {
        var valid;
        valid, raw := ReadPairs(p, start, t);
        if valid && (t.stop ==> Mark(p[start + 2 + 2 * t.bits], t.mark)) && good(raw) {
          return Some(start), raw;
        }
      }
      start := start + 1;
    }
    return None, raw;
  }

  /** The expansion of runs into the buffer of 36 half-bits, which it never overruns. */
  method ExpandInto(p: seq<Pulse>, start: nat, halves: array<uint8>) returns (count: nat)
    requires halves.Length == 36
    modifies halves
    ensures count <= halves.Length && halves[..count] == Expand(p, start, [])
  {
    count := 0;
    var edge := start;
    assert halves[..count] == [];
    while edge < |p| && count < HALVES && Fits(p[edge].us)
      invariant count < HALVES + 3
      invariant Expand(p, edge, halves[..count]) == Expand(p, start, [])
      decreases |p| - edge
    {
      ghost var before, n := halves[..count], count;
      var units := Units(p[edge].us);
      for unit := 0 to units
        invariant count == n + unit && halves[..count] == before + Repeat(p[edge].level, unit)
      {
        halves[count] := p[edge].level;
        count := count + 1;
        assert halves[..count] == halves[..count - 1] + [p[edge].level];
      }
      edge := edge + 1;
    }
  }

  /** Fourteen bits, set one by one from the highest. */
  method ReadManchester(halves: seq<uint8>, offset: nat) returns (valid: bool, raw: nat)
    requires offset + HALVES <= |halves|
    ensures valid == Manchester(halves, offset)
    ensures valid ==> raw == HighFirst(ManchesterBits(halves, offset))
  {
    raw := 0;
    var n := HALVES / 2;
    ghost var bits := ManchesterBits(halves, offset);
    for b := 0 to n
      invariant forall k: nat | k < b :: Changes(halves, offset, k)
      invariant raw == Partial(bits, b, n)
    {
      var first, second := halves[offset + 2 * b], halves[offset + 2 * b + 1];
      if first == second {
        assert !Changes(halves, offset, b);
        return false, raw;
      }
      NextHighBit(bits, b, n);
      if first == LOW {
        raw := raw + Pow2(n - 1 - b);
      }
    }
    WholeNumber(bits);
    return true, raw;
  }

  method FindOffset(halves: seq<uint8>) returns (found: Option<nat>, raw: nat)
    ensures found == FirstOffset(halves, 0)
    ensures found.Some? ==> raw == HighFirst(ManchesterBits(halves, found.value))
  {
    raw := 0;
    var offset := 0;
    while offset + HALVES <= |halves|
      invariant FirstOffset(halves, 0) == FirstOffset(halves, offset)
    {
      var valid;
      valid, raw := ReadManchester(halves, offset);
      if valid && Rc5Good(raw) {
        return Some(offset), raw;
      }
      offset := offset + 1;
    }
    return None, raw;
  }

  method FindRc5(p: seq<Pulse>) returns (found: Option<nat>)
    ensures found == FirstRc5(p, 0)
  {
    var halves := new uint8[36];
    for start := 0 to |p|
      invariant FirstRc5(p, 0) == FirstRc5(p, start)
    {
      var count := ExpandInto(p, start, halves);
      var offset, raw := FindOffset(halves[..count]);
      if offset.Some? {
        return Some(raw);
      }
    }
    return None;
  }

  method FindRepeat(p: seq<Pulse>) returns (found: bool)
    ensures found == HasRepeat(p)
  {
    var start := 0;
    while start + 2 < |p|
      invariant forall s: nat | s < start :: !RepeatAt(p, s)
    {
      if RepeatAt(p, start) {
        return true;
      }
      start := start + 1;
    }
    return false;
  }

  method Decode(p: seq<Pulse>) returns (frame: Option<Frame>)
    ensures frame == DecodeOf(p)
  {
    if |p| < 3 {
      return None;
    }
    var start, raw := FindFrame(p, Pd24Timing(), Any);
    if start.Some? {
      return Some(Pd24Frame(raw));
    }
    var rc5 := FindRc5(p);
    if rc5.Some? {
      return Some(Rc5Frame(rc5.value));
    }
    start, raw := FindFrame(p, NecTiming(), NecGood);
    if start.Some? {
      return Some(NecFrame(raw));
    }
    var again := FindRepeat(p);
    return if again then Some(Frame(NecRepeat, 0, 0, 0, 0, true)) else None;
  }
}
