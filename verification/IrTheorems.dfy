/** What the searches promise to transmitters. */
module IrTheorems {
  import opened Wrappers
  import opened IrFrames

  /** Main theorem for the 24-bit remote: a transmission is decoded to its code whatever
      follows it and whatever precedes it, up to fifty pulses. */
  lemma Pd24IsDecoded(noise: seq<Pulse>, frame: seq<Pulse>, tail: seq<Pulse>, code: nat)
    requires |noise| <= 50 && Sends(frame, Pd24Timing(), code)
    ensures DecodeOf(noise + frame + tail) == Some(Pd24Frame(code))
  {
    var p, t, s := noise + frame + tail, Pd24Timing(), |noise|;
    FrameInCapture(noise, frame, tail, t, code);
    FirstOfItsKind(p, s, t, Any);
  }

  lemma FirstOfItsKind(p: seq<Pulse>, s: nat, t: Timing, good: nat -> bool)
    requires Taken(p, s, t, good) && t.mark.most < t.leadMark.least
    requires s < 2 + 2 * t.bits || (t.stop && s == 2 + 2 * t.bits)
    ensures FirstFrame(p, 0, t, good) == Some(s)
  {
    forall i: nat | i < s
      ensures !Taken(p, i, t, good)
    {
      if FrameAt(p, i, t) {
        FramesDoNotOverlap(p, i, s, t);
      }
    }
    FirstFrameIs(p, 0, t, good, s);
  }

  // ----- NEC -----

  /** No lead-in of the 24-bit remote with room for its frame, and of three neighbours one is
      no run of RC5. */
  ghost predicate Clear(p: seq<Pulse>) {
    && (forall i: nat | i + 50 < |p| :: !Mark(p[i], Pd24Timing().leadMark))
    && forall i: nat | i + 2 < |p| :: !Fits(p[i].us) || !Fits(p[i + 1].us) || !Fits(p[i + 2].us)
  }

  lemma ClearExpandsBriefly(p: seq<Pulse>, s: nat)
    requires Clear(p)
    ensures |Expand(p, s, [])| <= 6
  {
    if s < |p| && Fits(p[s].us) {
      var one := [] + Repeat(p[s].level, Units(p[s].us));
      if s + 1 < |p| && Fits(p[s + 1].us) {
        var two := one + Repeat(p[s + 1].level, Units(p[s + 1].us));
        assert s + 2 < |p| ==> !Fits(p[s + 2].us);
        assert Expand(p, s + 2, two) == two;
        assert Expand(p, s + 1, one) == two;
      } else {
        assert Expand(p, s + 1, one) == one;
      }
    }
  }

  lemma {:induction false} ClearHasNoRc5(p: seq<Pulse>, s: nat)
    requires Clear(p)
    ensures FirstRc5(p, s) == None
    decreases |p| - s
  {
    if s < |p| {
      ClearExpandsBriefly(p, s);
      ClearHasNoRc5(p, s + 1);
    }
  }

  lemma {:induction false} ClearHasNoPd24(p: seq<Pulse>, s: nat)
    requires Clear(p)
    ensures FirstFrame(p, s, Pd24Timing(), Any) == None
    decreases |p| - s
  {
    if s + 50 < |p| {
      assert !Mark(p[s], Pd24Timing().leadMark);
      ClearHasNoPd24(p, s + 1);
    }
  }

  /** A NEC frame is decoded as one wherever it stands among the first 66 pulses of a clear
      capture. */
  lemma NecInClearCapture(p: seq<Pulse>, s: nat)
    requires Taken(p, s, NecTiming(), NecGood) && s < 66 && Clear(p)
    ensures DecodeOf(p) == Some(NecFrame(Code(p, s, NecTiming())))
  {
    FirstOfItsKind(p, s, NecTiming(), NecGood);
    ClearHasNoPd24(p, 0);
    ClearHasNoRc5(p, 0);
  }

  /** What a NEC remote sends: its address, the command and the inverse of the command. */
  function NecCode(word: nat, command: nat): nat
    requires command < 0x100
  {
    word + 0x10000 * command + 0x1000000 * (0xff - command)
  }

  /** The sixteen address bits: an eight-bit address with its inverse, or sixteen bits whose
      upper half is not the inverse of the lower. */
  datatype Address = Short(a: nat) | Long(word: nat)

  predicate ProperAddress(x: Address) {
    match x
    case Short(a) => a < 0x100
    case Long(word) => word < 0x10000 && word % 0x100 + word / 0x100 != 0xff
  }

  function AddressWord(x: Address): nat
    requires ProperAddress(x)
  {
    match x
    case Short(a) => a + 0x100 * (0xff - a)
    case Long(word) => word
  }

  function AddressOf(x: Address): nat {
    match x
    case Short(a) => a
    case Long(word) => word
  }

  lemma FourBytes(b0: nat, b1: nat, b2: nat, b3: nat)
    requires b0 < 0x100 && b1 < 0x100 && b2 < 0x100 && b3 < 0x100
    ensures var n := b0 + 0x100 * b1 + 0x10000 * b2 + 0x1000000 * b3;
            n % 0x100 == b0 && n / 0x100 % 0x100 == b1 && n / 0x10000 % 0x100 == b2 && n / 0x1000000 % 0x100 == b3
  {
    var n := b0 + 0x100 * b1 + 0x10000 * b2 + 0x1000000 * b3;
    assert n / 0x100 == b1 + 0x100 * b2 + 0x10000 * b3;
    assert n / 0x10000 == b2 + 0x100 * b3;
    assert n / 0x1000000 == b3;
  }

  lemma NecCodeReads(x: Address, command: nat)
    requires ProperAddress(x) && command < 0x100
    ensures var code := NecCode(AddressWord(x), command);
            NecGood(code) && NecAddress(code) == AddressOf(x) && code / 0x10000 % 0x100 == command
  {
    var word := AddressWord(x);
    var low, high := word % 0x100, word / 0x100;
    var code := NecCode(word, command);
    FourBytes(low, high, command, 0xff - command);
    assert code == low + 0x100 * high + 0x10000 * command + 0x1000000 * (0xff - command);
    assert NecAddress(code) == if low + high == 0xff then low else word by {
      assert code % 0x10000 == word;
    }
  }

  // ----- RC5 -----

  function HalvesOf(bits: seq<bool>): (r: seq<uint8>)
    ensures |r| == 2 * |bits|
  {
    seq(2 * |bits|, k requires 0 <= k < 2 * |bits| => if bits[k / 2] == (k % 2 == 0) then LOW else HIGH)
  }

  /** The half-bits of a capture that consists of runs of RC5. */
  function Spell(p: seq<Pulse>): seq<uint8> {
    if p == [] then [] else Repeat(p[0].level, Units(p[0].us)) + Spell(p[1..])
  }

  lemma {:induction false} ExpandSpells(p: seq<Pulse>, edge: nat, halves: seq<uint8>)
    requires edge <= |p| && (forall i | edge <= i < |p| :: Fits(p[i].us)) && |halves| + |Spell(p[edge..])| <= HALVES
    ensures Expand(p, edge, halves) == halves + Spell(p[edge..])
    decreases |p| - edge
  {
    if edge < |p| {
      var run := Repeat(p[edge].level, Units(p[edge].us));
      assert p[edge..][1..] == p[edge + 1..];
      assert halves + run + Spell(p[edge + 1..]) == halves + (run + Spell(p[edge + 1..]));
      ExpandSpells(p, edge + 1, halves + run);
    }
  }

  lemma ManchesterReadsBack(bits: seq<bool>)
    requires |bits| == HALVES / 2
    ensures Manchester(HalvesOf(bits), 0) && ManchesterBits(HalvesOf(bits), 0) == bits
  {
    var h := HalvesOf(bits);
    forall b: nat | b < HALVES / 2
      ensures Changes(h, 0, b) && (h[0 + 2 * b] == LOW) == bits[b]
    {
      assert 2 * b / 2 == b && (2 * b + 1) / 2 == b;
    }
  }

  /** Main theorem for RC5: runs within tolerance that spell the Manchester halves of fourteen
      bits are decoded to these bits, unless the start bit is clear or the low twelve are ones. */
  lemma Rc5IsDecoded(p: seq<Pulse>, bits: seq<bool>)
    requires |bits| == HALVES / 2 && Rc5Good(HighFirst(bits)) && |p| >= 3
    requires (forall i | 0 <= i < |p| :: Fits(p[i].us)) && Spell(p) == HalvesOf(bits)
    ensures DecodeOf(p) == Some(Rc5Frame(HighFirst(bits)))
  {
    assert p[0..] == p;
    ExpandSpells(p, 0, []);
    assert [] + Spell(p) == HalvesOf(bits);
    Rc5AtOnce(p, bits);
    NoLongMark(p, 0);
  }

  lemma Rc5AtOnce(p: seq<Pulse>, bits: seq<bool>)
    requires |bits| == HALVES / 2 && Rc5Good(HighFirst(bits)) && p != [] && Expand(p, 0, []) == HalvesOf(bits)
    ensures FirstRc5(p, 0) == Some(HighFirst(bits))
  {
    ManchesterReadsBack(bits);
    assert Rc5At(HalvesOf(bits), 0);
    assert FirstOffset(HalvesOf(bits), 0) == Some(0);
  }

  lemma {:induction false} NoLongMark(p: seq<Pulse>, s: nat)
    requires forall i | 0 <= i < |p| :: Fits(p[i].us)
    ensures FirstFrame(p, s, Pd24Timing(), Any) == None
    decreases |p| - s
  {
    if s + 50 < |p| {
      NoLongMark(p, s + 1);
    }
  }

  lemma {:induction false} Rc5Found(p: seq<Pulse>, start: nat, k: nat, offset: nat)
    requires start <= k < |p| && Rc5At(Expand(p, k, []), offset)
    ensures FirstRc5(p, start).Some?
    decreases k - start
  {
    if start < k {
      Rc5Found(p, start + 1, k, offset);
    }
  }
}
