/** The numbers of the three remote controls, and the fields of their codes, written out. */
module IrLaws {
  import opened Wrappers
  import opened IrFrames
  import opened IrTheorems

  // ----- RC5 -----

  /** Runs of one, two and three half-bits; the lengths between 1200 and 1334 us are none. */
  lemma RunLengths(us: uint32)
    ensures Fits(us) && Units(us) == 1 <==> 577 <= us <= 1200
    ensures Fits(us) && Units(us) == 2 <==> 1334 <= us <= 2222
    ensures Fits(us) && Units(us) == 3 <==> 2223 <= us <= 3111
    ensures Fits(us) ==> Units(us) in {1, 2, 3}
  {
  }

  /** The fourteen bits: a one, the field bit, the toggle, five of address, six of command. */
  function Rc5Word(toggle: bool, address: nat, command: nat): nat
    requires address < 32 && command < 128
  {
    0x2000 + (if command < 64 then 0x1000 else 0) + (if toggle then 0x800 else 0) + 64 * address + command % 64
  }

  lemma Rc5Parts(field: nat, toggle: nat, address: nat, low: nat)
    requires field < 2 && toggle < 2 && address < 32 && low < 64
    ensures var word := 0x2000 + 0x1000 * field + 0x800 * toggle + 64 * address + low;
            && word % 64 == low && word / 64 % 32 == address && word / 4096 % 2 == field && word / 8192 % 2 == 1
            && word % 4096 == 0x800 * toggle + 64 * address + low
  {
    var word := 0x2000 + 0x1000 * field + 0x800 * toggle + 64 * address + low;
    assert word / 64 == 128 + 64 * field + 32 * toggle + address;
    assert word / 4096 == 2 + field && word / 8192 == 1;
  }

  /** The field bit, inverted, is the seventh bit of the command. */
  lemma Rc5FieldsAreRead(toggle: bool, address: nat, command: nat)
    requires address < 32 && command < 128
    ensures var word := Rc5Word(toggle, address, command);
            && Rc5Frame(word) == Frame(Rc5, address, command, 14, word, false)
            && (Rc5Good(word) <==> !(toggle && address == 31 && command % 64 == 63))
  {
    Rc5Parts(if command < 64 then 1 else 0, if toggle then 1 else 0, address, command % 64);
  }

  /** From runs to fields: the Manchester halves of such a word are decoded to its address and
      command. */
  lemma Rc5ReachesFields(p: seq<Pulse>, bits: seq<bool>, toggle: bool, address: nat, command: nat)
    requires |bits| == HALVES / 2 && |p| >= 3 && address < 32 && command < 128
    requires HighFirst(bits) == Rc5Word(toggle, address, command) && !(toggle && address == 31 && command % 64 == 63)
    requires (forall i | 0 <= i < |p| :: Fits(p[i].us)) && Spell(p) == HalvesOf(bits)
    ensures DecodeOf(p) == Some(Frame(Rc5, address, command, 14, Rc5Word(toggle, address, command), false))
  {
    Rc5FieldsAreRead(toggle, address, command);
    Rc5IsDecoded(p, bits);
  }

  // ----- pulse distance -----

  predicate MarkOf(p: Pulse, least: nat, most: nat) { p.level == 0 && least <= p.us <= most }
  predicate SpaceOf(p: Pulse, least: nat, most: nat) { p.level == 1 && least <= p.us <= most }

  /** An NEC frame of 67 pulses, the last of which is not looked at. */
  lemma NecFrameIs(p: seq<Pulse>, s: nat)
    requires s + 66 < |p|
    ensures FrameAt(p, s, NecTiming()) <==>
              && MarkOf(p[s], 7500, 10000) && SpaceOf(p[s + 1], 3500, 5500)
              && forall k: nat | s + 2 <= k < s + 66 :: if (k - s) % 2 == 0 then MarkOf(p[k], 300, 850) else SpaceOf(p[k], 300, 2100)
  {
    PairsAre(p, s, NecTiming());
  }

  /** A frame of the 24-bit remote: 51 pulses, closed by a mark. */
  lemma Pd24FrameIs(p: seq<Pulse>, s: nat)
    requires s + 50 < |p|
    ensures FrameAt(p, s, Pd24Timing()) <==>
              && MarkOf(p[s], 3400, 4600) && SpaceOf(p[s + 1], 3400, 4600) && MarkOf(p[s + 50], 350, 650)
              && forall k: nat | s + 2 <= k < s + 50 :: if (k - s) % 2 == 0 then MarkOf(p[k], 350, 650) else SpaceOf(p[k], 800, 2300)
  {
    PairsAre(p, s, Pd24Timing());
  }

  lemma PairsAre(p: seq<Pulse>, s: nat, t: Timing)
    requires s + 2 + 2 * t.bits < |p|
    ensures (forall b: nat | b < t.bits :: PairAt(p, s, t, b)) <==>
            (forall k: nat | s + 2 <= k < s + 2 + 2 * t.bits ::
               if (k - s) % 2 == 0 then MarkOf(p[k], t.mark.least, t.mark.most) else SpaceOf(p[k], t.space.least, t.space.most))
  {
    if forall b: nat | b < t.bits :: PairAt(p, s, t, b) {
      forall k: nat | s + 2 <= k < s + 2 + 2 * t.bits
        ensures if (k - s) % 2 == 0 then MarkOf(p[k], t.mark.least, t.mark.most) else SpaceOf(p[k], t.space.least, t.space.most)
      {
        var b := (k - s - 2) / 2;
        assert PairAt(p, s, t, b);
        assert k == s + 2 + 2 * b || k == s + 3 + 2 * b;
      }
    } else {
      var b: nat :| b < t.bits && !PairAt(p, s, t, b);
      var k, l := s + 2 + 2 * b, s + 3 + 2 * b;
      assert (k - s) % 2 == 0 && (l - s) % 2 == 1;
      assert !MarkOf(p[k], t.mark.least, t.mark.most) || !SpaceOf(p[l], t.space.least, t.space.most);
    }
  }

  lemma SameQuotient(a: nat, n: nat, q: nat)
    requires n > 0 && q * n <= a < q * n + n
    ensures a / n == q
  {
    var e := a / n - q;
    assert n * e == a - q * n - a % n;
  }

  lemma HalvedThenDivided(a: nat, n: nat)
    requires n > 0
    ensures a / 2 / n == a / (2 * n)
  {
    var q := a / (2 * n);
    assert q * (2 * n) <= a < q * (2 * n) + 2 * n;
    SameQuotient(a / 2, n, q);
  }

  /** Bit `b` of a code is the bit at that place. */
  lemma {:induction false} BitOfCode(bits: seq<bool>, b: nat)
    requires b < |bits|
    ensures LowFirst(bits) / Pow2(b) % 2 == Bit(bits[b])
    decreases b
  {
    var code := LowFirst(bits);
    if b > 0 {
      assert code / 2 == LowFirst(bits[1..]);
      BitOfCode(bits[1..], b - 1);
      HalvedThenDivided(code, Pow2(b - 1));
    }
  }

  /** The bits of an NEC code are sent lowest first; a space of more than 1000 us is a one. */
  lemma NecBitIs(p: seq<Pulse>, s: nat, b: nat)
    requires s + 66 < |p| && b < 32
    ensures Code(p, s, NecTiming()) / Pow2(b) % 2 == if p[s + 3 + 2 * b].us > 1000 then 1 else 0
  {
    BitOfCode(FrameBits(p, s, NecTiming()), b);
  }

  /** For the 24-bit remote a space of 1500 us or more is. */
  lemma Pd24BitIs(p: seq<Pulse>, s: nat, b: nat)
    requires s + 50 < |p| && b < 24
    ensures Code(p, s, Pd24Timing()) / Pow2(b) % 2 == if p[s + 3 + 2 * b].us >= 1500 then 1 else 0
  {
    BitOfCode(FrameBits(p, s, Pd24Timing()), b);
  }

  lemma RepeatIs(p: seq<Pulse>)
    ensures HasRepeat(p) <==>
              exists s: nat :: s + 2 < |p| && MarkOf(p[s], 7500, 10000) && SpaceOf(p[s + 1], 1700, 3000) && MarkOf(p[s + 2], 300, 850)
  {
    if s: nat :| s + 2 < |p| && MarkOf(p[s], 7500, 10000) && SpaceOf(p[s + 1], 1700, 3000) && MarkOf(p[s + 2], 300, 850) {
      assert RepeatAt(p, s);
    }
    if HasRepeat(p) {
      var s: nat :| RepeatAt(p, s);
      assert MarkOf(p[s], 7500, 10000) && SpaceOf(p[s + 1], 1700, 3000) && MarkOf(p[s + 2], 300, 850);
    }
  }
}
