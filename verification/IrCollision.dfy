/** NEC against RC5: exactly which NEC frames the earlier RC5 search takes away. */
module IrCollision {
  import opened Wrappers
  import opened IrFrames
  import opened IrTheorems

  /** Bits of an RC5 word. The lemmas that recurse over a word take this number as a parameter
      `m`, so that the verifier does not unfold their definitions fourteen times. */
  const WORD_BITS: nat := 14

  predicate OneUnit(p: Pulse) { Fits(p.us) && Units(p.us) == 1 }
  predicate TwoUnits(p: Pulse) { Fits(p.us) && Units(p.us) == 2 }

  /** Fourteen consecutive marks from `j` on: the first thirteen are one unit and the last one
      is any run; of the thirteen spaces between them number `a` is two units, the others one. */
  ghost predicate Window(p: seq<Pulse>, j: nat, a: nat) {
    && j % 2 == 0 && 2 <= j && j + 26 < |p| && a < 13
    && (forall i: nat | i < 13 :: OneUnit(p[j + 2 * i]) && SpaceFits(p[j + 2 * i + 1], i == a))
    && Fits(p[j + 26].us) && p[j + 26].level != HIGH
  }

  predicate SpaceFits(p: Pulse, wide: bool) { if wide then TwoUnits(p) else OneUnit(p) }

  ghost predicate Collides(p: seq<Pulse>) { exists j: nat, a: nat :: Window(p, j, a) }

  // ----- the same, mark by mark -----

  /** `m` marks from `k` on with one wide space among the spaces between them. */
  predicate Shifted(p: seq<Pulse>, k: nat, m: nat)
    decreases m
  {
    && m >= 2 && k + 1 < |p| && OneUnit(p[k])
    && (|| (OneUnit(p[k + 1]) && Shifted(p, k + 2, m - 1))
        || (TwoUnits(p[k + 1]) && Steady(p, k + 2, m - 1)))
  }

  /** `m` marks from `k` on with no wide space between them. */
  predicate Steady(p: seq<Pulse>, k: nat, m: nat)
    decreases m
  {
    if m <= 1 then m == 1 ==> k < |p| && Fits(p[k].us) && p[k].level != HIGH
    else k + 1 < |p| && OneUnit(p[k]) && OneUnit(p[k + 1]) && Steady(p, k + 2, m - 1)
  }

  /** The pulses `k` to `k + 2 m - 2`, with space `a` wide; none of them if `a` is out of range. */
  ghost predicate Spaced(p: seq<Pulse>, k: nat, m: nat, a: int) {
    && m >= 1 && k + 2 * m - 2 < |p|
    && (forall i: nat | i < m - 1 :: OneUnit(p[k + 2 * i]) && SpaceFits(p[k + 2 * i + 1], i == a))
    && Fits(p[k + 2 * m - 2].us) && p[k + 2 * m - 2].level != HIGH
  }

  lemma SpacedTail(p: seq<Pulse>, k: nat, m: nat, a: int)
    requires m >= 2 && k + 1 < |p|
    ensures Spaced(p, k, m, a) <==> OneUnit(p[k]) && SpaceFits(p[k + 1], a == 0) && Spaced(p, k + 2, m - 1, a - 1)
  {
    if Spaced(p, k, m, a) {
      assert OneUnit(p[k + 2 * 0]) && SpaceFits(p[k + 2 * 0 + 1], 0 == a);
      forall i: nat | i < m - 2
        ensures OneUnit(p[k + 2 + 2 * i]) && SpaceFits(p[k + 2 + 2 * i + 1], i == a - 1)
      {
        assert OneUnit(p[k + 2 * (i + 1)]) && SpaceFits(p[k + 2 * (i + 1) + 1], i + 1 == a);
      }
    }
    if OneUnit(p[k]) && SpaceFits(p[k + 1], a == 0) && Spaced(p, k + 2, m - 1, a - 1) {
      forall i: nat | i < m - 1
        ensures OneUnit(p[k + 2 * i]) && SpaceFits(p[k + 2 * i + 1], i == a)
      {
        if i > 0 {
          assert OneUnit(p[k + 2 + 2 * (i - 1)]) && SpaceFits(p[k + 2 + 2 * (i - 1) + 1], i - 1 == a - 1);
        }
      }
    }
  }

  lemma {:induction false} SteadyIsSpaced(p: seq<Pulse>, k: nat, m: nat, a: int)
    requires m >= 1 && a < 0
    ensures Steady(p, k, m) <==> Spaced(p, k, m, a)
    decreases m
  {
    if m >= 2 && k + 1 < |p| {
      SpacedTail(p, k, m, a);
      SteadyIsSpaced(p, k + 2, m - 1, a - 1);
    }
  }

  lemma {:induction false} ShiftedIsSpaced(p: seq<Pulse>, k: nat, m: nat)
    requires m >= 1
    ensures Shifted(p, k, m) <==> exists a: nat :: a < m - 1 && Spaced(p, k, m, a)
    decreases m
  {
    if m >= 2 && k + 1 < |p| {
      SteadyIsSpaced(p, k + 2, m - 1, -1);
      SpacedTail(p, k, m, 0);
      ShiftedIsSpaced(p, k + 2, m - 1);
      if Shifted(p, k, m) && !Spaced(p, k, m, 0) {
        var a: nat :| a < m - 2 && Spaced(p, k + 2, m - 1, a);
        SpacedTail(p, k, m, a + 1);
        assert a + 1 < m - 1 && Spaced(p, k, m, a + 1);
      }
      forall a: nat | a < m - 1 && Spaced(p, k, m, a)
        ensures Shifted(p, k, m)
      {
        SpacedTail(p, k, m, a);
        if a > 0 {
          assert a - 1 < m - 2 && Spaced(p, k + 2, m - 1, a - 1);
        }
      }
    }
  }

  lemma CollidesExactly(p: seq<Pulse>, m: nat)
    requires m == WORD_BITS
    ensures Collides(p) <==> exists j: nat :: j % 2 == 0 && 2 <= j && Shifted(p, j, m)
  {
    if Collides(p) {
      var j: nat, a: nat :| Window(p, j, a);
      assert Spaced(p, j, m, a);
      ShiftedIsSpaced(p, j, m);
    }
    if j: nat :| j % 2 == 0 && 2 <= j && Shifted(p, j, m) {
      ShiftedIsSpaced(p, j, m);
      var a: nat :| a < 13 && Spaced(p, j, m, a);
      assert Window(p, j, a);
    }
  }

  // ----- half-bits without a limit -----

  /** The half-bits of the runs from `k` on, until one does not fit. */
  function Flow(p: seq<Pulse>, k: nat): seq<uint8>
    decreases |p| - k
  {
    if k < |p| && Fits(p[k].us) then Repeat(p[k].level, Units(p[k].us)) + Flow(p, k + 1) else []
  }

  /** The search sees the flow, cut off at 28 or a little more. */
  lemma {:induction false} ExpandIsFlow(p: seq<Pulse>, k: nat, halves: seq<uint8>)
    requires |halves| < HALVES + 3
    ensures Expand(p, k, halves) <= halves + Flow(p, k)
    ensures |halves + Flow(p, k)| >= HALVES ==> |Expand(p, k, halves)| >= HALVES
    ensures |Expand(p, k, halves)| < HALVES ==> Expand(p, k, halves) == halves + Flow(p, k)
    decreases |p| - k
  {
    if k < |p| && |halves| < HALVES && Fits(p[k].us) {
      var run := Repeat(p[k].level, Units(p[k].us));
      assert halves + run + Flow(p, k + 1) == halves + (run + Flow(p, k + 1));
      ExpandIsFlow(p, k + 1, halves + run);
    }
  }

  /** The first `m` pairs of half-bits are changes of level. */
  predicate Pairs(h: seq<uint8>, m: nat) {
    m == 0 || (|h| >= 2 && h[0] != h[1] && Pairs(h[2..], m - 1))
  }

  /** The first half of each of the first `m` bits is a mark. */
  predicate MarksFirst(h: seq<uint8>, m: nat) {
    m == 0 || (|h| >= 2 && h[0] == LOW && MarksFirst(h[2..], m - 1))
  }

  /** The first half of bit `m - 1` is a space. */
  predicate EndsInSpace(h: seq<uint8>, m: nat) {
    m > 0 && |h| >= 2 && if m == 1 then h[0] != LOW else EndsInSpace(h[2..], m - 1)
  }

  lemma PairsTail(h: seq<uint8>, x: uint8, y: uint8, t: seq<uint8>, m: nat)
    requires m >= 1 && h == [x, y] + t
    ensures Pairs(h, m) <==> x != y && Pairs(t, m - 1)
    ensures MarksFirst(h, m) <==> x == LOW && MarksFirst(t, m - 1)
    ensures m >= 2 ==> (EndsInSpace(h, m) <==> EndsInSpace(t, m - 1))
  {
    assert h[2..] == t;
  }

  lemma {:induction false} PairsAt(h: seq<uint8>, m: nat, b: nat)
    requires Pairs(h, m) && b < m
    ensures 2 * m <= |h| && Changes(h, 0, b)
    ensures MarksFirst(h, m) ==> h[2 * b] == LOW
    ensures b == m - 1 && EndsInSpace(h, m) ==> h[2 * b] != LOW
  {
    if m > 1 {
      PairsAt(h[2..], m - 1, if b == 0 then 0 else b - 1);
    }
  }

  lemma {:induction false} AllPairs(h: seq<uint8>, m: nat)
    requires 2 * m <= |h| && forall b: nat | b < m :: Changes(h, 0, b)
    ensures Pairs(h, m)
  {
    if m > 0 {
      assert Changes(h, 0, 0);
      forall b: nat | b < m - 1 ensures Changes(h[2..], 0, b) {
        assert Changes(h, 0, b + 1);
      }
      AllPairs(h[2..], m - 1);
    }
  }

  // ----- one NEC frame -----

  /** What matters of a NEC frame here: its lead-in is no run, a data mark that is one is one
      unit long and a space at most two. The last pulse is any. */
  ghost predicate Alternates(p: seq<Pulse>) {
    && |p| == 67 && !Fits(p[0].us) && !Fits(p[1].us)
    && (forall i | 2 <= i < 66 :: Level(p[i], i % 2 == 0))
  }

  predicate Level(x: Pulse, mark: bool) {
    x.level == (if mark then LOW else HIGH) && (Fits(x.us) ==> Units(x.us) <= (if mark then 1 else 2))
  }

  /** Neither a data mark up to 576 us nor anything longer than 3111 us is a run of RC5. */
  lemma OutsideRc5(us: uint32)
    requires 300 <= us <= 576 || 3111 < us < 0x1_0000_0000 - 444
    ensures !Fits(us)
  {
    assert (us + 444) % 0x1_0000_0000 == us + 444;
  }

  lemma FrameAlternates(p: seq<Pulse>)
    requires |p| == 67 && FrameAt(p, 0, NecTiming())
    ensures Alternates(p)
  {
    OutsideRc5(p[0].us);
    OutsideRc5(p[1].us);
    forall i | 2 <= i < 66
      ensures Level(p[i], i % 2 == 0)
    {
      assert PairAt(p, 0, NecTiming(), (i - 2) / 2);
      assert i == 2 + 2 * ((i - 2) / 2) || i == 3 + 2 * ((i - 2) / 2);
    }
  }

  /** The flow at a data mark that is a run: the mark, then the space. */
  lemma FlowAtMark(p: seq<Pulse>, k: nat)
    requires Alternates(p) && 2 <= k <= 64 && k % 2 == 0 && Fits(p[k].us)
    ensures OneUnit(p[k])
    ensures var h, rest := Flow(p, k), Flow(p, k + 2);
            if OneUnit(p[k + 1]) then h == [LOW, HIGH] + rest && [HIGH] + h == [HIGH, LOW] + ([HIGH] + rest)
            else if TwoUnits(p[k + 1]) then h == [LOW, HIGH] + ([HIGH] + rest)
            else h == [LOW]
  {
    assert Level(p[k], k % 2 == 0) && Level(p[k + 1], (k + 1) % 2 == 0);
    Regroup(LOW, HIGH, HIGH, Flow(p, k + 2));
  }

  lemma Regroup(x: uint8, y: uint8, z: uint8, t: seq<uint8>)
    ensures [x] + ([y] + t) == [x, y] + t && [x] + ([y, z] + t) == [x, y] + ([z] + t)
    ensures [y] + ([x, y] + t) == [y, x] + ([y] + t)
  {
  }

  /** The last pulse is one run or none. */
  lemma FlowAtEnd(p: seq<Pulse>)
    requires |p| == 67
    ensures |Flow(p, 66)| <= 3 && forall i | 0 <= i < |Flow(p, 66)| :: Flow(p, 66)[i] == p[66].level
    ensures Flow(p, 66) != [] <==> Fits(p[66].us)
  {
    if Fits(p[66].us) {
      assert Flow(p, 67) == [];
    }
  }

  // ----- following the phase -----

  /** While no wide space has come, a bit begins with its mark. */
  lemma {:induction false} MarkPhase(p: seq<Pulse>, k: nat, m: nat)
    requires Alternates(p) && 2 <= k <= 66 && k % 2 == 0 && Pairs(Flow(p, k), m)
    ensures MarksFirst(Flow(p, k), m) || Shifted(p, k, m)
    decreases m
  {
    if m > 0 {
      if k == 66 {
        FlowAtEnd(p);
      } else {
        FlowAtMark(p, k);
        var h, rest := Flow(p, k), Flow(p, k + 2);
        if OneUnit(p[k + 1]) {
          PairsTail(h, LOW, HIGH, rest, m);
          MarkPhase(p, k + 2, m - 1);
        } else if TwoUnits(p[k + 1]) {
          PairsTail(h, LOW, HIGH, [HIGH] + rest, m);
          SpacePhase(p, k + 2, m - 1);
        }
      }
    }
  }

  /** After a wide space a bit begins with the space before its mark, and no other wide
      space may come. */
  lemma {:induction false} SpacePhase(p: seq<Pulse>, k: nat, m: nat)
    requires Alternates(p) && 2 <= k <= 66 && k % 2 == 0 && Pairs([HIGH] + Flow(p, k), m)
    ensures Steady(p, k, m)
    decreases m
  {
    if m > 0 {
      if k == 66 {
        FlowAtEnd(p);
      } else if m == 1 {
        assert Level(p[k], k % 2 == 0);
      } else {
        FlowAtMark(p, k);
        if OneUnit(p[k + 1]) {
          var rest := [HIGH] + Flow(p, k + 2);
          PairsTail([HIGH] + Flow(p, k), HIGH, LOW, rest, m);
          SpacePhase(p, k + 2, m - 1);
        }
      }
    }
  }

  lemma {:induction false} SteadyFlows(p: seq<Pulse>, k: nat, m: nat)
    requires Alternates(p) && 2 <= k <= 66 && k % 2 == 0 && Steady(p, k, m)
    ensures Pairs([HIGH] + Flow(p, k), m) && (m > 0 ==> EndsInSpace([HIGH] + Flow(p, k), m))
    decreases m
  {
    if m == 1 {
      assert Repeat(p[k].level, Units(p[k].us))[0] == p[k].level;
    } else if m > 1 {
      FlowAtMark(p, k);
      var rest := [HIGH] + Flow(p, k + 2);
      PairsTail([HIGH] + Flow(p, k), HIGH, LOW, rest, m);
      SteadyFlows(p, k + 2, m - 1);
    }
  }

  /** A wide space in between gives a word that begins with a 1 and ends with a 0. */
  lemma {:induction false} ShiftedFlows(p: seq<Pulse>, k: nat, m: nat)
    requires Alternates(p) && 2 <= k <= 66 && k % 2 == 0 && Shifted(p, k, m)
    ensures Pairs(Flow(p, k), m) && Flow(p, k)[0] == LOW && EndsInSpace(Flow(p, k), m)
    decreases m
  {
    FlowAtMark(p, k);
    var h, rest := Flow(p, k), Flow(p, k + 2);
    if OneUnit(p[k + 1]) {
      PairsTail(h, LOW, HIGH, rest, m);
      ShiftedFlows(p, k + 2, m - 1);
    } else {
      PairsTail(h, LOW, HIGH, [HIGH] + rest, m);
      SteadyFlows(p, k + 2, m - 1);
    }
  }

  // ----- from the flow to the search and back -----

  lemma {:induction false} TopBit(bits: seq<bool>)
    requires |bits| >= 1
    ensures HighFirst(bits) < Pow2(|bits|)
    ensures HighFirst(bits) >= Pow2(|bits| - 1) <==> bits[0]
  {
    if |bits| > 1 {
      TopBit(bits[..|bits| - 1]);
    }
  }

  lemma {:induction false} OnesValue(bits: seq<bool>)
    requires forall k | 0 <= k < |bits| :: bits[k]
    ensures HighFirst(bits) == Pow2(|bits|) - 1
  {
    if bits != [] {
      OnesValue(bits[..|bits| - 1]);
    }
  }

  /** The checks on a word of fourteen bits. */
  lemma GoodWord(bits: seq<bool>)
    requires |bits| == 14
    ensures Rc5Good(HighFirst(bits)) ==> bits[0] && exists k | 0 <= k < 14 :: !bits[k]
    ensures bits[0] && !bits[13] ==> Rc5Good(HighFirst(bits))
  {
    TopBit(bits);
    assert Pow2(14) == 16384 && Pow2(13) == 8192;
    if forall k | 0 <= k < 14 :: bits[k] {
      OnesValue(bits);
    }
  }

  /** A half-bit that is a mark, with a whole word to come, is where the flow of a data mark begins. */
  lemma {:induction false} Locate(p: seq<Pulse>, start: nat, o: nat) returns (k: nat)
    requires Alternates(p) && o + 3 < |Flow(p, start)| && Flow(p, start)[o] == LOW
    ensures 2 <= k <= 64 && k % 2 == 0 && Flow(p, start)[o..] == Flow(p, k)
    decreases |p| - start
  {
    if start == 66 {
      FlowAtEnd(p);
    } else {
      assert start < 66 && Level(p[start], start % 2 == 0);
      if o == 0 {
        k := start;
      } else {
        var u := Units(p[start].us);
        k := Locate(p, start + 1, o - u);
      }
    }
  }

  /** A word of the search is the beginning of the flow of a data mark. */
  lemma WordInFlow(p: seq<Pulse>, start: nat, o: nat, m: nat) returns (k: nat)
    requires m == WORD_BITS && Alternates(p) && Manchester(Expand(p, start, []), o) && Expand(p, start, [])[o] == LOW
    ensures 2 <= k <= 64 && k % 2 == 0 && Pairs(Flow(p, k), m) && 2 * m <= |Flow(p, k)|
    ensures forall b: nat | b < m :: Flow(p, k)[2 * b] == Expand(p, start, [])[o + 2 * b]
  {
    var h, f := Expand(p, start, []), Flow(p, start);
    ExpandIsFlow(p, start, []);
    assert [] + f == f;
    k := Locate(p, start, o);
    var word := f[o..];
    forall b: nat | b < m ensures Changes(word, 0, b) && word[2 * b] == h[o + 2 * b] {
      assert Changes(h, o, b);
      assert word[2 * b] == f[o + 2 * b] == h[o + 2 * b] && word[2 * b + 1] == f[o + 2 * b + 1] == h[o + 2 * b + 1];
    }
    AllPairs(word, m);
  }

  lemma SearchFindsWindow(p: seq<Pulse>, start: nat, o: nat, m: nat)
    requires m == WORD_BITS && Alternates(p) && Rc5At(Expand(p, start, []), o)
    ensures Collides(p)
  {
    var h := Expand(p, start, []);
    var bits := ManchesterBits(h, o);
    GoodWord(bits);
    assert h[o + 2 * 0] == LOW by { assert bits[0]; }
    var k := WordInFlow(p, start, o, m);
    MarkPhase(p, k, m);
    if MarksFirst(Flow(p, k), m) {
      forall b: nat | b < m ensures bits[b] {
        PairsAt(Flow(p, k), m, b);
      }
    }
    CollidesExactly(p, m);
  }

  lemma WindowIsFound(p: seq<Pulse>, j: nat, m: nat)
    requires m == WORD_BITS && Alternates(p) && 2 <= j <= 66 && j % 2 == 0 && Shifted(p, j, m)
    ensures Rc5At(Expand(p, j, []), 0)
  {
    var h, f := Expand(p, j, []), Flow(p, j);
    ShiftedFlows(p, j, m);
    PairsAt(f, m, 13);
    ExpandIsFlow(p, j, []);
    assert [] + f == f;
    forall b: nat | b < m ensures Changes(h, 0, b) {
      PairsAt(f, m, b);
    }
    var bits := ManchesterBits(h, 0);
    assert bits[0] && !bits[13] by {
      assert h[0 + 2 * 0] == f[0] && h[0 + 2 * 13] == f[26];
    }
    GoodWord(bits);
  }

  // ----- the exact condition -----

  lemma {:induction false} NecHasNoPd24(p: seq<Pulse>, s: nat)
    requires |p| == 67 && FrameAt(p, 0, NecTiming())
    ensures FirstFrame(p, s, Pd24Timing(), Any) == None
    decreases |p| - s
  {
    if s + 50 < |p| {
      if s > 1 {
        assert PairAt(p, 0, NecTiming(), (s - 2) / 2);
      }
      NecHasNoPd24(p, s + 1);
    }
  }

  lemma {:induction false} NoWindowNoRc5(p: seq<Pulse>, start: nat)
    requires Alternates(p) && !Collides(p)
    ensures FirstRc5(p, start) == None
    decreases |p| - start
  {
    if start < |p| {
      var found := FirstOffset(Expand(p, start, []), 0);
      if found.Some? {
        SearchFindsWindow(p, start, found.value, WORD_BITS);
      }
      NoWindowNoRc5(p, start + 1);
    }
  }

  lemma WindowMeansRc5(p: seq<Pulse>, m: nat)
    requires m == WORD_BITS && Alternates(p) && Collides(p)
    ensures FirstRc5(p, 0).Some?
  {
    CollidesExactly(p, m);
    var j: nat :| j % 2 == 0 && 2 <= j && Shifted(p, j, m);
    WindowIsFound(p, j, m);
    Rc5Found(p, 0, j, 0);
  }

  /** Main theorem: a single frame that the NEC search itself would take is decoded as that
      frame if and only if it has no such window; otherwise it is taken for RC5. */
  lemma NecDecodedExactly(p: seq<Pulse>)
    requires |p| == 67 && Taken(p, 0, NecTiming(), NecGood)
    ensures DecodeOf(p) == Some(NecFrame(Code(p, 0, NecTiming()))) <==> !Collides(p)
    ensures Collides(p) ==> DecodeOf(p).Some? && DecodeOf(p).value.protocol == Rc5
  {
    FrameAlternates(p);
    NecHasNoPd24(p, 0);
    FirstFrameIs(p, 0, NecTiming(), NecGood, 0);
    if Collides(p) {
      WindowMeansRc5(p, WORD_BITS);
    } else {
      NoWindowNoRc5(p, 0);
    }
  }

  // ----- what follows for mark lengths -----

  /** Every data mark is at most 576 us. */
  ghost predicate ShortMarks(frame: seq<Pulse>)
    requires |frame| == 67
  {
    forall b: nat | b < 32 :: Within(frame[2 + 2 * b].us, Range(300, 576))
  }

  lemma ShortMarksDoNotCollide(p: seq<Pulse>)
    requires |p| == 67 && ShortMarks(p)
    ensures !Collides(p)
  {
    forall j: nat, a: nat
      ensures !Window(p, j, a)
    {
      if j % 2 == 0 && 2 <= j && j + 26 < |p| {
        assert Within(p[2 + 2 * ((j - 2) / 2)].us, Range(300, 576));
        OutsideRc5(p[j].us);
        assert !OneUnit(p[j + 2 * 0]);
      }
    }
  }

  /** A single NEC frame whose data marks are 300 to 576 us is decoded to exactly its address
      and its command. */
  lemma NecIsDecoded(frame: seq<Pulse>, x: Address, command: nat)
    requires ProperAddress(x) && command < 0x100
    requires Sends(frame, NecTiming(), NecCode(AddressWord(x), command)) && ShortMarks(frame)
    ensures DecodeOf(frame) == Some(Frame(Nec, AddressOf(x), command, 32, NecCode(AddressWord(x), command), false))
  {
    NecCodeReads(x, command);
    SentCode(frame, NecTiming(), NecCode(AddressWord(x), command));
    ShortMarksDoNotCollide(frame);
    NecDecodedExactly(frame);
  }

  /** A frame of the sixteen-bit address 0 and command 0 with marks of one length. */
  function EvenFrame(mark: uint32): (r: seq<Pulse>)
    ensures |r| == 67
  {
    seq(67, i requires 0 <= i < 67 =>
      if i == 0 then Pulse(LOW, 9000)
      else if i == 1 then Pulse(HIGH, 4500)
      else if i % 2 == 0 then Pulse(LOW, mark)
      else if i < 50 then Pulse(HIGH, 600)
      else Pulse(HIGH, 1700))
  }

  lemma EvenFrameCollides(mark: uint32)
    requires 577 <= mark <= 850
    ensures Window(EvenFrame(mark), 26, 12)
  {
    var p := EvenFrame(mark);
    assert OneUnit(Pulse(LOW, mark)) && OneUnit(Pulse(HIGH, 600)) && TwoUnits(Pulse(HIGH, 1700));
    forall i: nat | i < 13
      ensures OneUnit(p[26 + 2 * i]) && SpaceFits(p[26 + 2 * i + 1], i == 12)
    {
      assert p[26 + 2 * i] == Pulse(LOW, mark);
      assert p[26 + 2 * i + 1] == if i == 12 then Pulse(HIGH, 1700) else Pulse(HIGH, 600);
    }
  }

  lemma {:induction false} ZerosThenOnes(bits: seq<bool>, n: nat, m: nat)
    requires |bits| == n + m && forall k | 0 <= k < n + m :: bits[k] == (k >= n)
    ensures LowFirst(bits) == Pow2(n) * (Pow2(m) - 1)
    decreases n + m
  {
    if n > 0 {
      ZerosThenOnes(bits[1..], n - 1, m);
      assert 2 * (Pow2(n - 1) * (Pow2(m) - 1)) == Pow2(n) * (Pow2(m) - 1);
    } else if m > 0 {
      ZerosThenOnes(bits[1..], 0, m - 1);
    }
  }

  lemma EvenFrameIsNec(mark: uint32, t: Timing, n: nat, m: nat)
    requires 300 <= mark <= 850 && t == NecTiming() && n == 24 && m == 8
    ensures Taken(EvenFrame(mark), 0, t, NecGood)
  {
    var p := EvenFrame(mark);
    forall b: nat | b < t.bits
      ensures PairAt(p, 0, t, b) && FrameBits(p, 0, t)[b] == (b >= n)
    {
    }
    ZerosThenOnes(FrameBits(p, 0, t), n, m);
    Powers();
    assert NecGood(0x1000000 * 0xff);
  }

  lemma Powers()
    ensures Pow2(8) == 0x100 && Pow2(24) == 0x1000000
  {
    assert Pow2(4) == 0x10;
    assert Pow2(8) == 0x100;
    assert Pow2(12) == 0x1000;
    assert Pow2(16) == 0x10000;
    assert Pow2(20) == 0x100000;
  }

  /** The limit of 576 us is exact: for every longer mark that the NEC search admits there is
      a frame that is taken for RC5. */
  lemma LongMarksAreMistaken(mark: uint32)
    requires 577 <= mark <= 850
    ensures Taken(EvenFrame(mark), 0, NecTiming(), NecGood)
    ensures DecodeOf(EvenFrame(mark)).Some? && DecodeOf(EvenFrame(mark)).value.protocol == Rc5
  {
    EvenFrameIsNec(mark, NecTiming(), 24, 8);
    EvenFrameCollides(mark);
    NecDecodedExactly(EvenFrame(mark));
  }
}
