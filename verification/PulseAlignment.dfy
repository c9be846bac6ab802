/** IR pulse alignment: the rolling two-row dynamic program of `verifyLast`
    computes the largest order-preserving matching between the pulses that were
    replayed and the pulses that were received. */
module PulseAlignment {

  newtype uint16 = x: int | 0 <= x < 0x1_0000

  const UINT32: nat := 0x1_0000_0000
  const MAX_COMPARED: nat := 1024
  const IDLE_US: nat := 15000

  datatype Pulse = Pulse(level: nat, us: nat)

  function Gap(a: nat, b: nat): nat {
    if a > b then a - b else b - a
  }

  /** Tolerance match: reflexive and symmetric, but not transitive. */
  predicate Matches(a: Pulse, b: Pulse, tolerance: nat) {
    a.level == b.level && Gap(a.us, b.us) <= tolerance
  }

  // ----- declarative definition -----

  /** The same level, and neither pulse longer than the other by more than the tolerance. */
  predicate Close(a: Pulse, b: Pulse, tolerance: nat) {
    a.level == b.level && a.us <= b.us + tolerance && b.us <= a.us + tolerance
  }

  /** `m` pairs pulses of the first `i` sources with pulses of the first `j`
      targets, strictly increasing on both sides. */
  ghost predicate Matching(m: seq<(nat, nat)>, s: seq<Pulse>, t: seq<Pulse>, i: nat, j: nat, tolerance: nat)
    requires i <= |s| && j <= |t|
  {
    && (forall k | 0 <= k < |m| :: m[k].0 < i && m[k].1 < j && Close(s[m[k].0], t[m[k].1], tolerance))
    && (forall k, l | 0 <= k < l < |m| :: m[k].0 < m[l].0 && m[k].1 < m[l].1)
  }

  /** `r` is the maximum size of an order-preserving matching. */
  ghost predicate IsMaximum(r: nat, s: seq<Pulse>, t: seq<Pulse>, tolerance: nat) {
    && (exists m :: Matching(m, s, t, |s|, |t|, tolerance) && |m| == r)
    && (forall m :: Matching(m, s, t, |s|, |t|, tolerance) ==> |m| <= r)
  }

  // ----- the recurrence -----

  /** Cell (i, j) of the table: on a match the diagonal is taken unconditionally. */
  ghost function Cell(s: seq<Pulse>, t: seq<Pulse>, i: nat, j: nat, tolerance: nat): (r: nat)
    requires i <= |s| && j <= |t|
    ensures r <= i && r <= j
  {
    if i == 0 || j == 0 then 0
    else if Matches(s[i - 1], t[j - 1], tolerance) then Cell(s, t, i - 1, j - 1, tolerance) + 1
    else
      var up, left := Cell(s, t, i - 1, j, tolerance), Cell(s, t, i, j - 1, tolerance);
      if up > left then up else left
  }

  lemma {:induction false} CellAchieved(s: seq<Pulse>, t: seq<Pulse>, i: nat, j: nat, tolerance: nat)
    returns (m: seq<(nat, nat)>)
    requires i <= |s| && j <= |t|
    ensures Matching(m, s, t, i, j, tolerance) && |m| == Cell(s, t, i, j, tolerance)
  {
    if i == 0 || j == 0 {
      m := [];
    } else if Matches(s[i - 1], t[j - 1], tolerance) {
      m := CellAchieved(s, t, i - 1, j - 1, tolerance);
      m := m + [(i - 1, j - 1)];
    } else if Cell(s, t, i - 1, j, tolerance) > Cell(s, t, i, j - 1, tolerance) {
      m := CellAchieved(s, t, i - 1, j, tolerance);
    } else {
      m := CellAchieved(s, t, i, j - 1, tolerance);
    }
  }

  /** No matching beats the table. On a match of the two last pulses, dropping the
      last pair of any matching leaves a matching of both shorter prefixes, so
      taking the diagonal loses nothing although matching is not transitive. */
  lemma {:induction false} CellBounds(m: seq<(nat, nat)>, s: seq<Pulse>, t: seq<Pulse>, i: nat, j: nat, tolerance: nat)
    requires i <= |s| && j <= |t|
    requires Matching(m, s, t, i, j, tolerance)
    ensures |m| <= Cell(s, t, i, j, tolerance)
    decreases i + j
  {
    if |m| > 0 {
      var last := m[|m| - 1];
      if Matches(s[i - 1], t[j - 1], tolerance) {
        var shorter := m[..|m| - 1];
        assert forall k | 0 <= k < |shorter| :: shorter[k].0 < last.0 && shorter[k].1 < last.1;
        CellBounds(shorter, s, t, i - 1, j - 1, tolerance);
      } else if last.0 < i - 1 {
        assert forall k | 0 <= k < |m| :: m[k].0 <= last.0;
        CellBounds(m, s, t, i - 1, j, tolerance);
      } else {
        assert forall k | 0 <= k < |m| :: m[k].1 <= last.1;
        CellBounds(m, s, t, i, j - 1, tolerance);
      }
    }
  }

  lemma CellIsMaximum(s: seq<Pulse>, t: seq<Pulse>, tolerance: nat)
    ensures IsMaximum(Cell(s, t, |s|, |t|, tolerance), s, t, tolerance)
  {
    var m := CellAchieved(s, t, |s|, |t|, tolerance);
    forall m | Matching(m, s, t, |s|, |t|, tolerance)
      ensures |m| <= Cell(s, t, |s|, |t|, tolerance)
    {
      CellBounds(m, s, t, |s|, |t|, tolerance);
    }
  }

  /** Widening the tolerance never loses aligned pulses. */
  lemma WiderToleranceNeverFalls(r: nat, wide: nat, s: seq<Pulse>, t: seq<Pulse>, tolerance: nat, wider: nat)
    requires tolerance <= wider
    requires IsMaximum(r, s, t, tolerance) && IsMaximum(wide, s, t, wider)
    ensures r <= wide
  {
    var m :| Matching(m, s, t, |s|, |t|, tolerance) && |m| == r;
    assert Matching(m, s, t, |s|, |t|, wider);
  }

  function Swapped(m: seq<(nat, nat)>): seq<(nat, nat)> {
    seq(|m|, k requires 0 <= k < |m| => (m[k].1, m[k].0))
  }

  /** The score does not depend on which capture is called the source. */
  lemma AlignmentIsSymmetric(r: nat, s: seq<Pulse>, t: seq<Pulse>, tolerance: nat)
    requires IsMaximum(r, s, t, tolerance)
    ensures IsMaximum(r, t, s, tolerance)
  {
    var m :| Matching(m, s, t, |s|, |t|, tolerance) && |m| == r;
    assert Matching(Swapped(m), t, s, |t|, |s|, tolerance);
    forall n | Matching(n, t, s, |t|, |s|, tolerance)
      ensures |n| <= r
    {
      assert Matching(Swapped(n), s, t, |s|, |t|, tolerance);
    }
  }

  // ----- the rolling rows -----

  ghost predicate RowDone(row: seq<uint16>, s: seq<Pulse>, t: seq<Pulse>, i: nat, upTo: nat, tolerance: nat)
    requires i <= |s| && upTo <= |t| < |row|
  {
    forall j | 0 <= j <= upTo :: row[j] as int == Cell(s, t, i, j, tolerance)
  }

  method AlignedPulses(s: seq<Pulse>, t: seq<Pulse>, rowA: array<uint16>, rowB: array<uint16>, tolerance: nat)
    returns (aligned: uint16)
    requires |s| <= MAX_COMPARED && |t| <= MAX_COMPARED
    requires rowA != rowB && rowA.Length == rowB.Length == |t| + 1
    modifies rowA, rowB
    ensures IsMaximum(aligned as nat, s, t, tolerance)
    ensures aligned as nat <= |s| && aligned as nat <= |t|
  {
    var previous, current := rowA, rowB;
    for index := 0 to |t| + 1
      invariant forall j | 0 <= j < index :: previous[j] == 0
    {
      previous[index] := 0;
    }
    for source := 0 to |s|
      invariant {previous, current} == {rowA, rowB} && previous != current
      invariant RowDone(previous[..], s, t, source, |t|, tolerance)
    {
      current[0] := 0;
      for target := 0 to |t|
        invariant RowDone(previous[..], s, t, source, |t|, tolerance)
        invariant RowDone(current[..], s, t, source + 1, target, tolerance)
      {
        ghost var before := current[..];
        if Matches(s[source], t[target], tolerance) {
          current[target + 1] := previous[target] + 1;
        } else {
          current[target + 1] := if previous[target + 1] > current[target] then previous[target + 1] else current[target];
        }
        assert forall j | 0 <= j <= target :: current[..][j] == before[j];
      }
      previous, current := current, previous;
    }
    CellIsMaximum(s, t, tolerance);
    aligned := previous[|t|];
  }

  // ----- the verdict -----

  function TotalUs(s: seq<Pulse>): nat {
    if s == [] then 0 else TotalUs(s[..|s| - 1]) + s[|s| - 1].us
  }

  /** Difference of the totals in per cent of the source, unbounded. */
  function Percent(sourceUs: nat, receivedUs: nat): nat {
    if sourceUs == 0 then 0 else Gap(sourceUs, receivedUs) * 100 / sourceUs
  }

  /** The percentage as the code computes it: the quotient is cut to 32 bits. */
  function DeltaPct(sourceUs: nat, receivedUs: nat): nat {
    Percent(sourceUs, receivedUs) % UINT32
  }

  /** The received total is more than 89 and less than 111 per cent of the source's. */
  predicate DurationsAgree(sourceUs: nat, receivedUs: nat) {
    sourceUs == 0 || (89 * sourceUs < 100 * receivedUs < 111 * sourceUs)
  }

  lemma Divided(x: nat, d: nat)
    requires d > 0
    ensures d * (x / d) <= x < d * (x / d) + d
  {
  }

  lemma Multiplied(d: nat, q: nat)
    requires d > 0
    ensures q <= d * q && (q <= 10 ==> d * q <= 10 * d) && (q >= 11 ==> d * q >= 11 * d)
  {
    if q >= 11 {
      assert d * q == d * (q - 11) + d * 11;
    } else if q <= 10 {
      assert d * q == d * 10 - d * (10 - q);
    }
  }

  lemma QuotientAtMost(x: nat, d: nat)
    requires d > 0
    ensures x / d <= x && (x / d <= 10 <==> x < 11 * d)
  {
    Divided(x, d);
    Multiplied(d, x / d);
  }

  lemma PercentIsExact(sourceUs: nat, receivedUs: nat)
    ensures Percent(sourceUs, receivedUs) <= 10 <==> DurationsAgree(sourceUs, receivedUs)
    ensures Percent(sourceUs, receivedUs) <= 100 * Gap(sourceUs, receivedUs)
  {
    if sourceUs > 0 {
      QuotientAtMost(Gap(sourceUs, receivedUs) * 100, sourceUs);
    }
  }

  /** Nine tenths of the pulses on each side can be aligned within 250 us. */
  ghost predicate MostlyAligned(s: seq<Pulse>, t: seq<Pulse>) {
    exists m :: Matching(m, s, t, |s|, |t|, 250) && |m| * 10 >= |s| * 9 && |m| * 10 >= |t| * 9
  }

  /** The three-part test of the code. */
  ghost predicate VerdictOn(s: seq<Pulse>, t: seq<Pulse>) {
    MostlyAligned(s, t) && DeltaPct(TotalUs(s), TotalUs(t)) <= 10
  }

  datatype Verdict = Refused | CaptureFailed | TooLong | Compared(matched: bool, aligned250: nat, aligned500: nat)

  datatype Capture = NoCapture | Received(pulses: seq<Pulse>)

  method Total(s: seq<Pulse>) returns (us: nat)
    ensures us == TotalUs(s)
  {
    us := 0;
    for index := 0 to |s|
      invariant us == TotalUs(s[..index])
    {
      assert s[..index + 1][..index] == s[..index];
      us := us + s[index].us;
    }
    assert s[..|s|] == s;
  }

  method VerifyLast(last: seq<Pulse>, argumentCount: nat, capture: Capture) returns (v: Verdict)
    ensures v.Refused? <==> argumentCount != 0 || last == []
    ensures v.CaptureFailed? <==> argumentCount == 0 && last != [] && capture.NoCapture?
    ensures v.TooLong? <==> argumentCount == 0 && last != [] && capture.Received? &&
                            (|last| > MAX_COMPARED || |capture.pulses| > MAX_COMPARED)
    ensures v.Compared? ==>
              && IsMaximum(v.aligned250, last, capture.pulses, 250)
              && IsMaximum(v.aligned500, last, capture.pulses, 500)
              && v.aligned250 <= v.aligned500
              && (v.matched <==> VerdictOn(last, capture.pulses))
              && (Recordable(last) && Recordable(capture.pulses) ==> (v.matched <==> TrulyMatched(last, capture.pulses)))
  {
    if argumentCount != 0 || last == [] {
      return Refused;
    }
    if capture.NoCapture? {
      return CaptureFailed;
    }
    var observed := capture.pulses;
    if |last| > MAX_COMPARED || |observed| > MAX_COMPARED {
      return TooLong;
    }
    var rowA, rowB := new uint16[|observed| + 1], new uint16[|observed| + 1];
    var a250 := AlignedPulses(last, observed, rowA, rowB, 250);
    var a500 := AlignedPulses(last, observed, rowA, rowB, 500);
    WiderToleranceNeverFalls(a250 as nat, a500 as nat, last, observed, 250, 500);
    var sourceUs := Total(last);
    var receivedUs := Total(observed);
    var aligned := a250 as nat;
    if Recordable(last) && Recordable(observed) {
      VerdictIsSound(last, observed);
    }
    v := Compared(aligned * 10 >= |last| * 9 && aligned * 10 >= |observed| * 9 && DeltaPct(sourceUs, receivedUs) <= 10,
                  aligned, a500 as nat);
  }

  /** What the verdict is meant to say about two captures. */
  ghost predicate TrulyMatched(s: seq<Pulse>, t: seq<Pulse>) {
    MostlyAligned(s, t) && DurationsAgree(TotalUs(s), TotalUs(t))
  }

  /** Pulses as the receiver records them: its idle limit is 15 ms. */
  ghost predicate Recordable(s: seq<Pulse>) {
    forall k | 0 <= k < |s| :: 1 <= s[k].us < IDLE_US
  }

  /** For captures the receiver can record and the comparison accepts, the verdict means
      exactly that: the percentage then fits 32 bits. */
  lemma VerdictIsSound(s: seq<Pulse>, t: seq<Pulse>)
    requires Recordable(s) && Recordable(t) && |s| <= MAX_COMPARED && |t| <= MAX_COMPARED
    ensures VerdictOn(s, t) <==> TrulyMatched(s, t)
  {
    TotalBounds(s);
    TotalBounds(t);
    PercentFits(TotalUs(s), TotalUs(t));
  }

  lemma PercentFits(sourceUs: nat, receivedUs: nat)
    requires sourceUs <= MAX_COMPARED * IDLE_US && receivedUs <= MAX_COMPARED * IDLE_US
    ensures DeltaPct(sourceUs, receivedUs) <= 10 <==> DurationsAgree(sourceUs, receivedUs)
  {
    PercentIsExact(sourceUs, receivedUs);
  }

  lemma {:induction false} TotalBounds(s: seq<Pulse>)
    requires Recordable(s)
    ensures |s| <= TotalUs(s) <= |s| * IDLE_US
  {
    if s != [] {
      TotalBounds(s[..|s| - 1]);
    }
  }

}
