/** Laws of VM programs that do not mention how an instruction is carried out: 32-bit
    arithmetic, memory, and subroutines over whole runs. */
module VmLaws {
  import opened VmSpec

  // ----- arithmetic -----

  const WORD: int := 0x1_0000_0000

  function Exact(op: ArithOp, a: int, b: int): int
    requires op != Div
  {
    match op
    case Add => a + b
    case Sub => a - b
    case Mul => a * b
  }

  ghost predicate Congruent(v: int, x: int) { exists k: int :: v == x + WORD * k }

  /** A sum, difference or product is the one 32-bit number congruent to the exact result. */
  lemma ArithmeticIsModular(op: ArithOp, a: int32, b: int32, v: int32)
    requires op != Div
    ensures Congruent(v, Exact(op, a, b)) <==> v == Compute(op, a, b)
  {
    var x := Exact(op, a, b);
    var k := -((x + 0x8000_0000) / WORD);
    assert Wrap(x) == x + WORD * k;
    if Congruent(v, x) {
      var j :| v == x + WORD * j;
      ModularIsUnique(x, v, Wrap(x), j, k);
    }
  }

  lemma ModularIsUnique(x: int, u: int32, v: int32, j: int, k: int)
    requires u == x + WORD * j && v == x + WORD * k
    ensures u == v
  {
  }

  lemma Divided(n: nat, d: nat)
    requires d > 0
    ensures d * (n / d) <= n < d * (n / d) + d
  {
  }

  lemma RemainderIsSmall(a: int, b: int)
    requires b != 0
    ensures var r := a - b * Quotient(a, b);
            Abs(r) < Abs(b) && (r == 0 || (r < 0) == (a < 0))
  {
    var d, q := Abs(b), Abs(a) / Abs(b);
    Divided(Abs(a), d);
    assert b * Quotient(a, b) == if a >= 0 then d * q else -(d * q);
  }

  lemma QuotientIsRepresented(a: int32, b: int32)
    requires b != 0 && !(a == -0x8000_0000 && b == -1)
    ensures Wrap(Quotient(a, b)) == Quotient(a, b)
  {
    var q := Abs(a) / Abs(b);
    assert Quotient(a, b) == q || Quotient(a, b) == -q;
    if Abs(b) >= 2 {
      WrapIsExact(q);
      WrapIsExact(-q);
    } else {
      assert Quotient(a, b) == if b == 1 then a else -a;
      WrapIsExact(Quotient(a, b));
    }
  }

  lemma WrapIsExact(x: int)
    requires -0x8000_0000 <= x < 0x8000_0000
    ensures Wrap(x) == x
  {
  }

  /** A quotient leaves a remainder smaller than the divisor, with the sign of the dividend;
      only the smallest number divided by -1 does not fit and comes back unchanged. */
  lemma DivisionTruncates(a: int32, b: int32)
    requires b != 0
    ensures if a == -0x8000_0000 && b == -1 then Compute(Div, a, b) == a
            else var r := a - b * Compute(Div, a, b);
                 Abs(r) < Abs(b) && (r == 0 || (r < 0) == (a < 0))
  {
    if !(a == -0x8000_0000 && b == -1) {
      QuotientIsRepresented(a, b);
      RemainderIsSmall(a, b);
    }
  }

  // ----- memory -----

  /** A stored register is read back as its low byte, from that address alone. */
  lemma LoadAfterStore(s: State, address: byte, r: byte, other: byte, d: byte, limit: nat, w: World)
    requires Shaped(s) && ValidRegister(r) && ValidRegister(d)
    ensures var stored := Execute(StoreByte(address, r), s, limit, w);
            Execute(LoadByte(d, other), stored, limit, w).regs[d] ==
              if other == address then s.regs[r] % 256 else Execute(LoadByte(d, other), s, limit, w).regs[d]
  {
  }

  // ----- subroutines -----

  /** No state of the run has fewer than `n` frames. */
  ghost predicate StaysAbove(p: seq<byte>, s: State, budget: nat, n: nat, w: World)
    requires InBounds(s, |p|)
  {
    forall k: nat | k <= budget :: |RunBudget(p, s, k, w).stack| >= n
  }

  /** A run is one shorter by one, and then one more step if it is still running. */
  lemma LastStep(p: seq<byte>, s: State, budget: nat, w: World)
    requires InBounds(s, |p|) && budget > 0
    ensures InBounds(RunBudget(p, s, budget - 1, w), |p|)
    ensures var before := RunBudget(p, s, budget - 1, w);
            RunBudget(p, s, budget, w) == if before.mode == RUNNING then ByteStep(p, before, w) else before
  {
    var one := 1;
    BudgetSplits(p, s, budget - 1, one, w);
    var before := RunBudget(p, s, budget - 1, w);
    if before.mode == RUNNING {
      RunUnfolds(p, before, one, w);
      RunStops(p, ByteStep(p, before, w), one - 1, w);
    } else {
      RunStops(p, before, one, w);
    }
  }

  /** One step reaches no further down than the top frame. */
  lemma StepKeepsFrames(p: seq<byte>, s: State, n: nat, w: World)
    requires InBounds(s, |p|) && n <= |s.stack| && n <= |ByteStep(p, s, w).stack|
    ensures ByteStep(p, s, w).stack[..n] == s.stack[..n]
  {
  }

  lemma {:induction false} RunKeepsFrames(p: seq<byte>, s: State, budget: nat, n: nat, w: World)
    requires InBounds(s, |p|) && StaysAbove(p, s, budget, n, w)
    ensures n <= |s.stack| && n <= |RunBudget(p, s, budget, w).stack|
    ensures RunBudget(p, s, budget, w).stack[..n] == s.stack[..n]
  {
    assert RunBudget(p, s, 0, w) == s;
    if budget > 0 {
      RunKeepsFrames(p, s, budget - 1, n, w);
      LastStep(p, s, budget, w);
      var before := RunBudget(p, s, budget - 1, w);
      if before.mode == RUNNING {
        StepKeepsFrames(p, before, n, w);
      }
    }
  }

  /** Ticks with these budgets, in order. */
  function Ticks(p: seq<byte>, s: State, budgets: seq<nat>, w: World): (r: State)
    requires InBounds(s, |p|)
    ensures InBounds(r, |p|)
  {
    if budgets == [] then s
    else
      var before := Ticks(p, s, budgets[..|budgets| - 1], w);
      RunInBounds(p, Wake(before, w), budgets[|budgets| - 1], w);
      Tick(p, before, budgets[|budgets| - 1], w)
  }

  /** No state in any of the ticks has fewer than `n` frames. */
  ghost predicate TicksStayAbove(p: seq<byte>, s: State, budgets: seq<nat>, n: nat, w: World)
    requires InBounds(s, |p|)
  {
    if budgets == [] then |s.stack| >= n
    else
      var front, last := budgets[..|budgets| - 1], budgets[|budgets| - 1];
      TicksStayAbove(p, s, front, n, w) && StaysAbove(p, Wake(Ticks(p, s, front, w), w), last, n, w)
  }

  lemma {:induction false} TicksKeepFrames(p: seq<byte>, s: State, budgets: seq<nat>, n: nat, w: World)
    requires InBounds(s, |p|) && TicksStayAbove(p, s, budgets, n, w)
    ensures n <= |s.stack| && n <= |Ticks(p, s, budgets, w).stack|
    ensures Ticks(p, s, budgets, w).stack[..n] == s.stack[..n]
  {
    if budgets != [] {
      var front, last := budgets[..|budgets| - 1], budgets[|budgets| - 1];
      TicksKeepFrames(p, s, front, n, w);
      RunKeepsFrames(p, Wake(Ticks(p, s, front, w), w), last, n, w);
    }
  }

  lemma CallEnters(p: seq<byte>, s: State, target: nat, next: nat, w: World)
    requires InBounds(s, |p|) && Decode(p, s.pc) == Good(Subroutine(target), next)
    requires target < |p| && |s.stack| < CALL_DEPTH
    ensures ByteStep(p, s, w) == s.(pc := target, stack := s.stack + [next]) && InBounds(ByteStep(p, s, w), |p|)
  {
    StepInBounds(p, s, w);
  }

  /** A call that is entered, and whose frame is the top one again when a return is reached,
      resumes behind the call with the callers' frames untouched, whatever ran in between and
      over however many ticks, waits and nested calls included. */
  lemma SubroutineResumes(p: seq<byte>, s: State, target: nat, next: nat, budgets: seq<nat>, w: World)
    requires InBounds(s, |p|) && Decode(p, s.pc) == Good(Subroutine(target), next)
    requires target < |p| && |s.stack| < CALL_DEPTH
    ensures var entered := ByteStep(p, s, w);
            && InBounds(entered, |p|)
            && var back := Ticks(p, entered, budgets, w);
               TicksStayAbove(p, entered, budgets, |s.stack| + 1, w) && |back.stack| == |s.stack| + 1 &&
               Decode(p, back.pc).Good? && Decode(p, back.pc).instr == Return ==>
                 ByteStep(p, back, w) == back.(pc := next, stack := s.stack)
  {
    CallEnters(p, s, target, next, w);
    var entered, n := ByteStep(p, s, w), |s.stack| + 1;
    var back := Ticks(p, entered, budgets, w);
    if TicksStayAbove(p, entered, budgets, n, w) && |back.stack| == n &&
       Decode(p, back.pc).Good? && Decode(p, back.pc).instr == Return
    {
      TicksKeepFrames(p, entered, budgets, n, w);
      assert back.stack == back.stack[..n] == entered.stack[..n] == s.stack + [next];
      assert back.stack[..|s.stack|] == s.stack;
    }
  }
}
