/** The byte machine refines the instruction machine: an assembled program, with labels
    resolved to byte offsets, runs step for step like the list of instructions it came from. */
module VmRefinement {
  import opened VmSpec

  // ----- encoding -----

  function Low16(v: nat): seq<byte>
    requires v < 0x1_0000
  {
    [v % 256, v / 256]
  }

  function Low32(v: int32): seq<byte> {
    var u := v % 0x1_0000_0000;
    [u % 256, u / 0x100 % 256, u / 0x1_0000 % 256, u / 0x100_0000]
  }

  /** The operands fit their fields. */
  predicate Encodable(i: Instr) {
    match i
    case Jump(target) => target < 0x1_0000
    case Branch(_, _, target) => target < 0x1_0000
    case Subroutine(target) => target < 0x1_0000
    case Wait(ms) => ms < 0x1_0000
    case Syscall(_, id, args, text) => id < 0x1_0000 && |args| < 256 && (text.Ascii? ==> |text.bytes| < 256)
    case _ => true
  }

  function Encode(i: Instr): (e: seq<byte>)
    requires Encodable(i)
    ensures |e| == Size(i)
  {
    match i
    case Halt => [0x00]
    case LoadImm(d, v) => [0x01, d] + Low32(v)
    case Move(d, s) => [0x02, d, s]
    case Arith(op, d, a, b) => [match op case Add => 0x03 case Sub => 0x04 case Mul => 0x05 case Div => 0x06, d, a, b]
    case Jump(target) => [0x10] + Low16(target)
    case Branch(onZero, r, target) => [if onZero then 0x11 else 0x12, r] + Low16(target)
    case Subroutine(target) => [0x13] + Low16(target)
    case Return => [0x14]
    case Syscall(d, id, args, text) =>
      [if text.NoText? then 0x20 else 0x22, d] + Low16(id) + [|args|] + args +
      (if text.NoText? then [] else [|text.bytes|] + text.bytes)
    case Wait(ms) => [0x21] + Low16(ms)
    case LoadByte(d, address) => [0x30, d, address]
    case StoreByte(address, s) => [0x31, address, s]
  }

  /** Size of an encoded instruction; it does not depend on the label. */
  function Size(i: Instr): (n: nat)
    ensures n >= 1
  {
    match i
    case Halt => 1
    case LoadImm(_, _) => 6
    case Move(_, _) => 3
    case Arith(_, _, _, _) => 4
    case Jump(_) => 3
    case Branch(_, _, _) => 4
    case Subroutine(_) => 3
    case Return => 1
    case Syscall(_, _, args, text) => 5 + |args| + (if text.NoText? then 0 else 1 + |text.bytes|)
    case Wait(_) => 3
    case LoadByte(_, _) => 3
    case StoreByte(_, _) => 3
  }

  lemma Word16RoundTrip(v: nat)
    requires v < 0x1_0000
    ensures Word16(Low16(v)[0], Low16(v)[1]) == v
  {
  }

  lemma Word32RoundTrip(v: int32)
    ensures var b := Low32(v); Word32(b[0], b[1], b[2], b[3]) == v
  {
    var u := v % 0x1_0000_0000;
    var a := u / 0x100;
    assert u / 0x1_0000 == a / 0x100 && u / 0x100_0000 == a / 0x1_0000;
    assert u % 256 + 0x100 * (a % 256) + 0x1_0000 * (a / 0x100 % 256) + 0x100_0000 * (a / 0x1_0000) == u;
    assert Wrap(u) == v;
  }

  ghost predicate Holds(p: seq<byte>, pc: nat, e: seq<byte>) {
    pc + |e| <= |p| && forall k | 0 <= k < |e| :: p[pc + k] == e[k]
  }

  // ----- system calls that no machine can make -----

  /** A system call that names no register where it must, or has too many arguments. */
  predicate Malformed(i: Instr) { !ArgumentsValid(i) }

  function FaultOf(i: Instr): Fault
    requires Malformed(i)
  {
    if ValidRegister(i.d) && |i.args| > REGISTER_COUNT then TooManyArguments else InvalidRegister
  }

  /** How many of its bytes are read before it faults. */
  function Reached(i: Instr): nat
    requires Malformed(i)
  {
    if !ValidRegister(i.d) || |i.args| > REGISTER_COUNT then 5 else 6 + FirstInvalid(i.args, 0, |i.args|)
  }

  lemma {:induction false} FirstInvalidMoves(p: seq<byte>, from: nat, end: nat, args: seq<byte>, k: nat)
    requires k <= |args| && from + |args| == end <= |p| && p[from..end] == args
    ensures FirstInvalid(p, from + k, end) == from + FirstInvalid(args, k, |args|)
    decreases |args| - k
  {
    if k < |args| {
      assert p[from + k] == p[from..end][k];
      FirstInvalidMoves(p, from, end, args, k + 1);
    }
  }

  /** Decoding one finds the fault where the reading stops. */
  lemma DecodeMalformed(p: seq<byte>, pc: nat, i: Instr)
    requires Malformed(i) && Encodable(i) && Holds(p, pc, Encode(i))
    ensures Decode(p, pc) == Bad(FaultOf(i), pc + Reached(i))
  {
    var e, n := Encode(i), |i.args|;
    assert p[pc] == e[0] && p[pc + 1] == e[1] && p[pc + 4] == e[4];
    if ValidRegister(i.d) && n <= REGISTER_COUNT {
      forall k | 0 <= k < n ensures p[pc + 5..pc + 5 + n][k] == i.args[k] {
        assert p[pc + (5 + k)] == e[5 + k];
      }
      FirstInvalidMoves(p, pc + 5, pc + 5 + n, i.args, 0);
    }
  }

  /** Wherever the bytes of a well-formed instruction stand, decoding there gives it back. */
  lemma DecodeEncoded(p: seq<byte>, pc: nat, i: Instr)
    requires Encodable(i) && ArgumentsValid(i) && Holds(p, pc, Encode(i))
    ensures Decode(p, pc) == Good(i, pc + Size(i))
  {
    var e := Encode(i);
    assert p[pc] == e[0];
    match i
    case LoadImm(d, v) =>
      Word32RoundTrip(v);
      assert p[pc + 1] == e[1] && p[pc + 2] == e[2] && p[pc + 3] == e[3] && p[pc + 4] == e[4] && p[pc + 5] == e[5];
    case Jump(target) =>
      Word16RoundTrip(target);
      assert p[pc + 1] == e[1] && p[pc + 2] == e[2];
    case Subroutine(target) =>
      Word16RoundTrip(target);
      assert p[pc + 1] == e[1] && p[pc + 2] == e[2];
    case Wait(ms) =>
      Word16RoundTrip(ms);
      assert p[pc + 1] == e[1] && p[pc + 2] == e[2];
    case Branch(_, r, target) =>
      Word16RoundTrip(target);
      assert p[pc + 1] == e[1] && p[pc + 2] == e[2] && p[pc + 3] == e[3];
    case Arith(_, _, _, _) => assert p[pc + 1] == e[1] && p[pc + 2] == e[2] && p[pc + 3] == e[3];
    case Move(_, _) => assert p[pc + 1] == e[1] && p[pc + 2] == e[2];
    case LoadByte(_, _) => assert p[pc + 1] == e[1] && p[pc + 2] == e[2];
    case StoreByte(_, _) => assert p[pc + 1] == e[1] && p[pc + 2] == e[2];
    case Syscall(_, _, _, _) => DecodeEncodedSyscall(p, pc, i);
    case Halt =>
    case Return =>
  }

  lemma DecodeEncodedSyscall(p: seq<byte>, pc: nat, i: Instr)
    requires i.Syscall? && Encodable(i) && ArgumentsValid(i) && Holds(p, pc, Encode(i))
    ensures Decode(p, pc) == Good(i, pc + Size(i))
  {
    var e, n := Encode(i), |i.args|;
    Word16RoundTrip(i.id);
    assert p[pc] == e[0] && p[pc + 1] == e[1] && p[pc + 2] == e[2] && p[pc + 3] == e[3] && p[pc + 4] == e[4];
    forall k | 0 <= k < n ensures p[pc + 5 + k] == i.args[k] {
      assert p[pc + (5 + k)] == e[5 + k];
    }
    assert p[pc + 5..pc + 5 + n] == i.args;
    forall j | pc + 5 <= j < pc + 5 + n ensures ValidRegister(p[j]) {
      assert p[j] == i.args[j - pc - 5];
    }
    assert FirstInvalid(p, pc + 5, pc + 5 + n) == pc + 5 + n;
    if i.text.Ascii? {
      var m := |i.text.bytes|;
      assert p[pc + (5 + n)] == e[5 + n] == m;
      forall k | 0 <= k < m ensures p[pc + 6 + n + k] == i.text.bytes[k] {
        assert p[pc + (6 + n + k)] == e[6 + n + k];
      }
      assert p[pc + 6 + n..pc + 6 + n + m] == i.text.bytes;
    }
  }

  // ----- assembling -----

  /** Byte offset of instruction `k`. */
  function Offset(ps: seq<Instr>, k: nat): nat
    requires k <= |ps|
  {
    if k == 0 then 0 else Offset(ps, k - 1) + Size(ps[k - 1])
  }

  predicate LabelInside(i: Instr, count: nat) {
    match i
    case Jump(target) => target <= count
    case Branch(_, _, target) => target <= count
    case Subroutine(target) => target <= count
    case _ => true
  }

  /** The instruction with its label turned into a byte offset. */
  function Resolve(ps: seq<Instr>, i: Instr): (r: Instr)
    requires LabelInside(i, |ps|)
    ensures Size(r) == Size(i)
  {
    match i
    case Jump(target) => Jump(Offset(ps, target))
    case Branch(onZero, r, target) => Branch(onZero, r, Offset(ps, target))
    case Subroutine(target) => Subroutine(Offset(ps, target))
    case _ => i
  }

  /** A program that fits the VM: labels name an instruction or the end, operands fit. */
  ghost predicate Assemblable(ps: seq<Instr>) {
    && Offset(ps, |ps|) <= PROGRAM_BYTES
    && forall k | 0 <= k < |ps| :: LabelInside(ps[k], |ps|) && Encodable(Resolve(ps, ps[k]))
  }

  function Assemble(ps: seq<Instr>, k: nat): (p: seq<byte>)
    requires Assemblable(ps) && k <= |ps|
    ensures |p| == Offset(ps, k)
  {
    if k == 0 then [] else Assemble(ps, k - 1) + Encode(Resolve(ps, ps[k - 1]))
  }

  lemma {:induction false} OffsetsIncrease(ps: seq<Instr>, i: nat, j: nat)
    requires i < j <= |ps|
    ensures Offset(ps, i) + Size(ps[i]) <= Offset(ps, j)
  {
    if i < j - 1 {
      OffsetsIncrease(ps, i, j - 1);
    }
  }

  lemma HoldsAtEnd(p: seq<byte>, e: seq<byte>)
    ensures Holds(p + e, |p|, e)
  {
  }

  lemma HoldsInPrefix(p: seq<byte>, q: seq<byte>, pc: nat, e: seq<byte>)
    requires Holds(p, pc, e)
    ensures Holds(p + q, pc, e)
  {
  }

  /** Each instruction stands at its offset in the assembled program. */
  lemma {:induction false} AssembledHolds(ps: seq<Instr>, i: nat, k: nat)
    requires Assemblable(ps) && i < k <= |ps|
    ensures Holds(Assemble(ps, k), Offset(ps, i), Encode(Resolve(ps, ps[i])))
    decreases k
  {
    var before, last := Assemble(ps, k - 1), Encode(Resolve(ps, ps[k - 1]));
    if i == k - 1 {
      HoldsAtEnd(before, last);
    } else {
      AssembledHolds(ps, i, k - 1);
      HoldsInPrefix(before, last, Offset(ps, i), Encode(Resolve(ps, ps[i])));
    }
  }

  // ----- the instruction machine -----

  function InstrStep(ps: seq<Instr>, s: State, w: World): State
    requires InBounds(s, |ps|)
  {
    if s.pc == |ps| then Faulted(s, Truncated)
    else
      var i, next := ps[s.pc], s.(pc := s.pc + 1);
      if Malformed(i) then Faulted(next, FaultOf(i)) else Execute(i, next, |ps|, w)
  }

  function InstrRun(ps: seq<Instr>, s: State, budget: nat, w: World): State
    requires InBounds(s, |ps|)
    decreases budget
  {
    if s.mode != RUNNING || budget == 0 then s
    else
      InstrRun(ps, InstrStep(ps, s, w), budget - 1, w)
  }

  // ----- refinement -----

  /** Stopped by the malformed system call before `pc`. */
  predicate StoppedInside(ps: seq<Instr>, s: State) {
    && s.mode == FAULT && 0 < s.pc <= |ps| && Malformed(ps[s.pc - 1]) && s.fault == FaultOf(ps[s.pc - 1])
  }

  /** Where the byte machine stands: at the boundary, except in the middle of a malformed
      system call that stopped it. */
  function BytePc(ps: seq<Instr>, s: State): nat
    requires s.pc <= |ps|
  {
    if StoppedInside(ps, s) then Offset(ps, s.pc - 1) + Reached(ps[s.pc - 1]) else Offset(ps, s.pc)
  }

  /** The byte machine state that stands for an instruction machine state. */
  function Located(ps: seq<Instr>, s: State): State
    requires InBounds(s, |ps|)
  {
    s.(pc := BytePc(ps, s), stack := OffsetsOf(ps, s.stack))
  }

  function OffsetsOf(ps: seq<Instr>, stack: seq<nat>): (r: seq<nat>)
    requires forall k | 0 <= k < |stack| :: stack[k] <= |ps|
    ensures |r| == |stack| && forall k | 0 <= k < |r| :: r[k] == Offset(ps, stack[k])
  {
    seq(|stack|, (k: nat) requires k < |stack| => Offset(ps, stack[k]))
  }

  lemma OffsetsPrefix(ps: seq<Instr>, stack: seq<nat>, n: nat)
    requires n <= |stack| && forall k | 0 <= k < |stack| :: stack[k] <= |ps|
    ensures OffsetsOf(ps, stack[..n]) == OffsetsOf(ps, stack)[..n]
  {
  }

  lemma OffsetInside(ps: seq<Instr>, k: nat)
    requires k <= |ps|
    ensures Offset(ps, k) <= Offset(ps, |ps|)
    ensures Offset(ps, k) < Offset(ps, |ps|) <==> k < |ps|
  {
    if k < |ps| {
      OffsetsIncrease(ps, k, |ps|);
    }
  }

  lemma LocatedInBounds(ps: seq<Instr>, s: State)
    requires InBounds(s, |ps|)
    ensures InBounds(Located(ps, s), Offset(ps, |ps|))
  {
    OffsetInside(ps, s.pc);
    forall k | 0 <= k < |s.stack| ensures OffsetsOf(ps, s.stack)[k] <= Offset(ps, |ps|) {
      OffsetInside(ps, s.stack[k]);
    }
  }

  predicate IsControl(i: Instr) {
    i.Jump? || i.Branch? || i.Subroutine? || i.Return?
  }

  /** All other instructions neither look at positions nor move. */
  lemma DataIsPositionFree(i: Instr, s: State, pc: nat, stack: seq<nat>, limit: nat, other: nat, w: World)
    requires Shaped(s) && |stack| <= CALL_DEPTH && ArgumentsValid(i) && !IsControl(i)
    ensures Execute(i, s.(pc := pc, stack := stack), other, w) == Execute(i, s, limit, w).(pc := pc, stack := stack)
    ensures Execute(i, s, limit, w).pc == s.pc && Execute(i, s, limit, w).stack == s.stack
  {
  }

  lemma GoToCommutes(ps: seq<Instr>, s: State, target: nat)
    requires InBounds(s, |ps|) && target <= |ps| && s.mode == RUNNING
    ensures InBounds(GoTo(s, target, |ps|), |ps|)
    ensures GoTo(Located(ps, s), Offset(ps, target), Offset(ps, |ps|)) == Located(ps, GoTo(s, target, |ps|))
  {
    OffsetInside(ps, target);
  }

  lemma CallCommutes(ps: seq<Instr>, s: State, target: nat, w: World)
    requires InBounds(s, |ps|) && target <= |ps| && s.mode == RUNNING
    ensures InBounds(Execute(Subroutine(target), s, |ps|, w), |ps|)
    ensures Execute(Subroutine(Offset(ps, target)), Located(ps, s), Offset(ps, |ps|), w) ==
              Located(ps, Execute(Subroutine(target), s, |ps|, w))
  {
    OffsetInside(ps, target);
    assert OffsetsOf(ps, s.stack + [s.pc]) == OffsetsOf(ps, s.stack) + [Offset(ps, s.pc)];
  }

  lemma ReturnCommutes(ps: seq<Instr>, s: State, w: World)
    requires InBounds(s, |ps|) && s.stack != [] && s.mode == RUNNING
    ensures InBounds(Execute(Return, s, |ps|, w), |ps|)
    ensures Execute(Return, Located(ps, s), Offset(ps, |ps|), w) == Located(ps, Execute(Return, s, |ps|, w))
  {
    var n := |s.stack| - 1;
    var popped := s.(pc := s.stack[n], stack := s.stack[..n]);
    OffsetsPrefix(ps, s.stack, n);
    assert Located(ps, popped) == s.(pc := Offset(ps, s.stack[n]), stack := OffsetsOf(ps, s.stack)[..n]);
  }

  lemma ExecuteCommutes(ps: seq<Instr>, i: Instr, s: State, w: World)
    requires InBounds(s, |ps|) && LabelInside(i, |ps|) && ArgumentsValid(i)
    requires s.mode == RUNNING && 0 < s.pc && ps[s.pc - 1] == i
    ensures InBounds(Execute(i, s, |ps|, w), |ps|)
    ensures Execute(Resolve(ps, i), Located(ps, s), Offset(ps, |ps|), w) == Located(ps, Execute(i, s, |ps|, w))
  {
    if i.Jump? || i.Branch? {
      GoToCommutes(ps, s, i.target);
    } else if i.Subroutine? {
      CallCommutes(ps, s, i.target, w);
    } else if i.Return? {
      if s.stack != [] {
        ReturnCommutes(ps, s, w);
      }
    } else {
      ExecuteKeeps(i, s, |ps|, w);
      DataIsPositionFree(i, s, Offset(ps, s.pc), OffsetsOf(ps, s.stack), |ps|, Offset(ps, |ps|), w);
    }
  }

  lemma StepOfDecoded(p: seq<byte>, s: State, i: Instr, next: nat, w: World)
    requires InBounds(s, |p|) && Decode(p, s.pc) == Good(i, next)
    ensures ByteStep(p, s, w) == Execute(i, s.(pc := next), |p|, w)
  {
  }

  /** One `executeOne` is one step of the instruction machine, at the matching boundary. */
  lemma StepRefines(ps: seq<Instr>, s: State, w: World)
    requires Assemblable(ps) && InBounds(s, |ps|) && s.mode == RUNNING
    ensures InBounds(Located(ps, s), |Assemble(ps, |ps|)|)
    ensures InBounds(InstrStep(ps, s, w), |ps|)
    ensures ByteStep(Assemble(ps, |ps|), Located(ps, s), w) == Located(ps, InstrStep(ps, s, w))
  {
    LocatedInBounds(ps, s);
    if s.pc < |ps| {
      if Malformed(ps[s.pc]) {
        StopsInside(ps, s, w);
      } else {
        InsideRefines(ps, s, w);
      }
    }
  }

  /** Decoding an assembled program at a boundary gives the instruction and the next boundary,
      or the fault of a malformed system call. */
  lemma DecodesAt(ps: seq<Instr>, k: nat)
    requires Assemblable(ps) && k < |ps|
    ensures Offset(ps, k) <= |Assemble(ps, |ps|)|
    ensures Decode(Assemble(ps, |ps|), Offset(ps, k)) ==
              if Malformed(ps[k]) then Bad(FaultOf(ps[k]), Offset(ps, k) + Reached(ps[k]))
              else Good(Resolve(ps, ps[k]), Offset(ps, k + 1))
  {
    OffsetInside(ps, k);
    AssembledHolds(ps, k, |ps|);
    if Malformed(ps[k]) {
      DecodeMalformed(Assemble(ps, |ps|), Offset(ps, k), ps[k]);
    } else {
      DecodeEncoded(Assemble(ps, |ps|), Offset(ps, k), Resolve(ps, ps[k]));
    }
  }

  lemma StopsInside(ps: seq<Instr>, s: State, w: World)
    requires Assemblable(ps) && InBounds(s, |ps|) && s.mode == RUNNING && s.pc < |ps| && Malformed(ps[s.pc])
    requires InBounds(Located(ps, s), |Assemble(ps, |ps|)|) && InBounds(InstrStep(ps, s, w), |ps|)
    ensures ByteStep(Assemble(ps, |ps|), Located(ps, s), w) == Located(ps, InstrStep(ps, s, w))
  {
    DecodesAt(ps, s.pc);
  }

  lemma InsideRefines(ps: seq<Instr>, s: State, w: World)
    requires Assemblable(ps) && InBounds(s, |ps|) && s.mode == RUNNING && s.pc < |ps| && !Malformed(ps[s.pc])
    requires InBounds(Located(ps, s), |Assemble(ps, |ps|)|)
    ensures var next := Execute(ps[s.pc], s.(pc := s.pc + 1), |ps|, w);
            InBounds(next, |ps|) && ByteStep(Assemble(ps, |ps|), Located(ps, s), w) == Located(ps, next)
  {
    var p, i, next := Assemble(ps, |ps|), ps[s.pc], s.(pc := s.pc + 1);
    DecodesAt(ps, s.pc);
    ExecuteCommutes(ps, i, next, w);
    StepOfDecoded(p, Located(ps, s), Resolve(ps, i), Offset(ps, s.pc + 1), w);
  }

  /** Main theorem: any number of steps, for every assembled program and every world. */
  lemma {:induction false} RunRefines(ps: seq<Instr>, s: State, budget: nat, w: World)
    requires Assemblable(ps) && InBounds(s, |ps|)
    ensures InBounds(Located(ps, s), |Assemble(ps, |ps|)|)
    ensures InBounds(InstrRun(ps, s, budget, w), |ps|)
    ensures RunBudget(Assemble(ps, |ps|), Located(ps, s), budget, w) == Located(ps, InstrRun(ps, s, budget, w))
    decreases budget
  {
    LocatedInBounds(ps, s);
    if s.mode == RUNNING && budget > 0 {
      StepRefines(ps, s, w);
      RunRefines(ps, InstrStep(ps, s, w), budget - 1, w);
    }
  }
}
