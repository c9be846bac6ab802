/** The instruction set, opcode by opcode, as what one step does to the machine when certain
    bytes stand at the program counter. Nothing here mentions decoding or decoded instructions. */
module VmManual {
  import opened Deadline
  import opened VmSpec

  /** The step only stops the machine, with this fault and the counter here. */
  predicate Faults(s: State, t: State, fault: Fault, pc: nat) {
    t == s.(pc := pc, mode := FAULT, fault := fault)
  }

  predicate OpcodeAt(p: seq<byte>, s: State, opcode: byte) {
    InBounds(s, |p|) && s.pc < |p| && p[s.pc] == opcode
  }

  /** A little-endian 16-bit number. */
  function U16(p: seq<byte>, at: nat): nat
    requires at + 2 <= |p|
  {
    var low: nat, high: nat := p[at], p[at + 1];
    256 * high + low
  }

  /** A little-endian 32-bit number in two's complement. */
  function S32(p: seq<byte>, at: nat): int
    requires at + 4 <= |p|
  {
    var b0: nat, b1: nat, b2: nat, b3: nat := p[at], p[at + 1], p[at + 2], p[at + 3];
    0x100_0000 * (if b3 < 128 then b3 else b3 - 256) + 0x1_0000 * b2 + 0x100 * b1 + b0
  }

  predicate FitsWord(v: int) { -0x8000_0000 <= v < 0x8000_0000 }

  lemma S32IsRead(p: seq<byte>, at: nat)
    requires at + 4 <= |p|
    ensures FitsWord(S32(p, at)) && Word32(p[at], p[at + 1], p[at + 2], p[at + 3]) == S32(p, at)
  {
  }

  lemma EndOfProgram(p: seq<byte>, s: State, w: World)
    requires InBounds(s, |p|) && s.pc == |p|
    ensures Faults(s, ByteStep(p, s, w), Truncated, s.pc)
  {
  }

  lemma Unknown(p: seq<byte>, s: State, w: World)
    requires InBounds(s, |p|) && s.pc < |p|
    requires var o := p[s.pc]; 7 <= o < 0x10 || 0x15 <= o < 0x20 || 0x23 <= o < 0x30 || 0x32 <= o
    ensures Faults(s, ByteStep(p, s, w), UnknownOpcode(p[s.pc]), s.pc + 1)
  {
  }

  /** `00`. */
  lemma HaltStops(p: seq<byte>, s: State, w: World)
    requires OpcodeAt(p, s, 0x00)
    ensures ByteStep(p, s, w) == s.(pc := s.pc + 1, mode := HALTED)
  {
  }

  /** `01 d v0 v1 v2 v3`: register d takes the signed little-endian number. */
  lemma LoadImmediate(p: seq<byte>, s: State, w: World)
    requires OpcodeAt(p, s, 0x01)
    ensures var t := ByteStep(p, s, w);
            if s.pc + 6 > |p| then Faults(s, t, Truncated, s.pc + 1)
            else if p[s.pc + 1] >= 8 then Faults(s, t, InvalidRegister, s.pc + 6)
            else FitsWord(S32(p, s.pc + 2)) && t == s.(pc := s.pc + 6, regs := s.regs[p[s.pc + 1] := S32(p, s.pc + 2)])
  {
    if s.pc + 6 <= |p| {
      S32IsRead(p, s.pc + 2);
    }
  }

  /** `02 d s`: register d takes register s. */
  lemma MoveCopies(p: seq<byte>, s: State, w: World)
    requires OpcodeAt(p, s, 0x02)
    ensures var t := ByteStep(p, s, w);
            if s.pc + 3 > |p| then Faults(s, t, Truncated, s.pc + 1)
            else
              var d, r := p[s.pc + 1], p[s.pc + 2];
              if d >= 8 || r >= 8 then Faults(s, t, InvalidRegister, s.pc + 3)
              else t == s.(pc := s.pc + 3, regs := s.regs[d := s.regs[r]])
  {
  }

  /** `03 d a b` to `06 d a b`: register d takes a + b, a - b, a * b or a / b. */
  lemma ArithmeticComputes(p: seq<byte>, s: State, w: World, op: ArithOp)
    requires OpcodeAt(p, s, 0x03) || OpcodeAt(p, s, 0x04) || OpcodeAt(p, s, 0x05) || OpcodeAt(p, s, 0x06)
    requires op == match p[s.pc] case 3 => Add case 4 => Sub case 5 => Mul case _ => Div
    ensures var t := ByteStep(p, s, w);
            if s.pc + 4 > |p| then Faults(s, t, Truncated, s.pc + 1)
            else
              var d, a, b := p[s.pc + 1], p[s.pc + 2], p[s.pc + 3];
              if d >= 8 || a >= 8 || b >= 8 then Faults(s, t, InvalidRegister, s.pc + 4)
              else if op == Div && s.regs[b] == 0 then Faults(s, t, DivisionByZero, s.pc + 4)
              else t == s.(pc := s.pc + 4, regs := s.regs[d := Compute(op, s.regs[a], s.regs[b])])
  {
  }

  /** `10 t0 t1`: the counter takes the target, which must lie inside the program. */
  lemma JumpGoes(p: seq<byte>, s: State, w: World)
    requires OpcodeAt(p, s, 0x10)
    ensures var t := ByteStep(p, s, w);
            if s.pc + 3 > |p| then Faults(s, t, Truncated, s.pc + 1)
            else if U16(p, s.pc + 1) >= |p| then Faults(s, t, JumpOutside, s.pc + 3)
            else t == s.(pc := U16(p, s.pc + 1))
  {
  }

  /** `11 r t0 t1` jumps when register r is zero, `12 r t0 t1` when it is not; a target outside
      the program is no fault unless the jump is taken. */
  lemma BranchChooses(p: seq<byte>, s: State, w: World)
    requires OpcodeAt(p, s, 0x11) || OpcodeAt(p, s, 0x12)
    ensures var t := ByteStep(p, s, w);
            if s.pc + 4 > |p| then Faults(s, t, Truncated, s.pc + 1)
            else if p[s.pc + 1] >= 8 then Faults(s, t, InvalidRegister, s.pc + 4)
            else
              var value, target := s.regs[p[s.pc + 1]], U16(p, s.pc + 2);
              if (p[s.pc] == 0x11 && value != 0) || (p[s.pc] == 0x12 && value == 0) then t == s.(pc := s.pc + 4)
              else if target >= |p| then Faults(s, t, JumpOutside, s.pc + 4)
              else t == s.(pc := target)
  {
  }

  /** `13 t0 t1`: the counter behind the instruction goes on the stack, which holds eight. */
  lemma CallEnters(p: seq<byte>, s: State, w: World)
    requires OpcodeAt(p, s, 0x13)
    ensures var t := ByteStep(p, s, w);
            if s.pc + 3 > |p| then Faults(s, t, Truncated, s.pc + 1)
            else if U16(p, s.pc + 1) >= |p| || |s.stack| == 8 then Faults(s, t, InvalidCall, s.pc + 3)
            else t == s.(pc := U16(p, s.pc + 1), stack := s.stack + [s.pc + 3])
  {
  }

  /** `14`: the counter takes what was put on the stack last. */
  lemma ReturnLeaves(p: seq<byte>, s: State, w: World, callers: seq<nat>, back: nat)
    requires OpcodeAt(p, s, 0x14) && (s.stack != [] ==> s.stack == callers + [back])
    ensures var t := ByteStep(p, s, w);
            if s.stack == [] then Faults(s, t, ReturnEmpty, s.pc + 1)
            else t == s.(pc := back, stack := callers)
  {
    if s.stack != [] {
      assert s.stack[..|s.stack| - 1] == callers;
    }
  }

  /** `21 m0 m1`: the machine waits until so many milliseconds after the clock's next reading. */
  lemma WaitSleeps(p: seq<byte>, s: State, w: World)
    requires OpcodeAt(p, s, 0x21)
    ensures var t := ByteStep(p, s, w);
            if s.pc + 3 > |p| then Faults(s, t, Truncated, s.pc + 1)
            else t == s.(pc := s.pc + 3, mode := WAITING, samples := s.samples + 1,
                         wakeAt := (w.clock(s.samples) + U16(p, s.pc + 1)) % UINT32)
  {
  }

  /** `30 d a`: register d takes the byte at address a. */
  lemma LoadReads(p: seq<byte>, s: State, w: World)
    requires OpcodeAt(p, s, 0x30)
    ensures var t := ByteStep(p, s, w);
            if s.pc + 3 > |p| then Faults(s, t, Truncated, s.pc + 1)
            else if p[s.pc + 1] >= 8 then Faults(s, t, InvalidRegister, s.pc + 3)
            else t == s.(pc := s.pc + 3, regs := s.regs[p[s.pc + 1] := s.memory[p[s.pc + 2]]])
  {
  }

  /** `31 a s`: the byte at address a takes the low byte of register s. */
  lemma StoreWrites(p: seq<byte>, s: State, w: World, low: byte)
    requires OpcodeAt(p, s, 0x31)
    requires s.pc + 3 <= |p| && p[s.pc + 2] < 8 ==> exists k: int :: s.regs[p[s.pc + 2]] == 256 * k + low
    ensures var t := ByteStep(p, s, w);
            if s.pc + 3 > |p| then Faults(s, t, Truncated, s.pc + 1)
            else if p[s.pc + 2] >= 8 then Faults(s, t, InvalidRegister, s.pc + 3)
            else t == s.(pc := s.pc + 3, memory := s.memory[p[s.pc + 1] := low])
  {
    if s.pc + 3 <= |p| && p[s.pc + 2] < 8 {
      var k: int :| s.regs[p[s.pc + 2]] == 256 * k + low;
    }
  }

  // ----- system calls: `20 d i0 i1 n r1 ... rn` and `22 d i0 i1 n r1 ... rn m c1 ... cm` -----

  /** What the reply to a call does, with the counter behind the instruction. */
  predicate Replies(s: State, t: State, next: nat, d: byte, call: Call, reply: Reply)
    requires Shaped(s)
  {
    match reply
    case Unknown => Faults(s, t, UnknownSyscall, next)
    case Failed => Faults(s.(calls := s.calls + [call]), t, SyscallFailed(call.id), next)
    case Value(v) => d < 8 && t == s.(pc := next, calls := s.calls + [call], regs := s.regs[d := v])
  }

  /** The header is read first: too short, no such register, more than eight arguments, or not
      enough bytes for them. */
  lemma SyscallHeader(p: seq<byte>, s: State, w: World)
    requires OpcodeAt(p, s, 0x20) || OpcodeAt(p, s, 0x22)
    ensures var t := ByteStep(p, s, w);
            && (s.pc + 5 > |p| ==> Faults(s, t, Truncated, s.pc + 1))
            && (s.pc + 5 <= |p| && p[s.pc + 1] >= 8 ==> Faults(s, t, InvalidRegister, s.pc + 5))
            && (s.pc + 5 <= |p| && p[s.pc + 1] < 8 && p[s.pc + 4] > 8 ==> Faults(s, t, TooManyArguments, s.pc + 5))
            && (s.pc + 5 <= |p| && p[s.pc + 1] < 8 && p[s.pc + 4] <= 8 && s.pc + 5 + p[s.pc + 4] > |p| ==>
                  Faults(s, t, Truncated, s.pc + 5))
  {
  }

  predicate HeaderStands(p: seq<byte>, s: State) {
    s.pc + 5 <= |p| && p[s.pc + 1] < 8 && p[s.pc + 4] <= 8 && s.pc + 5 + p[s.pc + 4] <= |p|
  }

  /** An argument that names no register stops the reading behind it. */
  lemma SyscallArgument(p: seq<byte>, s: State, w: World, bad: nat)
    requires (OpcodeAt(p, s, 0x20) || OpcodeAt(p, s, 0x22)) && HeaderStands(p, s)
    requires s.pc + 5 <= bad < s.pc + 5 + p[s.pc + 4] && p[bad] >= 8 && forall j | s.pc + 5 <= j < bad :: p[j] < 8
    ensures Faults(s, ByteStep(p, s, w), InvalidRegister, bad + 1)
  {
  }

  /** The numbers are the contents of the registers that the argument bytes name, in order. */
  predicate Passes(p: seq<byte>, s: State, args: seq<byte>, numbers: seq<int32>)
    requires InBounds(s, |p|) && HeaderStands(p, s)
  {
    && args == p[s.pc + 5..s.pc + 5 + p[s.pc + 4]] && |numbers| == |args|
    && forall k | 0 <= k < |args| :: args[k] < 8 && numbers[k] == s.regs[args[k]]
  }

  lemma ArgumentsAreRead(p: seq<byte>, s: State, args: seq<byte>, numbers: seq<int32>)
    requires InBounds(s, |p|) && HeaderStands(p, s) && Passes(p, s, args, numbers)
    ensures FirstInvalid(p, s.pc + 5, s.pc + 5 + p[s.pc + 4]) == s.pc + 5 + p[s.pc + 4]
    ensures (forall k | 0 <= k < |args| :: ValidRegister(args[k])) && Operands(s.regs, args) == numbers
  {
    var start, end := s.pc + 5, s.pc + 5 + p[s.pc + 4];
    forall j | start <= j < end ensures p[j] < 8 {
      assert p[j] == args[j - start];
    }
  }

  /** `20`: a call with numbers. */
  lemma SyscallCalls(p: seq<byte>, s: State, w: World, args: seq<byte>, numbers: seq<int32>)
    requires OpcodeAt(p, s, 0x20) && HeaderStands(p, s) && Passes(p, s, args, numbers)
    ensures var call := Call(U16(p, s.pc + 2), numbers, NoText);
            Replies(s, ByteStep(p, s, w), s.pc + 5 + p[s.pc + 4], p[s.pc + 1], call, w.reply(s.calls, call))
  {
    ArgumentsAreRead(p, s, args, numbers);
  }

  /** `22`: a call with numbers and the text behind them. */
  lemma SyscallCallsWithText(p: seq<byte>, s: State, w: World, args: seq<byte>, numbers: seq<int32>)
    requires OpcodeAt(p, s, 0x22) && HeaderStands(p, s) && Passes(p, s, args, numbers)
    ensures var t, at := ByteStep(p, s, w), s.pc + 5 + p[s.pc + 4];
            if at == |p| then Faults(s, t, Truncated, at)
            else if at + 1 + p[at] > |p| then Faults(s, t, Truncated, at + 1)
            else
              var call := Call(U16(p, s.pc + 2), numbers, Ascii(p[at + 1..at + 1 + p[at]]));
              Replies(s, t, at + 1 + p[at], p[s.pc + 1], call, w.reply(s.calls, call))
  {
    ArgumentsAreRead(p, s, args, numbers);
  }
}
