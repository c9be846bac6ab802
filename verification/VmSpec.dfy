/** The Noob VM, version 1: instructions, their little-endian encoding, and execution
    on a state that is the same for the byte machine and the instruction machine. */
module VmSpec {
  import opened Deadline

  type byte = x: nat | x < 256
  type int32 = x: int | -0x8000_0000 <= x < 0x8000_0000

  const PROGRAM_BYTES: nat := 1024
  const MEMORY_BYTES: nat := 256
  const REGISTER_COUNT: nat := 8
  const CALL_DEPTH: nat := 8

  function Wrap(x: int): int32 {
    (x + 0x8000_0000) % 0x1_0000_0000 - 0x8000_0000
  }

  /** Division truncates toward zero. */
  function Quotient(a: int, b: int): int
    requires b != 0
  {
    if (a >= 0) == (b > 0) then Abs(a) / Abs(b) else -(Abs(a) / Abs(b))
  }

  function Abs(x: int): nat { if x < 0 then -x else x }

  // ----- instructions -----

  datatype ArithOp = Add | Sub | Mul | Div

  datatype Text = NoText | Ascii(bytes: seq<byte>)

  datatype Instr =
    | Halt
    | LoadImm(d: byte, v: int32)
    | Move(d: byte, s: byte)
    | Arith(op: ArithOp, d: byte, a: byte, b: byte)
    | Jump(target: nat)
    | Branch(onZero: bool, r: byte, target: nat)
    | Subroutine(target: nat)
    | Return
    | Syscall(d: byte, id: nat, args: seq<byte>, text: Text)
    | Wait(ms: nat)
    | LoadByte(d: byte, address: byte)
    | StoreByte(address: byte, s: byte)

  // ----- machine state -----

  datatype Mode = EMPTY | READY | RUNNING | WAITING | HALTED | STOPPED | FAULT

  datatype Fault =
    | NoFault
    | Truncated
    | InvalidRegister
    | DivisionByZero
    | JumpOutside
    | InvalidCall
    | ReturnEmpty
    | TooManyArguments
    | UnknownSyscall
    | SyscallFailed(id: nat)
    | UnknownOpcode(opcode: byte)

  /** A native call as the registry sees it, and what the outside world answers: any
      function of the calls made so far, and any clock, sampled by read number. */
  datatype Call = Call(id: nat, numbers: seq<int32>, text: Text)
  datatype Reply = Unknown | Failed | Value(value: int32)
  datatype World = World(reply: (seq<Call>, Call) -> Reply, clock: nat -> nat)

  /** `pc` and `stack` count bytes in the byte machine, instructions in the other. */
  datatype State = State(
    pc: nat,
    regs: seq<int32>,
    memory: seq<byte>,
    stack: seq<nat>,
    mode: Mode,
    fault: Fault,
    wakeAt: nat,
    calls: seq<Call>,
    samples: nat)

  predicate Shaped(s: State) {
    |s.regs| == REGISTER_COUNT && |s.memory| == MEMORY_BYTES && |s.stack| <= CALL_DEPTH
  }

  /** Positions stay inside a program of `limit` units. */
  predicate InBounds(s: State, limit: nat) {
    Shaped(s) && s.pc <= limit && forall k | 0 <= k < |s.stack| :: s.stack[k] <= limit
  }

  function Faulted(s: State, fault: Fault): State {
    s.(mode := FAULT, fault := fault)
  }

  predicate ValidRegister(r: byte) { r < REGISTER_COUNT }

  function SetReg(s: State, d: byte, v: int32): State
    requires Shaped(s) && ValidRegister(d)
  {
    s.(regs := s.regs[d := v])
  }

  function Compute(op: ArithOp, a: int32, b: int32): int32
    requires op.Div? ==> b != 0
  {
    match op
    case Add => Wrap(a + b)
    case Sub => Wrap(a - b)
    case Mul => Wrap(a * b)
    case Div => Wrap(Quotient(a, b))
  }

  function Operands(regs: seq<int32>, args: seq<byte>): (numbers: seq<int32>)
    requires |regs| == REGISTER_COUNT && forall k | 0 <= k < |args| :: ValidRegister(args[k])
    ensures |numbers| == |args|
  {
    seq(|args|, (k: nat) requires k < |args| => assert ValidRegister(args[k]); regs[args[k]])
  }

  predicate ArgumentsValid(i: Instr) {
    i.Syscall? ==> ValidRegister(i.d) && |i.args| <= REGISTER_COUNT && forall k | 0 <= k < |i.args| :: ValidRegister(i.args[k])
  }

  /** Execute an instruction whose successor is `s.pc`, in a program of `limit` units. */
  function Execute(i: Instr, s: State, limit: nat, w: World): State
    requires Shaped(s) && ArgumentsValid(i)
  {
    match i
    case Halt => s.(mode := HALTED)
    case LoadImm(d, v) => if ValidRegister(d) then SetReg(s, d, v) else Faulted(s, InvalidRegister)
    case Move(d, r) => if ValidRegister(d) && ValidRegister(r) then SetReg(s, d, s.regs[r]) else Faulted(s, InvalidRegister)
    case Arith(op, d, a, b) =>
      if !ValidRegister(d) || !ValidRegister(a) || !ValidRegister(b) then Faulted(s, InvalidRegister)
      else if op.Div? && s.regs[b] == 0 then Faulted(s, DivisionByZero)
      else SetReg(s, d, Compute(op, s.regs[a], s.regs[b]))
    case Jump(target) => GoTo(s, target, limit)
    case Branch(onZero, r, target) =>
      if !ValidRegister(r) then Faulted(s, InvalidRegister)
      else if (s.regs[r] == 0) == onZero then GoTo(s, target, limit) else s
    case Subroutine(target) =>
      if target >= limit || |s.stack| >= CALL_DEPTH then Faulted(s, InvalidCall)
      else s.(stack := s.stack + [s.pc], pc := target)
    case Return =>
      if s.stack == [] then Faulted(s, ReturnEmpty)
      else s.(pc := s.stack[|s.stack| - 1], stack := s.stack[..|s.stack| - 1])
    case Syscall(d, id, args, text) =>
      var call := Call(id, Operands(s.regs, args), text);
      Answered(s, d, call, w.reply(s.calls, call))
    case Wait(ms) => s.(wakeAt := (w.clock(s.samples) + ms) % UINT32, samples := s.samples + 1, mode := WAITING)
    case LoadByte(d, address) => if ValidRegister(d) then SetReg(s, d, s.memory[address]) else Faulted(s, InvalidRegister)
    case StoreByte(address, r) =>
      if ValidRegister(r) then s.(memory := s.memory[address := s.regs[r] % 256]) else Faulted(s, InvalidRegister)
  }

  function GoTo(s: State, target: nat, limit: nat): State {
    if target >= limit then Faulted(s, JumpOutside) else s.(pc := target)
  }

  function Answered(s: State, d: byte, call: Call, reply: Reply): State
    requires Shaped(s) && ValidRegister(d)
  {
    match reply
    case Unknown => Faulted(s, UnknownSyscall)
    case Failed => Faulted(s.(calls := s.calls + [call]), SyscallFailed(call.id))
    case Value(v) => SetReg(s.(calls := s.calls + [call]), d, v)
  }

  // ----- the byte encoding -----

  function Word16(lo: byte, hi: byte): nat { lo + 256 * hi }

  function Word32(b0: byte, b1: byte, b2: byte, b3: byte): int32 {
    Wrap(b0 + 0x100 * b1 + 0x1_0000 * b2 + 0x100_0000 * b3)
  }

  /** Either an instruction and the position after it, or the fault met while reading
      and how far the reading got. */
  datatype Decoded = Good(instr: Instr, next: nat) | Bad(fault: Fault, next: nat)

  function Decode(p: seq<byte>, pc: nat): (r: Decoded)
    requires pc <= |p|
    ensures pc <= r.next <= |p|
    ensures r.Good? ==> pc < r.next && ArgumentsValid(r.instr)
  {
    if pc + 1 > |p| then Bad(Truncated, pc) else
    var opcode, q := p[pc], pc + 1;
    if opcode == 0x00 then Good(Halt, q)
    else if opcode in {0x01, 0x02} then DecodeMove(opcode, p, q)
    else if 0x03 <= opcode <= 0x06 then DecodeArith(opcode, p, q)
    else if opcode in {0x10, 0x11, 0x12} then DecodeJump(opcode, p, q)
    else if opcode in {0x13, 0x14} then DecodeCall(opcode, p, q)
    else if opcode in {0x20, 0x22} then DecodeSyscall(opcode, p, q)
    else if opcode in {0x21, 0x30, 0x31} then DecodeMemory(opcode, p, q)
    else Bad(UnknownOpcode(opcode), q)
  }

  function DecodeMove(opcode: byte, p: seq<byte>, q: nat): (r: Decoded)
    requires q <= |p|
    ensures q <= r.next <= |p| && (r.Good? ==> !r.instr.Syscall?)
  {
    if opcode == 0x01 then
      if q + 5 > |p| then Bad(Truncated, q) else Good(LoadImm(p[q], Word32(p[q + 1], p[q + 2], p[q + 3], p[q + 4])), q + 5)
    else
      if q + 2 > |p| then Bad(Truncated, q) else Good(Move(p[q], p[q + 1]), q + 2)
  }

  function OpOf(opcode: byte): ArithOp {
    if opcode == 0x03 then Add else if opcode == 0x04 then Sub else if opcode == 0x05 then Mul else Div
  }

  function DecodeArith(opcode: byte, p: seq<byte>, q: nat): (r: Decoded)
    requires q <= |p|
    ensures q <= r.next <= |p| && (r.Good? ==> !r.instr.Syscall?)
  {
    if q + 3 > |p| then Bad(Truncated, q) else Good(Arith(OpOf(opcode), p[q], p[q + 1], p[q + 2]), q + 3)
  }

  function DecodeJump(opcode: byte, p: seq<byte>, q: nat): (r: Decoded)
    requires q <= |p|
    ensures q <= r.next <= |p| && (r.Good? ==> !r.instr.Syscall?)
  {
    if opcode == 0x10 then
      if q + 2 > |p| then Bad(Truncated, q) else Good(Jump(Word16(p[q], p[q + 1])), q + 2)
    else
      if q + 3 > |p| then Bad(Truncated, q) else Good(Branch(opcode == 0x11, p[q], Word16(p[q + 1], p[q + 2])), q + 3)
  }

  function DecodeCall(opcode: byte, p: seq<byte>, q: nat): (r: Decoded)
    requires q <= |p|
    ensures q <= r.next <= |p| && (r.Good? ==> !r.instr.Syscall?)
  {
    if opcode == 0x14 then Good(Return, q)
    else if q + 2 > |p| then Bad(Truncated, q)
    else Good(Subroutine(Word16(p[q], p[q + 1])), q + 2)
  }

  function DecodeMemory(opcode: byte, p: seq<byte>, q: nat): (r: Decoded)
    requires q <= |p|
    ensures q <= r.next <= |p| && (r.Good? ==> !r.instr.Syscall?)
  {
    if q + 2 > |p| then Bad(Truncated, q)
    else if opcode == 0x21 then Good(Wait(Word16(p[q], p[q + 1])), q + 2)
    else if opcode == 0x30 then Good(LoadByte(p[q], p[q + 1]), q + 2)
    else Good(StoreByte(p[q], p[q + 1]), q + 2)
  }

  function DecodeSyscall(opcode: byte, p: seq<byte>, q: nat): (r: Decoded)
    requires q <= |p|
    ensures q <= r.next <= |p|
    ensures r.Good? ==> ArgumentsValid(r.instr)
  {
    if q + 4 > |p| then Bad(Truncated, q) else
    var d, id, count, start := p[q], Word16(p[q + 1], p[q + 2]), p[q + 3], q + 4;
    if !ValidRegister(d) then Bad(InvalidRegister, start)
    else if count > REGISTER_COUNT then Bad(TooManyArguments, start)
    else if start + count > |p| then Bad(Truncated, start)
    else
      var bad := FirstInvalid(p, start, start + count);
      if bad < start + count then Bad(InvalidRegister, bad + 1) else
      var args, rest := p[start..start + count], start + count;
      if opcode == 0x20 then Good(Syscall(d, id, args, NoText), rest)
      else if rest + 1 > |p| then Bad(Truncated, rest)
      else if rest + 1 + p[rest] > |p| then Bad(Truncated, rest + 1)
      else Good(Syscall(d, id, args, Ascii(p[rest + 1..rest + 1 + p[rest]])), rest + 1 + p[rest])
  }

  /** First position in `from..end` that does not name a register, or `end`. */
  function FirstInvalid(p: seq<byte>, from: nat, end: nat): (k: nat)
    requires from <= end <= |p|
    ensures from <= k <= end
    ensures forall j | from <= j < k :: ValidRegister(p[j])
    ensures k < end ==> !ValidRegister(p[k])
    decreases end - from
  {
    if from == end || !ValidRegister(p[from]) then from else FirstInvalid(p, from + 1, end)
  }

  // ----- execution -----

  /** What decoding found, carried out. */
  function Apply(d: Decoded, s: State, limit: nat, w: World): State
    requires Shaped(s) && (d.Good? ==> ArgumentsValid(d.instr))
  {
    match d
    case Bad(fault, next) => Faulted(s.(pc := next), fault)
    case Good(instr, next) => Execute(instr, s.(pc := next), limit, w)
  }

  /** `executeOne` on a program of bytes. */
  function ByteStep(p: seq<byte>, s: State, w: World): State
    requires InBounds(s, |p|)
  {
    Apply(Decode(p, s.pc), s, |p|, w)
  }

  /** At most `budget` steps while running. */
  function RunBudget(p: seq<byte>, s: State, budget: nat, w: World): State
    requires InBounds(s, |p|)
    decreases budget
  {
    if s.mode != RUNNING || budget == 0 then s
    else
      StepInBounds(p, s, w);
      RunBudget(p, ByteStep(p, s, w), budget - 1, w)
  }

  /** Leave WAITING when the deadline has come. */
  function Wake(s: State, w: World): State {
    if s.mode != WAITING then s
    else s.(samples := s.samples + 1, mode := if Due(w.clock(s.samples) % UINT32, s.wakeAt) then RUNNING else WAITING)
  }

  function Tick(p: seq<byte>, s: State, budget: nat, w: World): State
    requires InBounds(s, |p|)
  {
    RunBudget(p, Wake(s, w), budget, w)
  }

  // ----- what every step keeps -----

  lemma ExecuteKeeps(i: Instr, s: State, limit: nat, w: World)
    requires InBounds(s, limit) && ArgumentsValid(i)
    ensures InBounds(Execute(i, s, limit, w), limit)
    ensures Execute(i, s, limit, w).mode == FAULT && s.mode != FAULT ==>
              Execute(i, s, limit, w).regs == s.regs && Execute(i, s, limit, w).memory == s.memory &&
              Execute(i, s, limit, w).stack == s.stack
  {
  }

  lemma StepInBounds(p: seq<byte>, s: State, w: World)
    requires InBounds(s, |p|)
    ensures InBounds(ByteStep(p, s, w), |p|)
  {
    var d := Decode(p, s.pc);
    if d.Good? {
      ExecuteKeeps(d.instr, s.(pc := d.next), |p|, w);
    }
  }

  /** A faulting instruction leaves registers, memory and call stack unchanged. */
  lemma FaultChangesNothing(p: seq<byte>, s: State, w: World)
    requires InBounds(s, |p|) && s.mode == RUNNING
    requires ByteStep(p, s, w).mode == FAULT
    ensures var t := ByteStep(p, s, w);
            t.regs == s.regs && t.memory == s.memory && t.stack == s.stack && t.fault != NoFault
  {
    var d := Decode(p, s.pc);
    if d.Good? {
      ExecuteKeeps(d.instr, s.(pc := d.next), |p|, w);
    }
  }

  lemma {:induction false} RunInBounds(p: seq<byte>, s: State, budget: nat, w: World)
    requires InBounds(s, |p|)
    ensures InBounds(RunBudget(p, s, budget, w), |p|)
    decreases budget
  {
    if s.mode == RUNNING && budget > 0 {
      StepInBounds(p, s, w);
      RunInBounds(p, ByteStep(p, s, w), budget - 1, w);
    }
  }

  lemma RunUnfolds(p: seq<byte>, s: State, budget: nat, w: World)
    requires InBounds(s, |p|) && s.mode == RUNNING && budget > 0
    ensures InBounds(ByteStep(p, s, w), |p|)
    ensures RunBudget(p, s, budget, w) == RunBudget(p, ByteStep(p, s, w), budget - 1, w)
  {
    StepInBounds(p, s, w);
  }

  /** With nothing to run, a budget has no effect. */
  lemma RunStops(p: seq<byte>, s: State, budget: nat, w: World)
    requires InBounds(s, |p|) && (s.mode != RUNNING || budget == 0)
    ensures RunBudget(p, s, budget, w) == s
  {
  }

  /** A budget may be split anywhere. */
  lemma {:induction false} BudgetSplits(p: seq<byte>, s: State, a: nat, b: nat, w: World)
    requires InBounds(s, |p|)
    ensures InBounds(RunBudget(p, s, a, w), |p|)
    ensures RunBudget(p, RunBudget(p, s, a, w), b, w) == RunBudget(p, s, a + b, w)
    decreases a
  {
    RunInBounds(p, s, a, w);
    if s.mode == RUNNING && a > 0 {
      StepInBounds(p, s, w);
      BudgetSplits(p, ByteStep(p, s, w), a - 1, b, w);
    }
  }

  /** Two ticks are one tick with the sum of their budgets, unless the first ends waiting;
      then the budget that was left has no effect at all. */
  lemma TicksAdd(p: seq<byte>, s: State, a: nat, b: nat, w: World)
    requires InBounds(s, |p|)
    ensures InBounds(Tick(p, s, a, w), |p|)
    ensures var first := Tick(p, s, a, w);
            if first.mode != WAITING then Tick(p, first, b, w) == Tick(p, s, a + b, w)
            else Tick(p, s, a + b, w) == first
  {
    BudgetSplits(p, Wake(s, w), a, b, w);
  }

  /** A wait of `ms` begun at true time `t0` is over at a later sample `t1` exactly when
      `t1 >= t0 + ms`: never early, and not late either, unless the tick is 2^31 ms late. */
  lemma WaitIsExact(s: State, ms: nat, limit: nat, w: World, later: State)
    requires Shaped(s) && ms < 0x1_0000
    requires later.mode == WAITING && later.wakeAt == Execute(Wait(ms), s, limit, w).wakeAt
    requires w.clock(s.samples) <= w.clock(later.samples) < w.clock(s.samples) + ms + HALF
    ensures Wake(later, w).mode == RUNNING <==> w.clock(s.samples) + ms <= w.clock(later.samples)
  {
    DueIsExact(w.clock(later.samples), w.clock(s.samples) + ms);
  }
}
