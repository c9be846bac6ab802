/** The VM as it runs: fixed buffers updated in place by an incremental byte reader.
    Each method is proved against the state functions of `VmSpec`. */
module NoobVm {
  import opened Deadline
  import opened VmSpec

  class Vm {
    const world: World
    const program: array<byte>
    const memory: array<byte>
    const registers: array<int32>
    const returnStack: array<nat>
    var programLength: nat
    var pc: nat
    var stackDepth: nat
    var wakeAt: nat
    var mode: Mode
    var fault: Fault
    var calls: seq<Call>
    var samples: nat

    ghost predicate Valid()
      reads this, program, memory, registers, returnStack
    {
      && program.Length == PROGRAM_BYTES && memory.Length == MEMORY_BYTES
      && registers.Length == REGISTER_COUNT && returnStack.Length == CALL_DEPTH
      && program != memory
      && programLength <= PROGRAM_BYTES && stackDepth <= CALL_DEPTH
      && InBounds(View(), programLength)
    }

    ghost function View(): State
      requires stackDepth <= returnStack.Length
      reads this, memory, registers, returnStack
    {
      State(pc, registers[..], memory[..], returnStack[..stackDepth], mode, fault, wakeAt, calls, samples)
    }

    ghost function Program(): seq<byte>
      requires programLength <= program.Length
      reads this, program
    {
      program[..programLength]
    }

    constructor (world: World)
      ensures Valid() && Program() == [] && this.world == world
      ensures View() == State(0, Zeroed(REGISTER_COUNT), Zeroed(MEMORY_BYTES), [], EMPTY, NoFault, 0, [], 0)
      ensures fresh(program) && fresh(memory) && fresh(registers) && fresh(returnStack)
    {
      this.world := world;
      program := new byte[PROGRAM_BYTES](_ => 0);
      memory := new byte[MEMORY_BYTES](_ => 0);
      registers := new int32[REGISTER_COUNT](_ => 0);
      returnStack := new nat[CALL_DEPTH](_ => 0);
      programLength, pc, stackDepth, wakeAt, mode, fault, calls, samples := 0, 0, 0, 0, EMPTY, NoFault, [], 0;
      new;
      assert registers[..] == Zeroed(REGISTER_COUNT) && memory[..] == Zeroed(MEMORY_BYTES);
    }

    // ----- control -----

    method Load(bytes: seq<byte>) returns (ok: bool)
      requires Valid()
      modifies this, program, memory, registers
      ensures Valid()
      ensures ok <==> 1 <= |bytes| <= PROGRAM_BYTES && old(mode) != RUNNING && old(mode) != WAITING
      ensures !ok ==> Program() == old(Program()) && View() == old(View())
      ensures ok ==> Program() == bytes
      ensures ok ==> View() == old(View()).(pc := 0, stack := [], mode := READY, fault := NoFault,
                                            regs := Zeroed(REGISTER_COUNT), memory := Zeroed(MEMORY_BYTES))
    {
      if |bytes| == 0 || |bytes| > PROGRAM_BYTES {
        return false;
      }
      if mode == RUNNING || mode == WAITING {
        return false;
      }
      forall k | 0 <= k < |bytes| {
        program[k] := bytes[k];
      }
      programLength := |bytes|;
      pc, stackDepth := 0, 0;
      forall k | 0 <= k < REGISTER_COUNT {
        registers[k] := 0;
      }
      forall k | 0 <= k < MEMORY_BYTES {
        memory[k] := 0;
      }
      fault, mode := NoFault, READY;
      assert registers[..] == Zeroed(REGISTER_COUNT) && memory[..] == Zeroed(MEMORY_BYTES);
      return true;
    }

    method Run() returns (ok: bool)
      requires Valid()
      modifies this`pc, this`stackDepth, this`mode
      ensures Valid() && Program() == old(Program())
      ensures ok <==> programLength > 0 && old(mode) != RUNNING && old(mode) != WAITING
      ensures View() == if ok then old(View()).(pc := 0, stack := [], mode := RUNNING) else old(View())
    {
      if programLength == 0 || mode == RUNNING || mode == WAITING {
        return false;
      }
      pc, stackDepth, mode := 0, 0, RUNNING;
      return true;
    }

    method Stop()
      requires Valid()
      modifies this`mode
      ensures Valid() && Program() == old(Program())
      ensures View() == if old(mode) == RUNNING || old(mode) == WAITING then old(View()).(mode := STOPPED) else old(View())
    {
      if mode == RUNNING || mode == WAITING {
        mode := STOPPED;
      }
    }

    method Reset()
      requires Valid()
      modifies this, program, memory, registers
      ensures Valid() && Program() == []
      ensures View() == old(View()).(pc := 0, stack := [], mode := EMPTY, fault := NoFault,
                                     regs := Zeroed(REGISTER_COUNT), memory := Zeroed(MEMORY_BYTES))
    {
      programLength, pc, stackDepth := 0, 0, 0;
      forall k | 0 <= k < PROGRAM_BYTES {
        program[k] := 0;
      }
      forall k | 0 <= k < MEMORY_BYTES {
        memory[k] := 0;
      }
      forall k | 0 <= k < REGISTER_COUNT {
        registers[k] := 0;
      }
      fault, mode := NoFault, EMPTY;
      assert registers[..] == Zeroed(REGISTER_COUNT) && memory[..] == Zeroed(MEMORY_BYTES);
    }

    method DoTick(budget: nat)
      requires Valid()
      modifies this, memory, registers, returnStack
      ensures Valid() && Program() == old(Program())
      ensures View() == Tick(old(Program()), old(View()), budget, world)
    {
      ghost var s := View();
      if mode == WAITING {
        samples := samples + 1;
        if !Due(world.clock(samples - 1) % UINT32, wakeAt) {
          RunStops(Program(), View(), budget, world);
          return;
        }
        mode := RUNNING;
      }
      assert View() == Wake(s, world);
      Spend(budget);
    }

    /** `while (state_ == RUNNING && instructionBudget--) executeOne()`. */
    method Spend(budget: nat)
      requires Valid()
      modifies this, memory, registers, returnStack
      ensures Valid() && Program() == old(Program())
      ensures View() == RunBudget(old(Program()), old(View()), budget, world)
    {
      var left := budget;
      while mode == RUNNING && left > 0
        invariant Valid() && Program() == old(Program())
        invariant RunBudget(Program(), View(), left, world) == old(RunBudget(Program(), View(), budget, world))
        decreases left
      {
        SpendOne(left);
        left := left - 1;
      }
      RunStops(Program(), View(), left, world);
    }

    method SpendOne(ghost left: nat)
      requires Valid() && mode == RUNNING && left > 0
      modifies this, memory, registers, returnStack
      ensures Valid() && Program() == old(Program())
      ensures RunBudget(Program(), View(), left - 1, world) == old(RunBudget(Program(), View(), left, world))
    {
      RunUnfolds(Program(), View(), left, world);
      ExecuteOne();
    }

    // ----- one instruction, by group -----

    ghost predicate Begun(p: seq<byte>, s: State)
      reads this, program, memory, registers, returnStack
    {
      Valid() && Program() == p && s.pc < |p| && View() == s.(pc := s.pc + 1)
    }

    method Fail(f: Fault)
      requires Valid()
      modifies this`mode, this`fault
      ensures Valid() && View() == Faulted(old(View()), f)
    {
      fault, mode := f, FAULT;
    }

    /** LOAD IMMEDIATE and MOVE. */
    method ExecuteMove(opcode: byte, ghost p: seq<byte>, ghost s: State)
      requires Begun(p, s) && opcode in {0x01, 0x02}
      modifies this, registers
      ensures Valid() && Program() == p && View() == Apply(DecodeMove(opcode, p, s.pc + 1), s, |p|, world)
    {
      if pc + (if opcode == 0x01 then 5 else 2) > programLength {
        Fail(Truncated);
        return;
      }
      var d := program[pc];
      if opcode == 0x01 {
        var v := Word32(program[pc + 1], program[pc + 2], program[pc + 3], program[pc + 4]);
        pc := pc + 5;
        if d >= REGISTER_COUNT {
          Fail(InvalidRegister);
          return;
        }
        registers[d] := v;
      } else {
        var r := program[pc + 1];
        pc := pc + 2;
        if d >= REGISTER_COUNT || r >= REGISTER_COUNT {
          Fail(InvalidRegister);
          return;
        }
        registers[d] := registers[r];
      }
    }

    method ExecuteArith(opcode: byte, ghost p: seq<byte>, ghost s: State)
      requires Begun(p, s)
      modifies this, registers
      ensures Valid() && Program() == p && View() == Apply(DecodeArith(opcode, p, s.pc + 1), s, |p|, world)
    {
      if pc + 3 > programLength {
        Fail(Truncated);
        return;
      }
      var d, a, b := program[pc], program[pc + 1], program[pc + 2];
      pc := pc + 3;
      if d >= REGISTER_COUNT || a >= REGISTER_COUNT || b >= REGISTER_COUNT {
        Fail(InvalidRegister);
        return;
      }
      var op := OpOf(opcode);
      if op.Div? && registers[b] == 0 {
        Fail(DivisionByZero);
        return;
      }
      registers[d] := Compute(op, registers[a], registers[b]);
    }

    /** JUMP, JUMP IF ZERO and JUMP IF NONZERO. */
    method ExecuteJump(opcode: byte, ghost p: seq<byte>, ghost s: State)
      requires Begun(p, s) && opcode in {0x10, 0x11, 0x12}
      modifies this
      ensures Valid() && Program() == p && View() == Apply(DecodeJump(opcode, p, s.pc + 1), s, |p|, world)
    {
      var size := if opcode == 0x10 then 2 else 3;
      if pc + size > programLength {
        Fail(Truncated);
        return;
      }
      var r, target := program[pc], Word16(program[pc + size - 2], program[pc + size - 1]);
      pc := pc + size;
      if opcode != 0x10 {
        if r >= REGISTER_COUNT {
          Fail(InvalidRegister);
          return;
        }
        if (registers[r] == 0) != (opcode == 0x11) {
          return;
        }
      }
      if target >= programLength {
        Fail(JumpOutside);
        return;
      }
      pc := target;
    }

    method ExecuteReturn(ghost p: seq<byte>, ghost s: State)
      requires Begun(p, s)
      modifies this
      ensures Valid() && Program() == p && View() == Apply(DecodeCall(0x14, p, s.pc + 1), s, |p|, world)
    {
      if stackDepth == 0 {
        Fail(ReturnEmpty);
        return;
      }
      stackDepth := stackDepth - 1;
      pc := returnStack[stackDepth];
      assert returnStack[..stackDepth] == s.stack[..|s.stack| - 1];
    }

    method ExecuteCall(ghost p: seq<byte>, ghost s: State)
      requires Begun(p, s)
      modifies this, returnStack
      ensures Valid() && Program() == p && View() == Apply(DecodeCall(0x13, p, s.pc + 1), s, |p|, world)
    {
      if pc + 2 > programLength {
        Fail(Truncated);
        return;
      }
      var target := Word16(program[pc], program[pc + 1]);
      pc := pc + 2;
      if target >= programLength || stackDepth >= CALL_DEPTH {
        Fail(InvalidCall);
        return;
      }
      returnStack[stackDepth] := pc;
      stackDepth := stackDepth + 1;
      assert returnStack[..stackDepth] == s.stack + [pc];
      pc := target;
    }

    method ExecuteWait(ghost p: seq<byte>, ghost s: State)
      requires Begun(p, s)
      modifies this
      ensures Valid() && Program() == p && View() == Apply(DecodeMemory(0x21, p, s.pc + 1), s, |p|, world)
    {
      if pc + 2 > programLength {
        Fail(Truncated);
        return;
      }
      var ms := Word16(program[pc], program[pc + 1]);
      pc := pc + 2;
      wakeAt, samples, mode := (world.clock(samples) + ms) % UINT32, samples + 1, WAITING;
    }

    /** LOAD BYTE and STORE BYTE. */
    method ExecuteMemory(opcode: byte, ghost p: seq<byte>, ghost s: State)
      requires Begun(p, s) && opcode in {0x30, 0x31}
      modifies this, registers, memory
      ensures Valid() && Program() == p && View() == Apply(DecodeMemory(opcode, p, s.pc + 1), s, |p|, world)
    {
      if pc + 2 > programLength {
        Fail(Truncated);
        return;
      }
      var first, second := program[pc], program[pc + 1];
      pc := pc + 2;
      if (if opcode == 0x30 then first else second) >= REGISTER_COUNT {
        Fail(InvalidRegister);
      } else if opcode == 0x30 {
        registers[first] := memory[second];
      } else {
        memory[first] := registers[second] % 256;
      }
    }

    /** The register arguments of a syscall; stops at the first that names no register. */
    method ReadArguments(count: nat, ghost p: seq<byte>, ghost s: State)
      returns (ok: bool, names: seq<byte>, numbers: seq<int32>)
      requires Valid() && Program() == p && View() == s && s.pc + count <= |p|
      modifies this`pc, this`mode, this`fault
      ensures Valid()
      ensures ok <==> FirstInvalid(p, s.pc, s.pc + count) == s.pc + count
      ensures !ok ==> View() == Faulted(s.(pc := FirstInvalid(p, s.pc, s.pc + count) + 1), InvalidRegister)
      ensures ok ==> View() == s.(pc := s.pc + count) && names == p[s.pc..s.pc + count] && numbers == Operands(s.regs, names)
    {
      names, numbers := [], [];
      for i := 0 to count
        invariant Valid() && View() == s.(pc := s.pc + i)
        invariant names == p[s.pc..s.pc + i]
        invariant forall j | s.pc <= j < s.pc + i :: ValidRegister(p[j])
        invariant |numbers| == i && forall j | 0 <= j < i :: numbers[j] == s.regs[names[j]]
      {
        var r := program[pc];
        pc := pc + 1;
        if r >= REGISTER_COUNT {
          assert FirstInvalid(p, s.pc, s.pc + count) == s.pc + i;
          Fail(InvalidRegister);
          ok := false;
          return;
        }
        names, numbers := names + [r], numbers + [registers[r]];
      }
      ok := true;
    }

    method ReadText(ghost p: seq<byte>, ghost s: State) returns (ok: bool, bytes: seq<byte>)
      requires Valid() && Program() == p && View() == s
      modifies this`pc, this`mode, this`fault
      ensures Valid()
      ensures ok <==> s.pc < |p| && s.pc + 1 + p[s.pc] <= |p|
      ensures !ok ==> View() == Faulted(s.(pc := if s.pc < |p| then s.pc + 1 else s.pc), Truncated)
      ensures ok ==> View() == s.(pc := s.pc + 1 + p[s.pc]) && bytes == p[s.pc + 1..s.pc + 1 + p[s.pc]]
    {
      ok, bytes := false, [];
      if pc + 1 > programLength {
        Fail(Truncated);
        return;
      }
      var length := program[pc];
      pc := pc + 1;
      if pc + length > programLength {
        Fail(Truncated);
        return;
      }
      for i := 0 to length
        invariant Valid() && View() == s.(pc := s.pc + 1 + i)
        invariant bytes == p[s.pc + 1..s.pc + 1 + i]
      {
        bytes := bytes + [program[pc]];
        pc := pc + 1;
      }
      ok := true;
    }

    method Invoke(d: byte, call: Call)
      requires Valid() && ValidRegister(d)
      modifies this`calls, this`mode, this`fault, registers
      ensures Valid()
      ensures View() == Answered(old(View()), d, call, world.reply(old(calls), call))
    {
      var reply := world.reply(calls, call);
      if reply.Unknown? {
        fault, mode := UnknownSyscall, FAULT;
        return;
      }
      calls := calls + [call];
      if reply.Failed? {
        fault, mode := SyscallFailed(call.id), FAULT;
      } else {
        registers[d] := reply.value;
      }
    }

    method ExecuteSyscall(opcode: byte, ghost p: seq<byte>, ghost s: State)
      requires Begun(p, s) && opcode in {0x20, 0x22}
      modifies this, registers
      ensures Valid() && Program() == p && View() == Apply(DecodeSyscall(opcode, p, s.pc + 1), s, |p|, world)
    {
      if pc + 4 > programLength {
        Fail(Truncated);
        return;
      }
      var d, id, count := program[pc], Word16(program[pc + 1], program[pc + 2]), program[pc + 3];
      pc := pc + 4;
      if d >= REGISTER_COUNT {
        Fail(InvalidRegister);
        return;
      }
      if count > REGISTER_COUNT {
        Fail(TooManyArguments);
        return;
      }
      if pc + count > programLength {
        Fail(Truncated);
        return;
      }
      ArgumentsAndCall(opcode, d, id, count, p, s);
    }

    /** The rest of a syscall, once the header has been read. */
    method ArgumentsAndCall(opcode: byte, d: byte, id: nat, count: byte, ghost p: seq<byte>, ghost s: State)
      requires Valid() && Program() == p && opcode in {0x20, 0x22} && s.pc + 5 + count <= |p|
      requires View() == s.(pc := s.pc + 5) && ValidRegister(d) && count <= REGISTER_COUNT
      requires d == p[s.pc + 1] && id == Word16(p[s.pc + 2], p[s.pc + 3]) && count == p[s.pc + 4]
      modifies this, registers
      ensures Valid() && Program() == p && View() == Apply(DecodeSyscall(opcode, p, s.pc + 1), s, |p|, world)
    {
      var ok, names, numbers := ReadArguments(count, p, View());
      if ok {
        TextAndCall(opcode, d, id, names, numbers, p, s);
      }
    }

    method TextAndCall(opcode: byte, d: byte, id: nat, names: seq<byte>, numbers: seq<int32>, ghost p: seq<byte>, ghost s: State)
      requires Valid() && Program() == p && opcode in {0x20, 0x22} && |names| <= REGISTER_COUNT
      requires s.pc + 5 + |names| <= |p| && names == p[s.pc + 5..s.pc + 5 + |names|]
      requires FirstInvalid(p, s.pc + 5, s.pc + 5 + |names|) == s.pc + 5 + |names|
      requires View() == s.(pc := s.pc + 5 + |names|) && ValidRegister(d) && numbers == Operands(s.regs, names)
      requires d == p[s.pc + 1] && id == Word16(p[s.pc + 2], p[s.pc + 3]) && |names| == p[s.pc + 4]
      modifies this, registers
      ensures Valid() && Program() == p && View() == Apply(DecodeSyscall(opcode, p, s.pc + 1), s, |p|, world)
    {
      var text := NoText;
      if opcode == 0x22 {
        var ok, bytes := ReadText(p, View());
        if !ok {
          return;
        }
        text := Ascii(bytes);
      }
      Invoke(d, Call(id, numbers, text));
    }

    method ExecuteOne()
      requires Valid()
      modifies this, memory, registers, returnStack
      ensures Valid() && Program() == old(Program())
      ensures View() == ByteStep(old(Program()), old(View()), world)
    {
      ghost var p, s := Program(), View();
      if pc + 1 > programLength {
        Fail(Truncated);
        return;
      }
      var opcode := program[pc];
      pc := pc + 1;
      if opcode == 0x00 {
        mode := HALTED;
      } else if opcode in {0x01, 0x02} {
        ExecuteMove(opcode, p, s);
      } else if 0x03 <= opcode <= 0x06 {
        ExecuteArith(opcode, p, s);
      } else if opcode in {0x10, 0x11, 0x12} {
        ExecuteJump(opcode, p, s);
      } else if opcode == 0x13 {
        ExecuteCall(p, s);
      } else if opcode == 0x14 {
        ExecuteReturn(p, s);
      } else if opcode in {0x20, 0x22} {
        ExecuteSyscall(opcode, p, s);
      } else if opcode == 0x21 {
        ExecuteWait(p, s);
      } else if opcode in {0x30, 0x31} {
        ExecuteMemory(opcode, p, s);
      } else {
        Fail(UnknownOpcode(opcode));
      }
    }
  }

  ghost function Zeroed(n: nat): seq<byte> {
    seq(n, _ => 0)
  }
}
