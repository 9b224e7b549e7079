/**
 * `Runtime` of interpreter.rs: `run_op_internal`, one arm of its `match`
 * per group of opcodes, `run_op`, `run_op_count` and `run_count_or_until`,
 * all working in place on the runtime's `Memory`.  Each method is proved
 * to do what OpSemantics says the same code does to a machine state.
 */
module Interpreter {
  import opened Wrappers
  import opened Bytes
  import opened Machine
  import opened OpSemantics
  import opened OpProperties
  import opened MemoryModel
  import L = Library

  /** How an arm of `run_op_internal` ended: on to `increment_pc`, or an early `return`. */
  datatype Flow = FallThrough | Return(status: Status)

  /** An arm that ended with `flow`, leaving the memory in state `now`, did what `e` says. */
  predicate Agrees(flow: Flow, now: State, e: Effect)
  {
    match e
    case Next(s) => flow == FallThrough && now == s
    case Jumped(s) => flow == Return(Running) && now == s
    case ExitWith(code, s) => flow == Return(Exited(code)) && now == s
    case Fail(err, s) => flow == Return(Failed(err)) && now == s
    case Panic => flow == Return(Panicked)
    case Diverge => flow == Return(Diverged)
  }

  class Runtime {
    const program: Program
    const memory: Memory

    /** A runtime for `program` over `memory`. */
    constructor (program: Program, memory: Memory)
      ensures this.program == program && this.memory == memory
    {
      this.program := program;
      this.memory := memory;
    }

    /** The arms that push constants, move stack bytes or jump. */
    method StackOp(o: Opcode) returns (flow: Flow)
      requires GroupOf(o) == StackGroup
      modifies memory
      ensures Agrees(flow, memory.Snapshot(), StackArm(old(memory.Snapshot()), o))
      ensures flow == FallThrough ==> memory.pc == old(memory.pc)
    {
      flow := FallThrough;
      match o
      case Func(_) =>
      case MakeTempI8(v) =>
        memory.PushStack([Wrap(v, TWO_8)]);
      case MakeTempI32(v) =>
        memory.PushStack(ToBE(Wrap(v, TWO_32), 4));
      case MakeTempI64(v) =>
        memory.PushStack(ToBE(Wrap(v, TWO_64), 8));
      case MakeTempU64(v) =>
        memory.PushStack(ToBE(v, 8));
      case MakeTempBinaryPtr(v, off) =>
        memory.PushStack(EncodePointer(Pointer(BinaryVar, v, off)));
      case Pop(n) =>
        var r := memory.PopStack(n);
        if r.Err? {
          flow := Return(Failed(r.error));
        }
      case PopKeep(keep, drop) =>
        var r := memory.PopKeep(keep, drop);
        if r.Err? {
          flow := Return(Failed(r.error));
        }
      case PushDup(n) =>
        var r := memory.DupTopStackBytes(n);
        if r.Err? {
          flow := Return(Failed(r.error));
        }
      case Swap(top, bottom) =>
        flow := SwapOp(top, bottom);
      case Jump(target) =>
        memory.Jump(target);
        flow := Return(Running);
    }

    /** `Swap`: duplicate, drop the copy of the top, drop the old bottom. */
    method SwapOp(top: nat, bottom: nat) returns (flow: Flow)
      modifies memory
      ensures Agrees(flow, memory.Snapshot(), SwapEffect(old(memory.Snapshot()), top, bottom))
      ensures flow == FallThrough ==> memory.pc == old(memory.pc)
    {
      if top + bottom >= TWO_32 {
        // `top + bottom` overflows `u32`
        return Return(Panicked);
      }
      var r1 := memory.DupTopStackBytes(top + bottom);
      if r1.Err? {
        return Return(Failed(r1.error));
      }
      // with the copy on the stack, neither of these can fail
      var _ := memory.PopStack(top);
      var _ := memory.PopKeep(top + bottom, bottom);
      return FallThrough;
    }

    /** The arithmetic and comparison arms: pop `word2`, pop `word1`, push `word1 op word2`. */
    method BinaryOp(k: Arith, width: nat, signed: bool) returns (flow: Flow)
      requires width >= 1
      modifies memory
      ensures Agrees(flow, memory.Snapshot(), BinaryEffect(old(memory.Snapshot()), k, width, signed))
      ensures flow == FallThrough ==> memory.pc == old(memory.pc)
    {
      var word2 := memory.PopStack(width);
      if word2.Err? {
        return Return(Failed(word2.error));
      }
      var word1 := memory.PopStack(width);
      if word1.Err? {
        return Return(Failed(word1.error));
      }
      var res := Compute(k, Value(word1.value, signed), Value(word2.value, signed), width, signed);
      if res.None? {
        // division or remainder by zero
        return Return(Panicked);
      }
      memory.PushStack(res.value);
      return FallThrough;
    }

    /** The sign- and zero-extension arms. */
    method ExtendOp(from: nat, to: nat, signed: bool) returns (flow: Flow)
      requires 1 <= from
      modifies memory
      ensures Agrees(flow, memory.Snapshot(), ExtendEffect(old(memory.Snapshot()), from, to, signed))
      ensures flow == FallThrough ==> memory.pc == old(memory.pc)
    {
      var b := memory.PopStack(from);
      if b.Err? {
        return Return(Failed(b.error));
      }
      memory.PushStack(ToBE(Wrap(Value(b.value, signed), Pow256(to)), to));
      return FallThrough;
    }

    /** `JumpIfZero*` and `JumpIfNotZero*`: pop a value, jump when it is (not) zero. */
    method CondJumpOp(width: nat, target: nat, onZero: bool) returns (flow: Flow)
      modifies memory
      ensures Agrees(flow, memory.Snapshot(), CondJumpEffect(old(memory.Snapshot()), width, target, onZero))
      ensures flow == FallThrough ==> memory.pc == old(memory.pc)
    {
      var b := memory.PopStack(width);
      if b.Err? {
        return Return(Failed(b.error));
      }
      AllZeroIffFromBEZero(b.value);
      if (FromBE(b.value) == 0) == onZero {
        memory.Jump(target);
        return Return(Running);
      }
      return FallThrough;
    }

    /** `Call(func)`: the op at `func` must be a function header. */
    method CallOp(func: nat, loc: CodeLoc) returns (flow: Flow)
      modifies memory
      ensures Agrees(flow, memory.Snapshot(), CallEffect(program, old(memory.Snapshot()), func, loc))
    {
      if func >= |program.ops| || !program.ops[func].op.Func? {
        // `panic!("found function header ...")`, or an index past the end
        return Return(Panicked);
      }
      memory.Call(func + 1, program.ops[func].op.name, loc);
      return Return(Running);
    }

    /** `Ret`. */
    method RetOp() returns (flow: Flow)
      modifies memory
      ensures Agrees(flow, memory.Snapshot(), RetEffect(old(memory.Snapshot())))
    {
      var ok := memory.Ret();
      if !ok {
        return Return(Panicked);
      }
      return Return(Running);
    }

    /** `Ecall(call)`: exit, the argument count, or a copy of one argument. */
    method EcallOp(call: nat) returns (flow: Flow)
      modifies memory
      ensures Agrees(flow, memory.Snapshot(), EcallEffect(program, old(memory.Snapshot()), call))
      ensures flow == FallThrough ==> memory.pc == old(memory.pc)
    {
      Pow256Values();
      if call == ECALL_EXIT {
        var b := memory.PopStack(4);
        if b.Err? {
          return Return(Failed(b.error));
        }
        return Return(Exited(ToSigned(FromBE(b.value), TWO_32)));
      } else if call == ECALL_ARGC {
        memory.PushStack(ToBE(|program.args| % TWO_32, 4));
        return FallThrough;
      } else if call == ECALL_ARGV {
        var b := memory.PopStack(4);
        if b.Err? {
          return Return(Failed(b.error));
        }
        var index := FromBE(b.value);
        if index >= |program.args| {
          return Return(Failed(Named("InvalidArgumentIndex")));
        }
        var arg := program.args[index];
        var ptr := memory.AddHeapVar(|arg| + 1);
        memory.FillHeapVar(ptr.index, arg + [0]);
        assert arg + [0] + Zeros(|arg| + 1)[|arg| + 1..] == arg + [0];
        memory.PushStack(EncodePointer(ptr));
        return FallThrough;
      }
      return Return(Failed(Named("InvalidEnviromentCall")));
    }

    /** `LibCall(sym)`: run the registered library function. */
    method LibCallOp(sym: nat) returns (flow: Flow)
      modifies memory
      ensures Agrees(flow, memory.Snapshot(), LibCallEffect(program, old(memory.Snapshot()), sym))
      ensures flow == FallThrough ==> memory.pc == old(memory.pc)
    {
      if sym !in program.libs {
        return Return(Failed(Named("InvalidLibraryFunction")));
      }
      var res: L.LibStatus;
      match program.libs[sym] {
        case Printf =>
          res := L.Printf(program, memory);
        case Exit =>
          res := L.Exit(memory);
        case Realloc =>
          res := L.Realloc(program, memory);
      }
      match res
      case LOk(exit) =>
        flow := if exit.Some? then Return(Exited(exit.value)) else FallThrough;
      case LErr(e) =>
        flow := Return(Failed(e));
      case LPanic =>
        flow := Return(Panicked);
      case LDiverge =>
        flow := Return(Diverged);
    }

    /**
     * `run_op_internal`: the op at `pc`.  The resulting state is the
     * specified one unless the op panics or never ends.
     */
    method RunOpInternal() returns (r: Status)
      modifies memory
      ensures r == Exec(program, old(memory.Snapshot())).status
      ensures r != Panicked && r != Diverged ==> memory.Snapshot() == Exec(program, old(memory.Snapshot())).st
    {
      ghost var st := memory.Snapshot();
      if memory.pc >= |program.ops| {
        return Panicked;
      }
      var op := program.ops[memory.pc];
      var o := op.op;
      var flow: Flow;
      if IsBinary(o) {
        BinaryArm(program, st);
        var sig := BinarySig(o);
        flow := BinaryOp(sig.0, sig.1, sig.2);
      } else if IsExtend(o) {
        ExtendArm(program, st);
        var sig := ExtendSig(o);
        flow := ExtendOp(sig.0, sig.1, sig.2);
      } else if IsCondJump(o) {
        CondJumpArm(program, st);
        var sig := CondJumpSig(o);
        flow := CondJumpOp(sig.0, sig.1, sig.2);
      } else if o.Call? {
        CallArm(program, st);
        flow := CallOp(o.func, op.loc);
      } else if o.Ret? {
        CallArm(program, st);
        flow := RetOp();
      } else if o.Ecall? {
        EcallArm(program, st);
        flow := EcallOp(o.call);
      } else if o.LibCall? {
        LibCallArm(program, st);
        flow := LibCallOp(o.libFunc);
      } else {
        StackArmOf(program, st);
        flow := StackOp(o);
      }
      match flow
      case FallThrough =>
        memory.IncrementPc();
        r := Running;
      case Return(s) =>
        r := s;
    }

    /** `run_op`: on an error, the failing op's location goes on the call stack. */
    method RunOp() returns (r: Status)
      modifies memory
      ensures r == OpSemantics.RunOp(program, old(memory.Snapshot())).status
      ensures r != Panicked && r != Diverged ==> memory.Snapshot() == OpSemantics.RunOp(program, old(memory.Snapshot())).st
    {
      ghost var st := memory.Snapshot();
      r := RunOpInternal();
      if r.Failed? {
        RunOpRecordsError(program, st);
        FailureKeepsPc(program, st);
        memory.PushCallstack(program.ops[memory.pc].loc);
      }
    }

    /** `run_op_count`: up to `count` ops, stopping at an exit, an error or a panic. */
    method RunOpCount(count: nat) returns (r: Status)
      modifies memory
      ensures r == RunCount(program, old(memory.Snapshot()), count).status
      ensures r != Panicked && r != Diverged ==> memory.Snapshot() == RunCount(program, old(memory.Snapshot()), count).st
    {
      var n: nat := count;
      while n > 0
        invariant RunCount(program, memory.Snapshot(), n) == RunCount(program, old(memory.Snapshot()), count)
        decreases n
      {
        ghost var st := memory.Snapshot();
        assert n > 0;
        r := RunOp();
        if !r.Running? {
          return;
        }
        assert RunCount(program, memory.Snapshot(), n - 1) == RunCount(program, st, n);
        n := n - 1;
      }
      assert n == 0;
      r := Running;
    }

    /**
     * `run_count_or_until`: like `run_op_count`, but stopping before an op
     * once `pc` is `target` or the call stack is shorter than `stackSize`.
     */
    method RunCountOrUntil(count: nat, target: nat, stackSize: nat) returns (r: Status)
      modifies memory
      ensures r == RunUntil(program, old(memory.Snapshot()), count, target, stackSize).status
      ensures r != Panicked && r != Diverged ==>
                memory.Snapshot() == RunUntil(program, old(memory.Snapshot()), count, target, stackSize).st
    {
      var n: nat := count;
      while stackSize <= |memory.callstack| && n > 0 && memory.pc != target
        invariant RunUntil(program, memory.Snapshot(), n, target, stackSize)
                  == RunUntil(program, old(memory.Snapshot()), count, target, stackSize)
        decreases n
      {
        ghost var st := memory.Snapshot();
        assert Continues(st, n, target, stackSize);
        r := RunOp();
        if !r.Running? {
          return;
        }
        assert RunUntil(program, memory.Snapshot(), n - 1, target, stackSize) == RunUntil(program, st, n, target, stackSize);
        n := n - 1;
      }
      assert !Continues(memory.Snapshot(), n, target, stackSize);
      r := Running;
    }
  }
}
