/**
 * The meaning of one step of `Runtime::run_op_internal` (interpreter.rs),
 * as a function from the machine state before the op to the state after
 * it and how the step ended, and the meaning of `run_op`,
 * `run_op_count` and `run_count_or_until` built on it.
 */
module OpSemantics {
  import opened Wrappers
  import opened Bytes
  import opened Machine
  import P = PrintfSpec

  /** How an op ended: `Ok(None)`, `Ok(Some(code))`, `Err(e)`, a Rust panic, or a loop that never ends. */
  datatype Status = Running | Exited(code: int) | Failed(err: IError) | Panicked | Diverged

  datatype Step = Step(status: Status, st: State)

  /**
   * What an arm of the `match` did: fall through to `increment_pc`, return
   * early after a jump, exit, fail, panic or hang.
   */
  datatype Effect = Next(st: State) | Jumped(st: State) | ExitWith(code: int, st: State)
                  | Fail(err: IError, st: State) | Panic | Diverge

  // ---------------------------------------------------------------- stack ops

  function StackEffect(st: State, r: Result<State, IError>): (e: Effect)
    ensures e.Fail? ==> e.st == st
    ensures e.Next? || e.Fail?
  {
    match r
    case Ok(s) => Next(s)
    case Err(e) => Fail(e, st)
  }

  /** `Swap`: duplicate `top + bottom` bytes, drop the copy of the top, drop the old bottom. */
  function SwapEffect(st: State, top: nat, bottom: nat): (r: Effect)
    ensures r.Fail? ==> r.st.pc == st.pc
    ensures !r.Jumped?
  {
    if top + bottom >= TWO_32 then Panic
    else
      match DupTop(st, top + bottom)
      case Err(e) => Fail(e, st)
      case Ok(s1) =>
        match PopBytes(s1, top)
        case Err(e) => Fail(e, s1)
        case Ok((_, s2)) =>
          match PopKeepBytes(s2, top + bottom, bottom)
          case Err(e) => Fail(e, s2)
          case Ok(s3) => Next(s3)
  }

  // ------------------------------------------------------------ extensions

  predicate IsExtend(op: Opcode)
  {
    op.SExtend8To16? || op.SExtend8To32? || op.SExtend8To64? || op.SExtend16To32? ||
    op.SExtend16To64? || op.SExtend32To64? || op.ZExtend8To16? || op.ZExtend8To32? ||
    op.ZExtend8To64? || op.ZExtend16To32? || op.ZExtend16To64? || op.ZExtend32To64?
  }

  /** Bytes read, bytes written, and whether the value is signed. */
  function ExtendSig(op: Opcode): (r: (nat, nat, bool))
    requires IsExtend(op)
    ensures 1 <= r.0 < r.1 <= 8
  {
    match op
    case SExtend8To16 => (1, 2, true)
    case SExtend8To32 => (1, 4, true)
    case SExtend8To64 => (1, 8, true)
    case SExtend16To32 => (2, 4, true)
    case SExtend16To64 => (2, 8, true)
    case SExtend32To64 => (4, 8, true)
    case ZExtend8To16 => (1, 2, false)
    case ZExtend8To32 => (1, 4, false)
    case ZExtend8To64 => (1, 8, false)
    case ZExtend16To32 => (2, 4, false)
    case ZExtend16To64 => (2, 8, false)
    case ZExtend32To64 => (4, 8, false)
  }

  lemma Pow256Even(n: nat)
    requires n >= 1
    ensures Pow256(n) >= 2 && Pow256(n) % 2 == 0
  {
  }

  /** The value of a word, read as signed or unsigned. */
  function Value(b: seq<u8>, signed: bool): (v: int)
    requires |b| >= 1
    ensures signed ==> -(Pow256(|b|) / 2) <= v < Pow256(|b|) / 2
    ensures !signed ==> 0 <= v < Pow256(|b|)
  {
    Pow256Even(|b|);
    if signed then ToSigned(FromBE(b), Pow256(|b|)) else FromBE(b)
  }

  function ExtendEffect(st: State, from: nat, to: nat, signed: bool): (r: Effect)
    requires 1 <= from
    ensures r.Fail? ==> r.st == st
    ensures r.Next? || r.Fail?
  {
    match PopBytes(st, from)
    case Err(e) => Fail(e, st)
    case Ok((b, s)) => Next(Push(s, ToBE(Wrap(Value(b, signed), Pow256(to)), to)))
  }

  // ---------------------------------------------------------- binary ops

  datatype Arith = Add | Sub | Mul | Div | Rem | Lt | Leq | Eq | Neq

  predicate IsBinary(op: Opcode)
  {
    op.AddU32? || op.AddU64? || op.SubI32? || op.SubI64? || op.SubU64? || op.MulI32? ||
    op.DivI32? || op.DivI64? || op.DivU64? || op.CompLtI32? || op.CompLtU64? ||
    op.CompLeqI32? || op.CompLeqU64? || op.CompEq32? || op.CompNeq32? || op.CompEq64? ||
    op.MulI64? || op.MulU64? || op.ModI64?
  }

  /** The operation, the operand width in bytes and whether the operands are read as signed. */
  function BinarySig(op: Opcode): (r: (Arith, nat, bool))
    requires IsBinary(op)
    ensures r.1 == 4 || r.1 == 8
  {
    match op
    case AddU32 => (Add, 4, false)
    case AddU64 => (Add, 8, false)
    case SubI32 => (Sub, 4, true)
    case SubI64 => (Sub, 8, true)
    case SubU64 => (Sub, 8, false)
    case MulI32 => (Mul, 4, true)
    case MulI64 => (Mul, 8, true)
    case MulU64 => (Mul, 8, false)
    case DivI32 => (Div, 4, true)
    case DivI64 => (Div, 8, true)
    case DivU64 => (Div, 8, false)
    case ModI64 => (Rem, 8, false)
    case CompLtI32 => (Lt, 4, true)
    case CompLtU64 => (Lt, 8, false)
    case CompLeqI32 => (Leq, 4, true)
    case CompLeqU64 => (Leq, 8, false)
    case CompEq32 => (Eq, 4, true)
    case CompNeq32 => (Neq, 4, true)
    case CompEq64 => (Eq, 8, false)
  }

  function Bool(b: bool): u8 { if b then 1 else 0 }

  /**
   * `word1.op(word2)` with Rust's wrapping arithmetic, written back in
   * `width` bytes; a comparison gives one byte.  `None` is the panic of a
   * division or remainder by zero.
   */
  function Compute(k: Arith, x: int, y: int, width: nat, signed: bool): (r: Option<seq<u8>>)
    requires width >= 1
    ensures r.None? <==> (k == Div || k == Rem) && y == 0
    ensures r.Some? && k in {Add, Sub, Mul, Div, Rem} ==> |r.value| == width
    ensures r.Some? && k in {Lt, Leq, Eq, Neq} ==> |r.value| == 1
  {
    var full := Pow256(width);
    match k
    case Add => Some(ToBE(Wrap(x + y, full), width))
    case Sub => Some(ToBE(Wrap(x - y, full), width))
    case Mul => Some(ToBE(Wrap(x * y, full), width))
    case Div =>
      if y == 0 then None
      else Some(ToBE(Wrap(if signed then TruncDiv(x, y) else x / y, full), width))
    case Rem => if y == 0 then None else Some(ToBE(Wrap(x % y, full), width))
    case Lt => Some([Bool(x < y)])
    case Leq => Some([Bool(x <= y)])
    case Eq => Some([Bool(x == y)])
    case Neq => Some([Bool(x != y)])
  }

  /** Pop `word2` (the top), then `word1`, push `word1.op(word2)`. */
  function BinaryEffect(st: State, k: Arith, width: nat, signed: bool): (r: Effect)
    requires width >= 1
    ensures r.Fail? ==> r.st.pc == st.pc
    ensures r.Next? || r.Fail? || r.Panic?
  {
    match PopBytes(st, width)
    case Err(e) => Fail(e, st)
    case Ok((b2, s1)) =>
      match PopBytes(s1, width)
      case Err(e) => Fail(e, s1)
      case Ok((b1, s2)) =>
        match Compute(k, Value(b1, signed), Value(b2, signed), width, signed)
        case None => Panic
        case Some(res) => Next(Push(s2, res))
  }

  // --------------------------------------------------------------- jumps

  predicate IsCondJump(op: Opcode)
  {
    op.JumpIfZero8? || op.JumpIfZero16? || op.JumpIfZero32? || op.JumpIfZero64? ||
    op.JumpIfNotZero8? || op.JumpIfNotZero16? || op.JumpIfNotZero32? || op.JumpIfNotZero64?
  }

  /** Width of the popped value, the target, and whether the jump is taken on zero. */
  function CondJumpSig(op: Opcode): (r: (nat, nat, bool))
    requires IsCondJump(op)
    ensures r.0 in {1, 2, 4, 8}
  {
    match op
    case JumpIfZero8(t) => (1, t, true)
    case JumpIfZero16(t) => (2, t, true)
    case JumpIfZero32(t) => (4, t, true)
    case JumpIfZero64(t) => (8, t, true)
    case JumpIfNotZero8(t) => (1, t, false)
    case JumpIfNotZero16(t) => (2, t, false)
    case JumpIfNotZero32(t) => (4, t, false)
    case JumpIfNotZero64(t) => (8, t, false)
  }

  function CondJumpEffect(st: State, width: nat, target: nat, onZero: bool): (r: Effect)
    ensures r.Fail? ==> r.st == st
    ensures r.Next? || r.Jumped? || r.Fail?
  {
    match PopBytes(st, width)
    case Err(e) => Fail(e, st)
    case Ok((b, s)) => if AllZero(b) == onZero then Jumped(s.(pc := target)) else Next(s)
  }

  // -------------------------------------------------------- calls and returns

  /**
   * `Call(func)`: the op at `func` must be a function header (otherwise tci
   * panics); execution continues after the header and the call stack
   * records where to return to.
   */
  function CallEffect(p: Program, st: State, func: nat, loc: CodeLoc): (r: Effect)
    ensures r.Jumped? <==> func < |p.ops| && p.ops[func].op.Func?
    ensures r.Jumped? || r.Panic?
  {
    if func >= |p.ops| || !p.ops[func].op.Func? then Panic
    else
      var frame := CallFrame(p.ops[func].op.name, st.pc + 1, loc);
      Jumped(st.(pc := func + 1, callstack := st.callstack + [frame]))
  }

  /** `Ret`: back to where the innermost call left off. */
  function RetEffect(st: State): (r: Effect)
    ensures r.Jumped? || r.Panic?
  {
    if st.callstack == [] || !st.callstack[|st.callstack| - 1].CallFrame? then Panic
    else
      var frame := st.callstack[|st.callstack| - 1];
      Jumped(st.(pc := frame.returnPc, callstack := st.callstack[..|st.callstack| - 1]))
  }

  // ------------------------------------------------------ library functions

  /** What a library function returned: `Ok(exit)`, `Err(e)`, a panic, or a hang. */
  datatype LibResult = LibOk(exit: Option<int>, st: State) | LibErr(err: IError, st: State) | LibPanic | LibDiverge

  /** `exit`: the code in the top stack variable. */
  function ExitLib(st: State): (r: LibResult)
    ensures r.LibOk? ==> r.st == st && r.exit.Some?
    ensures r.LibErr? ==> r.st == st
  {
    Pow256Values();
    match ReadStackVar(st.vars, |st.vars|, 4)
    case Err(e) => LibErr(e, st)
    case Ok(b) => LibOk(Some(ToSigned(FromBE(b), TWO_32)), st)
  }

  function Zeros(n: nat): (r: seq<u8>)
    ensures |r| == n && forall i :: 0 <= i < n ==> r[i] == 0
  {
    seq(n, _ => 0)
  }

  /**
   * The copy loop of `realloc`: byte `i` of heap variable `src` goes to
   * byte `i` of the new variable `dst` (of `dstLen` zero bytes), for `i`
   * below `size`; the first read or write past the end of either variable
   * is a fault.
   */
  function CopyBytes(heap: seq<seq<u8>>, src: nat, dst: nat, size: nat): (r: (seq<seq<u8>>, bool))
    requires dst < |heap|
    ensures |r.0| == |heap|
  {
    var srcLen := if src < |heap| then |heap[src]| else 0;
    var k := Min(size, Min(srcLen, |heap[dst]|));
    var copied := if k == 0 then heap[dst] else heap[src][..k] + heap[dst][k..];
    (heap[dst := copied], k == size)
  }

  function Min(a: nat, b: nat): nat { if a <= b then a else b }

  /**
   * `realloc(ptr, size)`: the pointer must be the start of a heap variable;
   * a new heap variable of `size` bytes (truncated to 32 bits) receives a
   * copy and its address is stored in the return variable.
   */
  function ReallocLib(st: State): (r: LibResult)
    ensures r.LibErr? && r.err.Named? ==> r.err.name == "InvalidPointer" && r.st == st
    ensures r.LibOk? ==> r.exit.None? && |r.st.heap| == |st.heap| + 1
    ensures r.LibOk? || r.LibErr? ==> r.st.pc == st.pc
  {
    var top := |st.vars|;
    if top < 2 then LibPanic
    else
      match ReadStackVar(st.vars, top - 1, 8)
      case Err(e) => LibErr(e, st)
      case Ok(pb) =>
        var toFree := DecodePointer(pb);
        if !toFree.region.HeapVar? then LibErr(Named("InvalidPointer"), st)
        else if toFree.offset != 0 then LibErr(Named("InvalidPointer"), st)
        else
          match ReadStackVar(st.vars, top, 8)
          case Err(e) => LibErr(e, st)
          case Ok(sb) =>
            var size := FromBE(sb);
            var dst := |st.heap|;
            var heap1 := st.heap + [Zeros(size % TWO_32)];
            var (heap2, ok) := CopyBytes(heap1, toFree.index, dst, size);
            var s := st.(heap := heap2);
            if !ok then LibErr(MemoryFault, s)
            else
              match WriteStackVar(s.vars, top - 2, EncodePointer(Pointer(HeapVar, dst, 0)))
              case Err(e) => LibErr(e, s)
              case Ok(vars) => LibOk(None, s.(vars := vars))
  }

  /**
   * `printf`: the top stack variable holds the number of variables passed;
   * below them are the format pointer and, under it, the return variable.
   * The text is written to stdout even when printing failed; the return
   * variable receives its length.
   */
  function PrintfLib(p: Program, st: State): (r: LibResult)
    ensures r.LibOk? ==> r.exit.None?
    ensures r.LibOk? || r.LibErr? ==> r.st == st.(stdout := r.st.stdout, vars := r.st.vars)
  {
    match PrintfFormatVar(st)
    case CountMissing(e) => LibErr(e, st)
    case CountTooLarge => LibPanic
    case FormatAt(offset) => PrintfAt(p, st, offset)
  }

  /** Where `printf` finds its format, from the count of variables passed. */
  datatype FormatVar = CountMissing(err: IError) | CountTooLarge | FormatAt(offset: nat)

  /**
   * The count is an `i32` in the top variable, cast to `u16`; the format
   * is that many variables below the top.  A count that reaches the top
   * makes `top_ptr_offset - param_len` or `current_offset - 1` underflow.
   */
  function PrintfFormatVar(st: State): (r: FormatVar)
    ensures r.FormatAt? ==> 1 <= r.offset <= |st.vars|
    ensures r.CountMissing? <==> ReadStackVar(st.vars, |st.vars|, 4).Err?
  {
    Pow256Values();
    var top := |st.vars|;
    match ReadStackVar(st.vars, top, 4)
    case Err(e) => CountMissing(e)
    case Ok(lb) =>
      var count := Wrap(ToSigned(FromBE(lb), TWO_32), TWO_16);
      if count > top || count == top then CountTooLarge else FormatAt(top - count)
  }

  /**
   * `printf` once the format is known to be stack variable `offset`: the
   * text goes to stdout, and its length to the variable below the format.
   */
  function PrintfAt(p: Program, st: State, offset: nat): (r: LibResult)
    requires offset >= 1
    ensures r.LibOk? ==> r.exit.None?
    ensures r.LibOk? || r.LibErr? ==> r.st == st.(stdout := r.st.stdout, vars := r.st.vars)
  {
    var printed := P.PrintfInternal(p, st, offset, []);
    PrintfDone(st, offset, printed.status.value, printed.out)
  }

  /**
   * What `printf` leaves once printing ended with `status` and produced
   * `text`: a panic or a loop that never ends stops everything; otherwise
   * the text is on stdout, and unless printing failed its length, as a
   * `u32`, is in the variable below the format.
   */
  function PrintfDone(st: State, offset: nat, status: P.PrintfStatus, text: seq<u8>): (r: LibResult)
    requires offset >= 1
    ensures r.LibOk? ==> r.exit.None? && status.Done?
    ensures r.LibOk? || r.LibErr? ==> r.st == st.(stdout := st.stdout + text, vars := r.st.vars)
    ensures status.Failed? ==> r == LibErr(status.err, st.(stdout := st.stdout + text))
  {
    Pow256Values();
    match status
    case Panicked => LibPanic
    case Diverged => LibDiverge
    case Failed(e) => LibErr(e, st.(stdout := st.stdout + text))
    case Done =>
      var s := st.(stdout := st.stdout + text);
      match WriteStackVar(s.vars, offset - 1, ToBE(Wrap(|text|, TWO_32), 4))
      case Err(e) => LibErr(e, s)
      case Ok(vars) => LibOk(None, s.(vars := vars))
  }

  function LibEffect(p: Program, st: State, f: LibFunc): (r: LibResult)
    ensures r.LibOk? || r.LibErr? ==> r.st.pc == st.pc
  {
    match f
    case Printf => PrintfLib(p, st)
    case Exit => ExitLib(st)
    case Realloc => ReallocLib(st)
  }

  /**
   * `LibCall(sym)`: run the registered library function; an exit code it
   * returns ends the program.
   */
  function LibCallEffect(p: Program, st: State, sym: nat): (r: Effect)
    ensures r.Fail? ==> r.st.pc == st.pc
    ensures !r.Jumped?
  {
    if sym !in p.libs then Fail(Named("InvalidLibraryFunction"), st)
    else
      match LibEffect(p, st, p.libs[sym])
      case LibOk(exit, s) => if exit.Some? then ExitWith(exit.value, s) else Next(s)
      case LibErr(e, s) => Fail(e, s)
      case LibPanic => Panic
      case LibDiverge => Diverge
  }

  /** `LibCall` as interpreter.rs writes it: `lib_func(self)?;` drops the exit code. */
  function LibCallAsWritten(p: Program, st: State, sym: nat): Effect
  {
    if sym !in p.libs then Fail(Named("InvalidLibraryFunction"), st)
    else
      match LibEffect(p, st, p.libs[sym])
      case LibOk(_, s) => Next(s)
      case LibErr(e, s) => Fail(e, s)
      case LibPanic => Panic
      case LibDiverge => Diverge
  }

  // ---------------------------------------------------------- environment calls

  /** `ECALL_ARGV`: copy argument `index`, with a 0 after it, into a new heap variable and push its address. */
  function ArgvEffect(p: Program, s: State, index: nat): (r: Effect)
    ensures r.Fail? ==> r.st == s
    ensures r.Next? || r.Fail?
  {
    if index >= |p.args| then Fail(Named("InvalidArgumentIndex"), s)
    else
      var ptr := EncodePointer(Pointer(HeapVar, |s.heap|, 0));
      Next(Push(s.(heap := s.heap + [p.args[index] + [0]]), ptr))
  }

  function EcallEffect(p: Program, st: State, call: nat): (r: Effect)
    ensures r.Fail? ==> r.st.pc == st.pc
    ensures !r.Jumped?
  {
    Pow256Values();
    if call == ECALL_EXIT then
      match PopBytes(st, 4)
      case Err(e) => Fail(e, st)
      case Ok((b, s)) => ExitWith(ToSigned(FromBE(b), TWO_32), s)
    else if call == ECALL_ARGC then
      Next(Push(st, ToBE(|p.args| % TWO_32, 4)))
    else if call == ECALL_ARGV then
      match PopBytes(st, 4)
      case Err(e) => Fail(e, st)
      case Ok((b, s)) => ArgvEffect(p, s, FromBE(b))
    else
      Fail(Named("InvalidEnviromentCall"), st)
  }

  function Reverse(s: seq<u8>): (r: seq<u8>)
    ensures |r| == |s|
  {
    if s == [] then [] else Reverse(s[1..]) + [s[0]]
  }

  /**
   * `ECALL_ARGV` as interpreter.rs writes it: the index is popped as a
   * native `u32` with no `from_be`, so on a little-endian host its bytes
   * are read in reverse.
   */
  function ArgvAsWritten(p: Program, st: State): Effect
  {
    match PopBytes(st, 4)
    case Err(e) => Fail(e, st)
    case Ok((b, s)) => ArgvEffect(p, s, FromBE(Reverse(b)))
  }

  // ------------------------------------------------------------ one step

  /** The arms of `run_op_internal`, in groups, in the order `OpEffect` tries them. */
  datatype Group = StackGroup | ArithGroup | ExtendGroup | BranchGroup | CallGroup | EcallGroup | LibGroup

  function GroupOf(o: Opcode): Group
  {
    if IsBinary(o) then ArithGroup
    else if IsExtend(o) then ExtendGroup
    else if IsCondJump(o) then BranchGroup
    else if o.Call? || o.Ret? then CallGroup
    else if o.Ecall? then EcallGroup
    else if o.LibCall? then LibGroup
    else StackGroup
  }

  function GroupsAfter(g: Group): nat
  {
    match g
    case StackGroup => 6
    case ArithGroup => 5
    case ExtendGroup => 4
    case BranchGroup => 3
    case CallGroup => 2
    case EcallGroup => 1
    case LibGroup => 0
  }

  /** The arms that push constants, move stack bytes, or jump unconditionally. */
  function StackArm(st: State, o: Opcode): (r: Effect)
    requires GroupOf(o) == StackGroup
    ensures r.Fail? ==> r.st.pc == st.pc
    ensures r.Jumped? ==> o.Jump?
  {
    match o
    case Func(_) => Next(st)
    case MakeTempI8(v) => Next(Push(st, [Wrap(v, TWO_8)]))
    case MakeTempI32(v) => Next(Push(st, ToBE(Wrap(v, TWO_32), 4)))
    case MakeTempI64(v) => Next(Push(st, ToBE(Wrap(v, TWO_64), 8)))
    case MakeTempU64(v) => Next(Push(st, ToBE(v, 8)))
    case MakeTempBinaryPtr(v, off) => Next(Push(st, EncodePointer(Pointer(BinaryVar, v, off))))
    case Pop(n) => StackEffect(st, match PopBytes(st, n) { case Ok((_, s)) => Ok(s) case Err(e) => Err(e) })
    case PopKeep(keep, drop) => StackEffect(st, PopKeepBytes(st, keep, drop))
    case PushDup(n) => StackEffect(st, DupTop(st, n))
    case Swap(top, bottom) => SwapEffect(st, top, bottom)
    case Jump(target) => Jumped(st.(pc := target))
  }

  /** The arm of `run_op_internal` for `op`, trying the groups from `g` on. */
  function OpEffectFrom(p: Program, op: TaggedOp, st: State, g: Group): (r: Effect)
    decreases GroupsAfter(g)
    ensures r.Fail? ==> r.st.pc == st.pc
    ensures r.Jumped? ==> op.op.Jump? || IsCondJump(op.op) || op.op.Call? || op.op.Ret?
  {
    var o := op.op;
    match g
    case StackGroup =>
      if GroupOf(o) == StackGroup then StackArm(st, o) else OpEffectFrom(p, op, st, ArithGroup)
    case ArithGroup =>
      if IsBinary(o) then
        var (k, w, signed) := BinarySig(o);
        BinaryEffect(st, k, w, signed)
      else OpEffectFrom(p, op, st, ExtendGroup)
    case ExtendGroup =>
      if IsExtend(o) then
        var (from, to, signed) := ExtendSig(o);
        ExtendEffect(st, from, to, signed)
      else OpEffectFrom(p, op, st, BranchGroup)
    case BranchGroup =>
      if IsCondJump(o) then
        var (w, target, onZero) := CondJumpSig(o);
        CondJumpEffect(st, w, target, onZero)
      else OpEffectFrom(p, op, st, CallGroup)
    case CallGroup =>
      if o.Call? then CallEffect(p, st, o.func, op.loc)
      else if o.Ret? then RetEffect(st)
      else OpEffectFrom(p, op, st, EcallGroup)
    case EcallGroup =>
      if o.Ecall? then EcallEffect(p, st, o.call) else OpEffectFrom(p, op, st, LibGroup)
    case LibGroup =>
      if o.LibCall? then LibCallEffect(p, st, o.libFunc) else Panic
  }

  /** The arm of `run_op_internal` for `op`, before `increment_pc`. */
  function OpEffect(p: Program, op: TaggedOp, st: State): Effect
  {
    OpEffectFrom(p, op, st, StackGroup)
  }

  /** How `run_op_internal` ends after an arm: falling through an arm advances `pc` by one. */
  function Finish(st: State, e: Effect): (r: Step)
  {
    match e
    case Next(s) => Step(Running, s.(pc := st.pc + 1))
    case Jumped(s) => Step(Running, s)
    case ExitWith(c, s) => Step(Exited(c), s)
    case Fail(err, s) => Step(Failed(err), s)
    case Panic => Step(Panicked, st)
    case Diverge => Step(Diverged, st)
  }

  /** `run_op_internal`: the op at `pc`. */
  function Exec(p: Program, st: State): (r: Step)
  {
    if st.pc >= |p.ops| then Step(Panicked, st)
    else Finish(st, OpEffect(p, p.ops[st.pc], st))
  }

  /** `run_op`: an error also records the location of the failing op on the call stack. */
  function RunOp(p: Program, st: State): (r: Step)
    ensures r.status == Exec(p, st).status
  {
    var r := Exec(p, st);
    if r.status.Failed? && r.st.pc < |p.ops| then
      Step(r.status, r.st.(callstack := r.st.callstack + [ErrorFrame(p.ops[r.st.pc].loc)]))
    else r
  }

  /** `step` run up to `count` times, stopping at the first step that does not just continue. */
  function Iterate(step: State -> Step, st: State, count: nat): (r: Step)
    decreases count
  {
    if count > 0 then
      var r := step(st);
      if r.status.Running? then Iterate(step, r.st, count - 1) else r
    else Step(Running, st)
  }

  /** The loop condition of `run_count_or_until`. */
  predicate Continues(st: State, count: nat, target: nat, stackSize: nat)
  {
    stackSize <= |st.callstack| && count > 0 && st.pc != target
  }

  /** Like `Iterate`, but also stopping before a step once `pc` is `target` or the call stack is shorter than `stackSize`. */
  function IterateUntil(step: State -> Step, st: State, count: nat, target: nat, stackSize: nat): (r: Step)
    decreases count
  {
    if !Continues(st, count, target, stackSize) then Step(Running, st)
    else
      var r := step(st);
      if r.status.Running? then IterateUntil(step, r.st, count - 1, target, stackSize) else r
  }

  /** `run_op` as a step function. */
  function Stepper(p: Program): State -> Step
  {
    st => RunOp(p, st)
  }

  /** `run_op_count`: up to `count` ops, stopping at the first exit, error or panic. */
  function RunCount(p: Program, st: State, count: nat): (r: Step)
    decreases count
  {
    if count > 0 then
      var r := RunOp(p, st);
      if r.status.Running? then RunCount(p, r.st, count - 1) else r
    else Step(Running, st)
  }

  /** `run_count_or_until`. */
  function RunUntil(p: Program, st: State, count: nat, target: nat, stackSize: nat): (r: Step)
    decreases count
  {
    if !Continues(st, count, target, stackSize) then Step(Running, st)
    else
      var r := RunOp(p, st);
      if r.status.Running? then RunUntil(p, r.st, count - 1, target, stackSize) else r
  }
}
