/**
 * What one step of the interpreter does, op by op: the promises of the
 * doc comment of `Opcode` and of the arms of `run_op_internal`
 * (interpreter.rs), proved of `OpSemantics.Exec`.
 */
module OpProperties {
  import opened Wrappers
  import opened Bytes
  import opened Machine
  import opened OpSemantics

  lemma {:induction false} Pow256Monotone(a: nat, b: nat)
    requires a <= b
    ensures Pow256(a) <= Pow256(b)
    decreases b
  {
    if a < b {
      Pow256Monotone(a, b - 1);
    }
  }

  /** Reading back a word written with `ToBE(Wrap(v, ...))` gives `v` when it fits. */
  lemma ValueOfWrapped(v: int, w: nat, signed: bool)
    requires w >= 1
    requires signed ==> -(Pow256(w) / 2) <= v < Pow256(w) / 2
    requires !signed ==> 0 <= v < Pow256(w)
    ensures Value(ToBE(Wrap(v, Pow256(w)), w), signed) == v
  {
    var full := Pow256(w);
    Pow256Even(w);
    var u := Wrap(v, full);
    ToBEOfWord(u, w);
    if signed {
      WrapSigned(v, full);
    }
  }

  // ------------------------------------------------------------ operands

  /**
   * The groups `OpEffect` tries before `g` do not apply to an op of group
   * `g` or later.
   */
  lemma {:induction false} SkipGroups(p: Program, op: TaggedOp, st: State, g: Group)
    requires GroupsAfter(GroupOf(op.op)) <= GroupsAfter(g)
    ensures OpEffect(p, op, st) == OpEffectFrom(p, op, st, g)
    decreases 6 - GroupsAfter(g)
  {
    var o := op.op;
    match g
    case StackGroup =>
    case ArithGroup =>
      SkipGroups(p, op, st, StackGroup);
    case ExtendGroup =>
      SkipGroups(p, op, st, ArithGroup);
    case BranchGroup =>
      SkipGroups(p, op, st, ExtendGroup);
    case CallGroup =>
      SkipGroups(p, op, st, BranchGroup);
    case EcallGroup =>
      SkipGroups(p, op, st, CallGroup);
    case LibGroup =>
      SkipGroups(p, op, st, EcallGroup);
  }

  /** The arm of `run_op_internal` a stack op takes. */
  lemma StackArmOf(p: Program, st: State)
    requires st.pc < |p.ops| && GroupOf(p.ops[st.pc].op) == StackGroup
    ensures Exec(p, st) == Finish(st, StackArm(st, p.ops[st.pc].op))
  {
  }

  /** The arm of `run_op_internal` a binary op takes. */
  lemma BinaryArm(p: Program, st: State)
    requires st.pc < |p.ops| && IsBinary(p.ops[st.pc].op)
    ensures var sig := BinarySig(p.ops[st.pc].op);
            Exec(p, st) == Finish(st, BinaryEffect(st, sig.0, sig.1, sig.2))
  {
    SkipGroups(p, p.ops[st.pc], st, ArithGroup);
  }

  /** The arm of `run_op_internal` an extension op takes. */
  lemma ExtendArm(p: Program, st: State)
    requires st.pc < |p.ops| && IsExtend(p.ops[st.pc].op)
    ensures var sig := ExtendSig(p.ops[st.pc].op);
            Exec(p, st) == Finish(st, ExtendEffect(st, sig.0, sig.1, sig.2))
  {
    SkipGroups(p, p.ops[st.pc], st, ExtendGroup);
  }

  /** The arm of `run_op_internal` a conditional jump takes. */
  lemma CondJumpArm(p: Program, st: State)
    requires st.pc < |p.ops| && IsCondJump(p.ops[st.pc].op)
    ensures var sig := CondJumpSig(p.ops[st.pc].op);
            Exec(p, st) == Finish(st, CondJumpEffect(st, sig.0, sig.1, sig.2))
  {
    SkipGroups(p, p.ops[st.pc], st, BranchGroup);
  }

  /** The arm of `run_op_internal` a `Call` or `Ret` takes. */
  lemma CallArm(p: Program, st: State)
    requires st.pc < |p.ops| && (p.ops[st.pc].op.Call? || p.ops[st.pc].op.Ret?)
    ensures var op := p.ops[st.pc];
            Exec(p, st) == Finish(st, if op.op.Call? then CallEffect(p, st, op.op.func, op.loc) else RetEffect(st))
  {
    SkipGroups(p, p.ops[st.pc], st, CallGroup);
  }

  /** The arm of `run_op_internal` an `Ecall` takes. */
  lemma EcallArm(p: Program, st: State)
    requires st.pc < |p.ops| && p.ops[st.pc].op.Ecall?
    ensures Exec(p, st) == Finish(st, EcallEffect(p, st, p.ops[st.pc].op.call))
  {
    SkipGroups(p, p.ops[st.pc], st, EcallGroup);
  }

  /** The arm of `run_op_internal` a `LibCall` takes. */
  lemma LibCallArm(p: Program, st: State)
    requires st.pc < |p.ops| && p.ops[st.pc].op.LibCall?
    ensures Exec(p, st) == Finish(st, LibCallEffect(p, st, p.ops[st.pc].op.libFunc))
  {
    SkipGroups(p, p.ops[st.pc], st, LibGroup);
  }

  /** The operands of a binary op: the word `next` below the word `top`. */
  lemma BinaryStep(p: Program, st: State, rest: seq<u8>, next: seq<u8>, top: seq<u8>)
    requires st.pc < |p.ops| && IsBinary(p.ops[st.pc].op)
    requires |next| == BinarySig(p.ops[st.pc].op).1 == |top|
    requires st.stack == rest + next + top
    ensures var sig := BinarySig(p.ops[st.pc].op);
            var r := Compute(sig.0, Value(next, sig.2), Value(top, sig.2), sig.1, sig.2);
            Exec(p, st) == if r.None? then Step(Panicked, st)
                           else Step(Running, st.(stack := rest + r.value, pc := st.pc + 1))
  {
    BinaryArm(p, st);
    PopOf(st, rest + next, top);
    PopOf(st.(stack := rest + next), rest, next);
  }

  // ---------------------------------------------------------- arithmetic

  /** The mathematical result of an arithmetic op on unbounded integers. */
  function Exact(k: Arith, x: int, y: int): int
    requires k in {Add, Sub, Mul}
  {
    match k
    case Add => x + y
    case Sub => x - y
    case Mul => x * y
  }

  /**
   * Add, subtract and multiply wrap: the word written is the exact result
   * modulo `2^(8w)`, read as unsigned, or as signed when the result fits.
   */
  lemma ArithmeticWraps(k: Arith, x: int, y: int, w: nat, signed: bool)
    requires w >= 1 && k in {Add, Sub, Mul}
    ensures Compute(k, x, y, w, signed).Some?
    ensures var v := Value(Compute(k, x, y, w, signed).value, signed);
            v % Pow256(w) == Exact(k, x, y) % Pow256(w)
    ensures !signed ==> Value(Compute(k, x, y, w, signed).value, signed) == Exact(k, x, y) % Pow256(w)
    ensures signed && -(Pow256(w) / 2) <= Exact(k, x, y) < Pow256(w) / 2 ==>
              Value(Compute(k, x, y, w, signed).value, signed) == Exact(k, x, y)
  {
    var m := Exact(k, x, y);
    assert Compute(k, x, y, w, signed).value == ToBE(Wrap(m, Pow256(w)), w);
    WrappedValue(m, w, signed);
  }

  /** The word `ToBE(Wrap(m, ...))` read back is `m` modulo `2^(8w)`, and `m` itself when it fits. */
  lemma WrappedValue(m: int, w: nat, signed: bool)
    requires w >= 1
    ensures var v := Value(ToBE(Wrap(m, Pow256(w)), w), signed);
            v % Pow256(w) == m % Pow256(w) &&
            (!signed ==> v == m % Pow256(w)) &&
            (signed && -(Pow256(w) / 2) <= m < Pow256(w) / 2 ==> v == m)
  {
    var full := Pow256(w);
    Pow256Even(w);
    var u := Wrap(m, full);
    ToBEOfWord(u, w);
    var v := Value(ToBE(u, w), signed);
    if v != u {
      ModUnique(v, full, -1, u);
    } else {
      ModUnique(v, full, 0, u);
    }
    if signed && -(full / 2) <= m < full / 2 {
      WrapSigned(m, full);
    }
  }

  /** Signed division rounds toward zero; it is exact unless it overflows (`MIN / -1`). */
  lemma SignedDivision(x: int, y: int, w: nat)
    requires w >= 1 && y != 0
    requires -(Pow256(w) / 2) <= TruncDiv(x, y) < Pow256(w) / 2
    ensures Compute(Div, x, y, w, true).Some?
    ensures Value(Compute(Div, x, y, w, true).value, true) == TruncDiv(x, y)
  {
    ValueOfWrapped(TruncDiv(x, y), w, true);
  }

  /** Unsigned division and `ModI64`'s remainder of two words are exact. */
  lemma UnsignedDivision(x: nat, y: nat, w: nat)
    requires w >= 1 && 0 < y && x < Pow256(w)
    ensures Compute(Div, x, y, w, false).Some? && Compute(Rem, x, y, w, false).Some?
    ensures Value(Compute(Div, x, y, w, false).value, false) == x / y
    ensures Value(Compute(Rem, x, y, w, false).value, false) == x % y
  {
    DivAtMost(x, y);
    ValueOfWrapped(x / y, w, false);
    ValueOfWrapped(x % y, w, false);
  }

  lemma DivAtMost(x: nat, y: nat)
    requires y > 0
    ensures x / y <= x && x % y < y
  {
    if x / y > 0 {
      MulAtLeast(x / y, y);
    }
  }

  // ---------------------------------------------------------- comparisons

  /** The relation a comparison op tests between `next` (n) and `top` (t). */
  predicate Holds(k: Arith, n: int, t: int)
    requires k in {Lt, Leq, Eq, Neq}
  {
    match k
    case Lt => n < t
    case Leq => n <= t
    case Eq => n == t
    case Neq => n != t
  }

  /** A comparison pushes the single byte 1 if `n op t` holds and 0 otherwise. */
  lemma ComparisonStep(p: Program, st: State, rest: seq<u8>, next: seq<u8>, top: seq<u8>)
    requires st.pc < |p.ops| && IsBinary(p.ops[st.pc].op)
    requires BinarySig(p.ops[st.pc].op).0 in {Lt, Leq, Eq, Neq}
    requires |next| == BinarySig(p.ops[st.pc].op).1 == |top|
    requires st.stack == rest + next + top
    ensures var sig := BinarySig(p.ops[st.pc].op);
            var holds := Holds(sig.0, Value(next, sig.2), Value(top, sig.2));
            Exec(p, st) == Step(Running, st.(stack := rest + [if holds then 1 else 0], pc := st.pc + 1))
  {
    BinaryStep(p, st, rest, next, top);
  }

  // ---------------------------------------------------------- extensions

  /** Sign and zero extension keep the numeric value and widen the word. */
  lemma ExtendStep(p: Program, st: State, rest: seq<u8>, narrow: seq<u8>)
    requires st.pc < |p.ops| && IsExtend(p.ops[st.pc].op)
    requires |narrow| == ExtendSig(p.ops[st.pc].op).0
    requires st.stack == rest + narrow
    ensures var sig := ExtendSig(p.ops[st.pc].op);
            var r := Exec(p, st);
            r.status == Running && r.st.pc == st.pc + 1 &&
            |r.st.stack| == |rest| + sig.1 && r.st.stack[..|rest|] == rest &&
            Value(r.st.stack[|rest|..], sig.2) == Value(narrow, sig.2) &&
            r.st == st.(stack := r.st.stack, pc := st.pc + 1)
  {
    ExtendArm(p, st);
    var (from, to, signed) := ExtendSig(p.ops[st.pc].op);
    PopOf(st, rest, narrow);
    var v := Value(narrow, signed);
    Pow256Monotone(from, to);
    Pow256Even(from);
    Pow256Even(to);
    ValueOfWrapped(v, to, signed);
    var wide := ToBE(Wrap(v, Pow256(to)), to);
    assert Exec(p, st).st.stack == rest + wide;
    assert (rest + wide)[|rest|..] == wide;
  }

  // --------------------------------------------------------------- jumps

  /** `Jump` sets `pc` to its target without incrementing. */
  lemma JumpStep(p: Program, st: State)
    requires st.pc < |p.ops| && p.ops[st.pc].op.Jump?
    ensures Exec(p, st) == Step(Running, st.(pc := p.ops[st.pc].op.target))
  {
    StackArmOf(p, st);
  }

  /**
   * A conditional jump pops its value and jumps to its target iff the value
   * is zero (`JumpIfZero*`) or nonzero (`JumpIfNotZero*`); otherwise it
   * falls through to the next op.
   */
  lemma CondJumpStep(p: Program, st: State, rest: seq<u8>, b: seq<u8>)
    requires st.pc < |p.ops| && IsCondJump(p.ops[st.pc].op)
    requires |b| == CondJumpSig(p.ops[st.pc].op).0
    requires st.stack == rest + b
    ensures var (w, target, onZero) := CondJumpSig(p.ops[st.pc].op);
            Exec(p, st) == Step(Running, st.(stack := rest, pc := if (FromBE(b) == 0) == onZero then target else st.pc + 1))
  {
    CondJumpArm(p, st);
    PopOf(st, rest, b);
    AllZeroIffFromBEZero(b);
  }

  // ----------------------------------------------------------- stack ops

  /** `Swap` exchanges the top `top` bytes with the `bottom` bytes under them. */
  lemma SwapStep(p: Program, st: State, rest: seq<u8>, lower: seq<u8>, upper: seq<u8>)
    requires st.pc < |p.ops| && p.ops[st.pc].op.Swap?
    requires |upper| == p.ops[st.pc].op.top && |lower| == p.ops[st.pc].op.bottom
    requires |upper| + |lower| < TWO_32
    requires st.stack == rest + lower + upper
    ensures Exec(p, st) == Step(Running, st.(stack := rest + upper + lower, pc := st.pc + 1))
  {
    StackArmOf(p, st);
    SwapSwaps(st, rest, lower, upper);
  }

  lemma SwapSwaps(st: State, rest: seq<u8>, lower: seq<u8>, upper: seq<u8>)
    requires |upper| + |lower| < TWO_32
    requires st.stack == rest + lower + upper
    ensures SwapEffect(st, |upper|, |lower|) == Next(st.(stack := rest + upper + lower))
  {
    var n := |upper| + |lower|;
    var s := st.stack;
    SwapSlices(rest, lower, upper);
    PopOf(st.(stack := s + lower + upper), s + lower, upper);
  }

  /** The slices `SwapEffect` takes of a stack `rest + lower + upper`. */
  lemma SwapSlices(rest: seq<u8>, lower: seq<u8>, upper: seq<u8>)
    ensures var s := rest + lower + upper;
            var n := |upper| + |lower|;
            s[|s| - n..] == lower + upper && s + (lower + upper) == s + lower + upper &&
            (s + lower)[..|s + lower| - n - |lower|] == rest &&
            (s + lower)[|s + lower| - n..] == upper + lower &&
            rest + (upper + lower) == rest + upper + lower
  {
    var s := rest + lower + upper;
    var n := |upper| + |lower|;
    assert s[|s| - n..] == lower + upper;
    assert (s + lower)[..|s + lower| - n - |lower|] == rest;
    assert (s + lower)[|s + lower| - n..] == upper + lower;
  }

  // ------------------------------------------------------------ the pc

  /** Every op other than a jump, `Call` and `Ret` that does not end the program moves on to the next op. */
  lemma FallThroughAdvancesPc(p: Program, st: State)
    requires st.pc < |p.ops|
    requires var o := p.ops[st.pc].op; !o.Jump? && !IsCondJump(o) && !o.Call? && !o.Ret?
    requires Exec(p, st).status.Running?
    ensures Exec(p, st).st.pc == st.pc + 1
  {
  }


  // --------------------------------------------------------- environment

  /** `Ecall(ECALL_EXIT)` ends the program with the popped `i32`. */
  lemma EcallExit(p: Program, st: State, rest: seq<u8>, b: seq<u8>)
    requires st.pc < |p.ops| && p.ops[st.pc].op == Ecall(ECALL_EXIT)
    requires |b| == 4 && st.stack == rest + b
    ensures Pow256(4) == TWO_32
    ensures Exec(p, st) == Step(Exited(ToSigned(FromBE(b), TWO_32)), st.(stack := rest))
  {
    EcallArm(p, st);
    Pow256Values();
    PopOf(st, rest, b);
  }

  /** `Ecall(ECALL_ARGC)` pushes the argument count as a 4-byte word. */
  lemma EcallArgc(p: Program, st: State)
    requires st.pc < |p.ops| && p.ops[st.pc].op == Ecall(ECALL_ARGC)
    requires |p.args| < TWO_32
    ensures var r := Exec(p, st);
            r.status == Running && r.st.pc == st.pc + 1 && |r.st.stack| == |st.stack| + 4 &&
            FromBE(r.st.stack[|st.stack|..]) == |p.args|
  {
    EcallArm(p, st);
    Pow256Values();
    var w := ToBE(|p.args|, 4);
    assert |p.args| % TWO_32 == |p.args|;
    assert EcallEffect(p, st, ECALL_ARGC) == Next(Push(st, w));
    FromBEToBE(|p.args|, 4);
    assert FromBE(w) == |p.args|;
  }

  /** `ECALL_ARGV` with an index past the last argument fails `InvalidArgumentIndex`. */
  lemma EcallArgvOutOfRange(p: Program, st: State, rest: seq<u8>, b: seq<u8>)
    requires st.pc < |p.ops| && p.ops[st.pc].op == Ecall(ECALL_ARGV)
    requires |b| == 4 && st.stack == rest + b && FromBE(b) >= |p.args|
    ensures Exec(p, st) == Step(Failed(Named("InvalidArgumentIndex")), st.(stack := rest))
  {
    EcallArm(p, st);
    PopOf(st, rest, b);
  }

  /**
   * `ECALL_ARGV` with a valid index pushes a pointer to a new heap variable
   * that holds the argument as a C string.
   */
  lemma EcallArgv(p: Program, st: State, rest: seq<u8>, b: seq<u8>)
    requires st.pc < |p.ops| && p.ops[st.pc].op == Ecall(ECALL_ARGV)
    requires |b| == 4 && st.stack == rest + b && FromBE(b) < |p.args|
    requires 0 !in p.args[FromBE(b)] && |st.heap| < Pow256(3)
    ensures var r := Exec(p, st);
            r.status == Running && r.st.pc == st.pc + 1 && |r.st.heap| == |st.heap| + 1 &&
            |r.st.stack| == |rest| + 8 && r.st.stack[..|rest|] == rest &&
            VarSlice(p, r.st, DecodePointer(r.st.stack[|rest|..])).Ok? &&
            CString(VarSlice(p, r.st, DecodePointer(r.st.stack[|rest|..])).value) == Ok(p.args[FromBE(b)])
  {
    EcallArm(p, st);
    PopOf(st, rest, b);
    var arg := p.args[FromBE(b)];
    var ptr := Pointer(HeapVar, |st.heap|, 0);
    DecodeEncode(ptr);
    var r := Exec(p, st);
    assert r.st.stack == rest + EncodePointer(ptr);
    assert r.st.stack[|rest|..] == EncodePointer(ptr);
    assert r.st.heap[|st.heap|] == arg + [0];
    CStringOfTerminated(arg);
  }

  lemma {:induction false} CStringOfTerminated(s: seq<u8>)
    requires 0 !in s
    ensures CString(s + [0]) == Ok(s)
  {
    if s != [] {
      assert (s + [0])[1..] == s[1..] + [0];
      assert s[1..] + [0] == (s + [0])[1..];
      assert 0 !in s[1..] by {
        forall i | 0 <= i < |s[1..]| ensures s[1..][i] != 0 {
          assert s[1..][i] == s[i + 1];
        }
      }
      CStringOfTerminated(s[1..]);
      assert [s[0]] + s[1..] == s;
    }
  }

  /** Any other ecall number fails `InvalidEnviromentCall` and changes nothing. */
  lemma EcallInvalid(p: Program, st: State)
    requires st.pc < |p.ops| && p.ops[st.pc].op.Ecall?
    requires p.ops[st.pc].op.call !in {ECALL_EXIT, ECALL_ARGC, ECALL_ARGV}
    ensures Exec(p, st) == Step(Failed(Named("InvalidEnviromentCall")), st)
  {
    EcallArm(p, st);
  }

  /** A `LibCall` of a symbol with no library function fails `InvalidLibraryFunction`. */
  lemma LibCallUnregistered(p: Program, st: State)
    requires st.pc < |p.ops| && p.ops[st.pc].op.LibCall?
    requires p.ops[st.pc].op.libFunc !in p.libs
    ensures Exec(p, st) == Step(Failed(Named("InvalidLibraryFunction")), st)
  {
    LibCallArm(p, st);
  }

  // ----------------------------------------------------- calls and returns

  /** `Call` enters the function after its header; `Ret` returns to the op after the call. */
  lemma CallThenRet(p: Program, st: State)
    requires st.pc < |p.ops| && p.ops[st.pc].op.Call?
    requires var f := p.ops[st.pc].op.func; f < |p.ops| && p.ops[f].op.Func?
    ensures var f := p.ops[st.pc].op.func;
            var r := Exec(p, st);
            r.status == Running && r.st.pc == f + 1 && |r.st.callstack| == |st.callstack| + 1 &&
            RetEffect(r.st) == Jumped(st.(pc := st.pc + 1))
  {
    CallArm(p, st);
    var r := Exec(p, st);
    assert r.st.callstack[..|st.callstack|] == st.callstack;
  }

  // ---------------------------------------------------------- run loops

  /** An op that fails leaves `pc` on itself, so `run_op` records the failing op's location. */
  lemma FailureKeepsPc(p: Program, st: State)
    requires Exec(p, st).status.Failed?
    ensures Exec(p, st).st.pc == st.pc
  {
  }


  /** `RunCount` is `Iterate` with `run_op` as the step. */
  lemma {:induction false} RunCountIterates(p: Program, st: State, count: nat)
    ensures RunCount(p, st, count) == Iterate(Stepper(p), st, count)
    decreases count
  {
    if count > 0 {
      var r := RunOp(p, st);
      assert Stepper(p)(st) == r;
      if r.status.Running? {
        RunCountIterates(p, r.st, count - 1);
      }
    }
  }

  /** `RunUntil` is `IterateUntil` with `run_op` as the step. */
  lemma {:induction false} RunUntilIterates(p: Program, st: State, count: nat, target: nat, stackSize: nat)
    ensures RunUntil(p, st, count, target, stackSize) == IterateUntil(Stepper(p), st, count, target, stackSize)
    decreases count
  {
    if Continues(st, count, target, stackSize) {
      assert Stepper(p)(st) == RunOp(p, st);
      RunUntilIterates(p, RunOp(p, st).st, count - 1, target, stackSize);
    }
  }

  /** After a step that continues, `Iterate` goes on from the new state with one step fewer. */
  lemma IterateNext(step: State -> Step, st: State, n: nat, next: State)
    requires n > 0 && step(st).status.Running? && next == step(st).st
    ensures Iterate(step, next, n - 1) == Iterate(step, st, n)
  {
  }

  /** `run_op` fails as `run_op_internal` does, and pushes the failing op's location. */
  lemma RunOpRecordsError(p: Program, st: State)
    requires Exec(p, st).status.Failed?
    ensures st.pc < |p.ops|
    ensures RunOp(p, st) == Step(Exec(p, st).status,
              Exec(p, st).st.(callstack := Exec(p, st).st.callstack + [ErrorFrame(p.ops[st.pc].loc)]))
  {
    FailureKeepsPc(p, st);
  }

  /** Running `a + b` steps is running `a`, then, if nothing stopped the run, `b` more. */
  lemma {:induction false} IterateSplit(step: State -> Step, st: State, a: nat, b: nat)
    ensures Iterate(step, st, a + b) ==
              (var r := Iterate(step, st, a); if r.status.Running? then Iterate(step, r.st, b) else r)
    decreases a
  {
    if a > 0 {
      var r := step(st);
      if r.status.Running? {
        IterateSplit(step, r.st, a - 1, b);
        assert a + b - 1 == (a - 1) + b;
      }
    }
  }

  /** Once an op exits, fails or panics, `run_op_count` with a larger count runs no further. */
  lemma RunCountStops(p: Program, st: State, a: nat, b: nat)
    requires !RunCount(p, st, a).status.Running?
    ensures RunCount(p, st, a + b) == RunCount(p, st, a)
  {
    RunCountIterates(p, st, a);
    RunCountIterates(p, st, a + b);
    IterateSplit(Stepper(p), st, a, b);
  }

  /**
   * Stopping early runs some `k <= count` steps of the plain loop; when it
   * stops short of `count` with no exit or error, `pc` is the target or the
   * call stack has shrunk below `stackSize`.
   */
  lemma {:induction false} IterateUntilIsPrefix(step: State -> Step, st: State, count: nat, target: nat, stackSize: nat)
    ensures exists k :: 0 <= k <= count && IterateUntil(step, st, count, target, stackSize) == Iterate(step, st, k)
    ensures var r := IterateUntil(step, st, count, target, stackSize);
            r.status.Running? && r != Iterate(step, st, count) ==>
              r.st.pc == target || |r.st.callstack| < stackSize
    decreases count
  {
    var r := IterateUntil(step, st, count, target, stackSize);
    if !Continues(st, count, target, stackSize) {
      assert r == Iterate(step, st, 0);
    } else {
      var r1 := step(st);
      if r1.status.Running? {
        IterateUntilIsPrefix(step, r1.st, count - 1, target, stackSize);
        var k :| 0 <= k <= count - 1 && IterateUntil(step, r1.st, count - 1, target, stackSize) == Iterate(step, r1.st, k);
        assert r == Iterate(step, st, k + 1);
      } else {
        assert r == Iterate(step, st, 1);
        IterateSplit(step, st, 1, count - 1);
      }
    }
  }

  /**
   * `run_count_or_until` is `run_op_count` for some `k <= count` ops; when
   * it stops short with no exit or error, `pc` is the target or the call
   * stack is shorter than `stackSize`.
   */
  lemma RunUntilIsPrefix(p: Program, st: State, count: nat, target: nat, stackSize: nat)
    ensures exists k :: 0 <= k <= count && RunUntil(p, st, count, target, stackSize) == RunCount(p, st, k)
    ensures var r := RunUntil(p, st, count, target, stackSize);
            r.status.Running? && r != RunCount(p, st, count) ==>
              r.st.pc == target || |r.st.callstack| < stackSize
  {
    IterateUntilIsPrefix(Stepper(p), st, count, target, stackSize);
    RunUntilIterates(p, st, count, target, stackSize);
    RunCountIterates(p, st, count);
    var k :| 0 <= k <= count && IterateUntil(Stepper(p), st, count, target, stackSize) == Iterate(Stepper(p), st, k);
    RunCountIterates(p, st, k);
  }

  // ------------------------------------------------------------ findings

  /**
   * A `LibCall` of `exit` ends the program with the code in the top stack
   * variable; as written, the arm drops that code and the program runs on.
   */
  lemma LibCallDropsExit(p: Program, st: State)
    requires st.pc < |p.ops| && p.ops[st.pc].op.LibCall?
    requires var sym := p.ops[st.pc].op.libFunc; sym in p.libs && p.libs[sym] == Exit
    requires |st.vars| >= 1 && |st.vars[|st.vars| - 1]| >= 4
    ensures Pow256(4) == TWO_32
    ensures var code := ToSigned(FromBE(st.vars[|st.vars| - 1][..4]), TWO_32);
            Exec(p, st) == Step(Exited(code), st)
    ensures LibCallAsWritten(p, st, p.ops[st.pc].op.libFunc) == Next(st)
  {
    Pow256Values();
    LibCallArm(p, st);
  }

  /**
   * `argv[1]` of a two-argument program: the index word `[0, 0, 0, 1]` is
   * argument 1, but read with its bytes reversed it is 16777216, which
   * `ECALL_ARGV` as written rejects.
   */
  lemma ArgvByteOrder(p: Program, st: State)
    requires |p.args| == 2 && st.stack == [0, 0, 0, 1]
    ensures ArgvAsWritten(p, st) == Fail(Named("InvalidArgumentIndex"), st.(stack := []))
    ensures EcallEffect(p, st, ECALL_ARGV) ==
              Next(st.(stack := EncodePointer(Pointer(HeapVar, |st.heap|, 0)), heap := st.heap + [p.args[1] + [0]]))
  {
    assert st.stack[..0] == [];
    assert Reverse([0, 0, 0, 1]) == [1, 0, 0, 0];
    assert [1, 0, 0, 0][..3] == [1, 0, 0] && [1, 0, 0][..2] == [1, 0] && [1, 0][..1] == [1];
    assert FromBE([1]) == 1;
    assert FromBE([1, 0, 0, 0]) == 16777216;
    assert [0, 0, 0, 1][..3] == [0, 0, 0] && [0, 0, 0][..2] == [0, 0] && [0, 0][..1] == [0];
    assert FromBE([0]) == 0;
    assert FromBE([0, 0, 0, 1]) == 1;
  }
}
