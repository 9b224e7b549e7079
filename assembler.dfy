/**
 * The code generator: typed statements and expressions become opcodes in
 * post-order, function bodies are laid out one after another in a single
 * opcode list, and `assemble` resolves every `Call` to its callee's first
 * opcode.  Its opcode set is its own (`StackAlloc(bytes)`, `MakeTempInt32`),
 * distinct from the interpreter's.
 */
module Assembler {
  import opened Wrappers
  import opened Bytes
  import M = Machine
  import T = TypedAst

  datatype AsmOp =
    | Func(ident: nat)
    | Ret
    | SetLocal(slot: int, offset: nat, bytes: nat)
    | GetLocal(slot: int, offset: nat, bytes: nat)
    | Pop(bytes: nat)
    | PushUndef(bytes: nat)
    | PushDup(bytes: nat)
    | StackAlloc(bytes: nat)
    | StackDealloc
    | StackAddToTemp
    | PopIntoTopVar(offset: nat, bytes: nat)
    | PopKeep(drop: nat, keep: nat)
    | MakeTempInt32(value: int)
    | MakeTempBinaryPtr(dataVar: nat, offset: nat)
    | MakeTempLocalStackPtr(slot: int, offset: nat)
    | AddU32
    | AddU64
    | SubI32
    | SExtend8To32
    | SExtend32To64
    | ZExtend8To32
    | ZExtend32To64
    | Get(offset: nat, bytes: nat)
    | Set(offset: nat, bytes: nat)
    | Call(func: nat)
    | LibCall(func: nat)

  datatype TaggedAsm = TaggedAsm(op: AsmOp, loc: M.CodeLoc)

  /**
   * The code generator's errors.  `UnknownReturnSize` and `UnknownFunction`
   * stand for the two `unwrap` panics (a callee missing from `func_types`,
   * a `Call` target missing from `functions`).
   */
  datatype AsmError =
    | FuncDeclMismatch(declared: M.CodeLoc, redeclared: M.CodeLoc)
    | FuncRedef(first: M.CodeLoc, second: M.CodeLoc)
    | MissingMain
    | NoDefinition(call: M.CodeLoc, declared: M.CodeLoc)
    | UnknownReturnSize(func: nat)
    | UnknownFunction(func: nat)

  /** The binary data section: one variable per string literal. */
  type Data = seq<seq<u8>>

  /** What a translation produces: its opcodes, and the data section after it. */
  datatype Emitted = Emitted(ops: seq<TaggedAsm>, data: Data)

  // ---------------------------------------------------------------------------
  // Reference definitions: what an expression calls and stores, in the order
  // it is evaluated (operands left to right, an assignment's value before its
  // target, a call's arguments before the call).
  // ---------------------------------------------------------------------------

  /** The callees of `e`, one per call node, in evaluation order. */
  function CallsOf(e: T.Expr): seq<nat>
    decreases e, 2
  {
    match e.kind
    case Uninit => []
    case IntLiteral(_) => []
    case StringLiteral(_) => []
    case LocalIdent(_) => []
    case AddI32(a, b) => CallsOf(a) + CallsOf(b)
    case AddU64(a, b) => CallsOf(a) + CallsOf(b)
    case SubI32(a, b) => CallsOf(a) + CallsOf(b)
    case SConv8To32(x) => CallsOf(x)
    case SConv32To64(x) => CallsOf(x)
    case ZConv8To32(x) => CallsOf(x)
    case ZConv32To64(x) => CallsOf(x)
    case Assign(t, v) => CallsOf(v) + TargetCalls(t)
    case Member(b, _) => CallsOf(b)
    case PtrMember(b, _) => CallsOf(b)
    case Deref(p) => CallsOf(p)
    case Ref(LocalTarget(_)) => []
    case Ref(PtrTarget(p)) => CallsOf(p)
    case Call(f, ps, _) => ArgCalls(ps) + [f]
  }

  function ArgCalls(ps: seq<T.Expr>): seq<nat>
    decreases ps
  {
    if ps == [] then [] else ArgCalls(ps[..|ps| - 1]) + CallsOf(ps[|ps| - 1])
  }

  function TargetCalls(t: T.AssignTarget): seq<nat>
    decreases t
  {
    match t.kind
    case LocalTarget(_) => []
    case PtrTarget(p) => CallsOf(p)
  }

  /** The data variables `e`'s string literals occupy: each literal's bytes and a 0. */
  function LiteralVars(e: T.Expr): Data
    decreases e, 2
  {
    match e.kind
    case Uninit => []
    case IntLiteral(_) => []
    case StringLiteral(text) => [text + [0]]
    case LocalIdent(_) => []
    case AddI32(a, b) => LiteralVars(a) + LiteralVars(b)
    case AddU64(a, b) => LiteralVars(a) + LiteralVars(b)
    case SubI32(a, b) => LiteralVars(a) + LiteralVars(b)
    case SConv8To32(x) => LiteralVars(x)
    case SConv32To64(x) => LiteralVars(x)
    case ZConv8To32(x) => LiteralVars(x)
    case ZConv32To64(x) => LiteralVars(x)
    case Assign(t, v) => LiteralVars(v) + TargetLiterals(t)
    case Member(b, _) => LiteralVars(b)
    case PtrMember(b, _) => LiteralVars(b)
    case Deref(p) => LiteralVars(p)
    case Ref(LocalTarget(_)) => []
    case Ref(PtrTarget(p)) => LiteralVars(p)
    case Call(_, ps, _) => ArgLiterals(ps)
  }

  function ArgLiterals(ps: seq<T.Expr>): Data
    decreases ps
  {
    if ps == [] then [] else ArgLiterals(ps[..|ps| - 1]) + LiteralVars(ps[|ps| - 1])
  }

  function TargetLiterals(t: T.AssignTarget): Data
    decreases t
  {
    match t.kind
    case LocalTarget(_) => []
    case PtrTarget(p) => LiteralVars(p)
  }

  /** The `Call` targets in an opcode list, in order. */
  function CallTargets(ops: seq<TaggedAsm>): seq<nat>
  {
    if ops == [] then []
    else CallTargets(ops[..|ops| - 1]) + (if ops[|ops| - 1].op.Call? then [ops[|ops| - 1].op.func] else [])
  }

  lemma {:induction false} CallTargetsAppend(a: seq<TaggedAsm>, b: seq<TaggedAsm>)
    ensures CallTargets(a + b) == CallTargets(a) + CallTargets(b)
    decreases |b|
  {
    if b != [] {
      var n := |b| - 1;
      assert (a + b)[..|a + b| - 1] == a + b[..n];
      CallTargetsAppend(a, b[..n]);
    } else {
      assert a + b == a;
    }
  }

  // ---------------------------------------------------------------------------
  // Translation (translate_expr, translate_assign, translate_statement)
  // ---------------------------------------------------------------------------

  /** `(param_count as i16 * -1) - 1`: the return slot, in 16-bit wrap-around arithmetic. */
  function RetIndex(paramCount: nat): (r: int)
    ensures -0x8000 <= r < 0x8000
  {
    var p := ToSigned(Wrap(paramCount, TWO_16), TWO_16);
    ToSigned(Wrap(-p - 1, TWO_16), TWO_16)
  }

  /** Below 2^15 parameters the return slot sits just below the parameters. */
  lemma RetIndexBelowParams(paramCount: nat)
    requires paramCount < 0x8000
    ensures RetIndex(paramCount) == -(paramCount as int) - 1
  {
  }

  /** `params.len() as i32`: the argument count pushed for a varargs call. */
  function VarargsCount(n: nat): (r: int)
    ensures n < 0x8000_0000 ==> r == n
  {
    ToSigned(Wrap(n, TWO_32), TWO_32)
  }

  function Then(r: Result<Emitted, AsmError>, tail: seq<TaggedAsm>): Result<Emitted, AsmError>
  {
    match r
    case Err(err) => Err(err)
    case Ok(x) => Ok(Emitted(x.ops + tail, x.data))
  }

  function Prepend(head: seq<TaggedAsm>, r: Result<Emitted, AsmError>): Result<Emitted, AsmError>
  {
    match r
    case Err(err) => Err(err)
    case Ok(x) => Ok(Emitted(head + x.ops, x.data))
  }

  /** A translation between fixed opcodes. */
  function Enclose(head: seq<TaggedAsm>, r: Result<Emitted, AsmError>, tail: seq<TaggedAsm>): Result<Emitted, AsmError>
  {
    Then(Prepend(head, r), tail)
  }

  /** `n` copies of one opcode. */
  function Repeat(t: TaggedAsm, n: nat): (r: seq<TaggedAsm>)
    ensures |r| == n && forall i :: 0 <= i < n ==> r[i] == t
  {
    if n == 0 then [] else Repeat(t, n - 1) + [t]
  }

  /** The opcodes after a call's arguments: the varargs count, `Call`, and the stack clean-up. */
  function CallTail(f: nat, returnSize: nat, argc: nat, varargs: bool, loc: M.CodeLoc): seq<TaggedAsm>
  {
    VarargsPrologue(argc, varargs, loc) + [TaggedAsm(Call(f), loc)] + CallCleanup(returnSize, argc, varargs, loc)
  }

  /** For a varargs call, a 4-byte slot holding the argument count. */
  function VarargsPrologue(argc: nat, varargs: bool, loc: M.CodeLoc): (r: seq<TaggedAsm>)
    ensures forall i :: 0 <= i < |r| ==> !r[i].op.Call?
  {
    if varargs
    then [TaggedAsm(StackAlloc(4), loc), TaggedAsm(MakeTempInt32(VarargsCount(argc)), loc),
          TaggedAsm(PopIntoTopVar(0, 4), loc)]
    else []
  }

  /** One `StackDealloc` per argument slot, then the return slot is dropped or moved to the temporaries. */
  function CallCleanup(returnSize: nat, argc: nat, varargs: bool, loc: M.CodeLoc): (r: seq<TaggedAsm>)
    ensures forall i :: 0 <= i < |r| ==> !r[i].op.Call?
  {
    Repeat(TaggedAsm(StackDealloc, loc), argc + (if varargs then 1 else 0))
    + [TaggedAsm(if returnSize == 0 then StackDealloc else StackAddToTemp, loc)]
  }

  function BinaryOp(k: T.ExprKind): AsmOp
    requires k.AddI32? || k.AddU64? || k.SubI32?
  {
    if k.AddI32? then AddU32 else if k.AddU64? then AddU64 else SubI32
  }

  /** The expression kinds with one operand, followed by their own opcodes. */
  predicate IsUnary(k: T.ExprKind)
  {
    k.SConv8To32? || k.SConv32To64? || k.ZConv8To32? || k.ZConv32To64?
    || k.Member? || k.PtrMember? || k.Deref?
  }

  function Operand(e: T.Expr): (x: T.Expr)
    requires IsUnary(e.kind)
    ensures x < e
  {
    match e.kind
    case SConv8To32(x) => x
    case SConv32To64(x) => x
    case ZConv8To32(x) => x
    case ZConv32To64(x) => x
    case Member(base, _) => base
    case PtrMember(base, _) => base
    case Deref(p) => p
  }

  /** What follows the operand: the conversion, the member extraction, or the load. */
  function UnaryTail(e: T.Expr): (tail: seq<TaggedAsm>)
    requires IsUnary(e.kind)
    ensures forall i :: 0 <= i < |tail| ==> !tail[i].op.Call?
  {
    match e.kind
    case SConv8To32(_) => [TaggedAsm(SExtend8To32, e.loc)]
    case SConv32To64(_) => [TaggedAsm(SExtend32To64, e.loc)]
    case ZConv8To32(_) => [TaggedAsm(ZExtend8To32, e.loc)]
    case ZConv32To64(_) => [TaggedAsm(ZExtend32To64, e.loc)]
    case Member(base, offset) =>
      // `base_bytes - want_bytes - offset` in u32 arithmetic
      [TaggedAsm(Pop(Wrap(base.size - e.size - offset, TWO_32)), e.loc), TaggedAsm(PopKeep(offset, e.size), e.loc)]
    case PtrMember(_, offset) => [TaggedAsm(Get(offset, e.size), e.loc)]
    case Deref(_) => [TaggedAsm(Get(0, e.size), e.loc)]
  }

  /**
   * `translate_expr`: the opcodes of `e` and the data section after it.
   * `types` holds each function's return size (`func_types`).
   */
  function TranslateExpr(types: map<nat, nat>, data: Data, e: T.Expr): (r: Result<Emitted, AsmError>)
    decreases e, 2
  {
    match e.kind
    case Uninit => Ok(Emitted([TaggedAsm(PushUndef(e.size), e.loc)], data))
    case IntLiteral(v) => Ok(Emitted([TaggedAsm(MakeTempInt32(v), e.loc)], data))
    case StringLiteral(text) => Ok(Emitted([TaggedAsm(MakeTempBinaryPtr(|data|, 0), e.loc)], data + [text + [0]]))
    case LocalIdent(v) => Ok(Emitted([TaggedAsm(GetLocal(v, 0, e.size), e.loc)], data))
    case AddI32(_, _) => TranslateBinary(types, data, e)
    case AddU64(_, _) => TranslateBinary(types, data, e)
    case SubI32(_, _) => TranslateBinary(types, data, e)
    case SConv8To32(_) => TranslateUnary(types, data, e)
    case SConv32To64(_) => TranslateUnary(types, data, e)
    case ZConv8To32(_) => TranslateUnary(types, data, e)
    case ZConv32To64(_) => TranslateUnary(types, data, e)
    case Assign(_, _) => TranslateAssignment(types, data, e)
    case Member(_, _) => TranslateUnary(types, data, e)
    case PtrMember(_, _) => TranslateUnary(types, data, e)
    case Deref(_) => TranslateUnary(types, data, e)
    case Ref(LocalTarget(v)) => Ok(Emitted([TaggedAsm(MakeTempLocalStackPtr(v, 0), e.loc)], data))
    case Ref(PtrTarget(p)) => TranslateExpr(types, data, p)
    case Call(_, _, _) => TranslateCall(types, data, e)
  }

  /** The operand, then the expression's own opcodes. */
  function TranslateUnary(types: map<nat, nat>, data: Data, e: T.Expr): (r: Result<Emitted, AsmError>)
    requires IsUnary(e.kind)
    decreases e, 1
  {
    Then(TranslateExpr(types, data, Operand(e)), UnaryTail(e))
  }

  /** The value, then the store into the target. */
  function TranslateAssignment(types: map<nat, nat>, data: Data, e: T.Expr): (r: Result<Emitted, AsmError>)
    requires e.kind.Assign?
    decreases e, 1
  {
    match TranslateExpr(types, data, e.kind.value)
    case Err(err) => Err(err)
    case Ok(v) => Prepend(v.ops, TranslateAssign(types, v.data, e.kind.target))
  }

  /** The return slot, the arguments, and the call with its clean-up. */
  function TranslateCall(types: map<nat, nat>, data: Data, e: T.Expr): (r: Result<Emitted, AsmError>)
    requires e.kind.Call?
    decreases e, 1
  {
    var f := e.kind.func;
    if f !in types then Err(UnknownReturnSize(f))
    else
      Then(Prepend([TaggedAsm(StackAlloc(types[f]), e.loc)], TranslateArgs(types, data, e, |e.kind.params|)),
           CallTail(f, types[f], |e.kind.params|, e.kind.varargs, e.loc))
  }

  /** Both operands, left then right, then the operator. */
  function TranslateBinary(types: map<nat, nat>, data: Data, e: T.Expr): (r: Result<Emitted, AsmError>)
    requires e.kind.AddI32? || e.kind.AddU64? || e.kind.SubI32?
    decreases e, 1
  {
    match TranslateExpr(types, data, e.kind.l)
    case Err(err) => Err(err)
    case Ok(a) =>
      match TranslateExpr(types, a.data, e.kind.r)
      case Err(err) => Err(err)
      case Ok(b) => Ok(Emitted(a.ops + b.ops + [TaggedAsm(BinaryOp(e.kind), e.loc)], b.data))
  }

  /** The first `n` arguments of call `e`: each one allocated, computed and moved into its slot. */
  function TranslateArgs(types: map<nat, nat>, data: Data, e: T.Expr, n: nat): (r: Result<Emitted, AsmError>)
    requires e.kind.Call? && n <= |e.kind.params|
    decreases e, 0, n
  {
    if n == 0 then Ok(Emitted([], data))
    else AddArg(types, TranslateArgs(types, data, e, n - 1), e.kind.params[n - 1], e.loc)
  }

  /** After the earlier arguments, one more: `StackAlloc`, its opcodes, `PopIntoTopVar`. */
  function AddArg(types: map<nat, nat>, prev: Result<Emitted, AsmError>, p: T.Expr, loc: M.CodeLoc): (r: Result<Emitted, AsmError>)
    decreases p, 3
  {
    match prev
    case Err(err) => Err(err)
    case Ok(before) =>
      Prepend(before.ops, Enclose([TaggedAsm(StackAlloc(p.size), loc)], TranslateExpr(types, before.data, p),
                                  [TaggedAsm(PopIntoTopVar(0, p.size), loc)]))
  }

  /** `translate_assign`: with the value on top, store a copy of it into the target. */
  function TranslateAssign(types: map<nat, nat>, data: Data, t: T.AssignTarget): (r: Result<Emitted, AsmError>)
    decreases t
  {
    match t.kind
    case PtrTarget(p) =>
      Enclose([TaggedAsm(PushDup(t.size), t.loc)], TranslateExpr(types, data, p), [TaggedAsm(Set(0, t.size), t.loc)])
    case LocalTarget(v) =>
      Ok(Emitted([TaggedAsm(PushDup(t.size), t.loc), TaggedAsm(SetLocal(v, t.offset, t.size), t.loc)], data))
  }

  /**
   * What a translation `r` that started from data section `data` did: it
   * succeeded exactly when every callee in `calls` has a known return size,
   * it can only fail on an unknown callee, and on success its `Call`
   * opcodes are `calls`, in order, and it appended `lits` to the data section.
   */
  predicate Traces(r: Result<Emitted, AsmError>, types: map<nat, nat>, data: Data, calls: seq<nat>, lits: Data)
  {
    && (r.Ok? <==> forall f | f in calls :: f in types)
    && (r.Err? ==> r.error.UnknownReturnSize?)
    && (r.Ok? ==> CallTargets(r.value.ops) == calls && r.value.data == data + lits)
  }

  /** Fixed opcodes around a translation add their own `Call` targets and nothing else. */
  lemma TraceEnclose(head: seq<TaggedAsm>, r: Result<Emitted, AsmError>, tail: seq<TaggedAsm>,
                     types: map<nat, nat>, data: Data, calls: seq<nat>, lits: Data, tailCalls: seq<nat>)
    requires Traces(r, types, data, calls, lits)
    requires forall i :: 0 <= i < |head| ==> !head[i].op.Call?
    requires CallTargets(tail) == tailCalls && forall f | f in tailCalls :: f in types
    ensures Traces(Enclose(head, r, tail), types, data, calls + tailCalls, lits)
    ensures tailCalls == [] ==> Traces(Enclose(head, r, tail), types, data, calls, lits)
  {
    if r.Ok? {
      NoCallTargets(head);
      CallTargetsAppend(head, r.value.ops);
      CallTargetsAppend(head + r.value.ops, tail);
      assert [] + calls == calls && calls + [] == calls;
    }
  }

  /**
   * Translating `e` succeeds exactly when every function it calls has a
   * known return size; it then emits one `Call` per call node, in evaluation
   * order, and appends one data variable per string literal, in order.
   */
  lemma {:induction false} TranslateExprTrace(types: map<nat, nat>, data: Data, e: T.Expr)
    ensures Traces(TranslateExpr(types, data, e), types, data, CallsOf(e), LiteralVars(e))
    decreases e, 2
  {
    if IsLeaf(e.kind) {
      LeafTrace(types, data, e);
    } else if e.kind.AddI32? || e.kind.AddU64? || e.kind.SubI32? {
      BinaryTrace(types, data, e);
    } else if IsUnary(e.kind) {
      UnaryTrace(types, data, e);
    } else if e.kind.Assign? {
      AssignmentTrace(types, data, e);
    } else if e.kind.Ref? {
      var p := e.kind.lvalue.ptr;
      TranslateExprTrace(types, data, p);
      assert TranslateExpr(types, data, e) == TranslateExpr(types, data, p);
      assert CallsOf(e) == CallsOf(p) && LiteralVars(e) == LiteralVars(p);
    } else {
      CallTrace(types, data, e);
    }
  }

  /** The expression kinds that emit one opcode and translate nothing else. */
  predicate IsLeaf(k: T.ExprKind)
  {
    k.Uninit? || k.IntLiteral? || k.StringLiteral? || k.LocalIdent? || (k.Ref? && k.lvalue.LocalTarget?)
  }

  lemma LeafTrace(types: map<nat, nat>, data: Data, e: T.Expr)
    requires IsLeaf(e.kind)
    ensures Traces(TranslateExpr(types, data, e), types, data, CallsOf(e), LiteralVars(e))
  {
    var r := TranslateExpr(types, data, e);
    assert |r.value.ops| == 1 && !r.value.ops[0].op.Call?;
    NoCallTargets(r.value.ops);
  }

  lemma {:induction false} NoCallTargets(ops: seq<TaggedAsm>)
    requires forall i :: 0 <= i < |ops| ==> !ops[i].op.Call?
    ensures CallTargets(ops) == []
  {
    if ops != [] {
      NoCallTargets(ops[..|ops| - 1]);
    }
  }

  lemma {:induction false} UnaryTrace(types: map<nat, nat>, data: Data, e: T.Expr)
    requires IsUnary(e.kind)
    ensures Traces(TranslateExpr(types, data, e), types, data, CallsOf(e), LiteralVars(e))
    decreases e, 1
  {
    var x := Operand(e);
    assert CallsOf(e) == CallsOf(x) && LiteralVars(e) == LiteralVars(x);
    TranslateExprTrace(types, data, x);
    NoCallTargets(UnaryTail(e));
    TraceEnclose([], TranslateExpr(types, data, x), UnaryTail(e), types, data, CallsOf(x), LiteralVars(x), []);
    assert Enclose([], TranslateExpr(types, data, x), UnaryTail(e)) == TranslateUnary(types, data, e) by {
      if TranslateExpr(types, data, x).Ok? {
        assert [] + TranslateExpr(types, data, x).value.ops == TranslateExpr(types, data, x).value.ops;
      }
    }
  }

  lemma {:induction false} BinaryTrace(types: map<nat, nat>, data: Data, e: T.Expr)
    requires e.kind.AddI32? || e.kind.AddU64? || e.kind.SubI32?
    ensures Traces(TranslateExpr(types, data, e), types, data, CallsOf(e), LiteralVars(e))
    decreases e, 1
  {
    var l, r := e.kind.l, e.kind.r;
    assert CallsOf(e) == CallsOf(l) + CallsOf(r);
    assert LiteralVars(e) == LiteralVars(l) + LiteralVars(r);
    TranslateExprTrace(types, data, l);
    var a := TranslateExpr(types, data, l);
    if a.Ok? {
      TranslateExprTrace(types, a.value.data, r);
      var b := TranslateExpr(types, a.value.data, r);
      if b.Ok? {
        JoinCalls(a.value.ops, b.value.ops, [TaggedAsm(BinaryOp(e.kind), e.loc)], CallsOf(l), CallsOf(r));
        JoinData(data, a.value.data, b.value.data, LiteralVars(l), LiteralVars(r));
      }
    }
  }

  /** Two translations in a row, followed by call-free opcodes. */
  lemma JoinCalls(x: seq<TaggedAsm>, y: seq<TaggedAsm>, tail: seq<TaggedAsm>, cx: seq<nat>, cy: seq<nat>)
    requires CallTargets(x) == cx && CallTargets(y) == cy
    requires forall i :: 0 <= i < |tail| ==> !tail[i].op.Call?
    ensures CallTargets(x + y + tail) == cx + cy
  {
    NoCallTargets(tail);
    CallTargetsAppend(x, y);
    CallTargetsAppend(x + y, tail);
    assert cx + cy + [] == cx + cy;
  }

  /** Two opcode runs one after the other: their `Call` targets, one after the other. */
  lemma AppendCalls(x: seq<TaggedAsm>, y: seq<TaggedAsm>, cx: seq<nat>, cy: seq<nat>)
    requires CallTargets(x) == cx && CallTargets(y) == cy
    ensures CallTargets(x + y) == cx + cy
  {
    CallTargetsAppend(x, y);
  }

  /** Data variables appended by two translations in a row. */
  lemma JoinData(d0: Data, d1: Data, d2: Data, l1: Data, l2: Data)
    requires d1 == d0 + l1 && d2 == d1 + l2
    ensures d2 == d0 + (l1 + l2)
  {
  }

  lemma {:induction false} AssignmentTrace(types: map<nat, nat>, data: Data, e: T.Expr)
    requires e.kind.Assign?
    ensures Traces(TranslateExpr(types, data, e), types, data, CallsOf(e), LiteralVars(e))
    decreases e, 1
  {
    var value, target := e.kind.value, e.kind.target;
    assert CallsOf(e) == CallsOf(value) + TargetCalls(target);
    assert LiteralVars(e) == LiteralVars(value) + TargetLiterals(target);
    TranslateExprTrace(types, data, value);
    var v := TranslateExpr(types, data, value);
    if v.Ok? {
      TranslateAssignTrace(types, v.value.data, target);
      var a := TranslateAssign(types, v.value.data, target);
      if a.Ok? {
        CallTargetsAppend(v.value.ops, a.value.ops);
        JoinData(data, v.value.data, a.value.data, LiteralVars(value), TargetLiterals(target));
      }
    }
  }

  lemma {:induction false} CallTrace(types: map<nat, nat>, data: Data, e: T.Expr)
    requires e.kind.Call?
    ensures Traces(TranslateExpr(types, data, e), types, data, CallsOf(e), LiteralVars(e))
    decreases e, 1
  {
    var f, params := e.kind.func, e.kind.params;
    assert CallsOf(e) == ArgCalls(params) + [f];
    assert LiteralVars(e) == ArgLiterals(params);
    TranslateArgsTrace(types, data, e, |params|);
    assert params[..|params|] == params;
    if f in types {
      var tail := CallTail(f, types[f], |params|, e.kind.varargs, e.loc);
      CallTailTargets(f, types[f], |params|, e.kind.varargs, e.loc);
      TraceEnclose([TaggedAsm(StackAlloc(types[f]), e.loc)], TranslateArgs(types, data, e, |params|), tail,
                   types, data, ArgCalls(params), ArgLiterals(params), [f]);
    }
  }

  lemma CallTailTargets(f: nat, returnSize: nat, argc: nat, varargs: bool, loc: M.CodeLoc)
    ensures CallTargets(CallTail(f, returnSize, argc, varargs, loc)) == [f]
  {
    var pre := VarargsPrologue(argc, varargs, loc);
    var call := [TaggedAsm(Call(f), loc)];
    var post := CallCleanup(returnSize, argc, varargs, loc);
    NoCallTargets(pre);
    NoCallTargets(post);
    CallTargetsAppend(pre, call);
    CallTargetsAppend(pre + call, post);
    assert CallTargets(call) == [f] by {
      assert call[..0] == [];
    }
  }

  lemma {:induction false} TranslateArgsTrace(types: map<nat, nat>, data: Data, e: T.Expr, n: nat)
    requires e.kind.Call? && n <= |e.kind.params|
    ensures Traces(TranslateArgs(types, data, e, n), types, data, ArgCalls(e.kind.params[..n]), ArgLiterals(e.kind.params[..n]))
    decreases e, 0, n
  {
    var ps := e.kind.params[..n];
    if n > 0 {
      var p := e.kind.params[n - 1];
      var before := e.kind.params[..n - 1];
      assert ps[..n - 1] == before && ps[n - 1] == p;
      assert ArgCalls(ps) == ArgCalls(before) + CallsOf(p);
      assert ArgLiterals(ps) == ArgLiterals(before) + LiteralVars(p);
      TranslateArgsTrace(types, data, e, n - 1);
      AddArgTrace(types, data, TranslateArgs(types, data, e, n - 1), p, e.loc, ArgCalls(before), ArgLiterals(before));
    }
  }

  lemma AddArgTrace(types: map<nat, nat>, data: Data, prev: Result<Emitted, AsmError>, p: T.Expr, loc: M.CodeLoc,
                    calls: seq<nat>, lits: Data)
    requires Traces(prev, types, data, calls, lits)
    ensures Traces(AddArg(types, prev, p, loc), types, data, calls + CallsOf(p), lits + LiteralVars(p))
    decreases p, 3
  {
    if prev.Ok? {
      var d := prev.value.data;
      TranslateExprTrace(types, d, p);
      var store := [TaggedAsm(PopIntoTopVar(0, p.size), loc)];
      NoCallTargets(store);
      var x := Enclose([TaggedAsm(StackAlloc(p.size), loc)], TranslateExpr(types, d, p), store);
      TraceEnclose([TaggedAsm(StackAlloc(p.size), loc)], TranslateExpr(types, d, p), store, types, d, CallsOf(p), LiteralVars(p), []);
      if x.Ok? {
        AppendCalls(prev.value.ops, x.value.ops, calls, CallsOf(p));
        JoinData(data, d, x.value.data, lits, LiteralVars(p));
      }
    }
  }

  lemma {:induction false} TranslateAssignTrace(types: map<nat, nat>, data: Data, t: T.AssignTarget)
    ensures Traces(TranslateAssign(types, data, t), types, data, TargetCalls(t), TargetLiterals(t))
    decreases t
  {
    match t.kind
    case PtrTarget(p) =>
      TranslateExprTrace(types, data, p);
      NoCallTargets([TaggedAsm(Set(0, t.size), t.loc)]);
      TraceEnclose([TaggedAsm(PushDup(t.size), t.loc)], TranslateExpr(types, data, p), [TaggedAsm(Set(0, t.size), t.loc)],
                   types, data, CallsOf(p), LiteralVars(p), []);
    case LocalTarget(v) =>
      NoCallTargets([TaggedAsm(PushDup(t.size), t.loc), TaggedAsm(SetLocal(v, t.offset, t.size), t.loc)]);
  }

  /** A string literal is stored with one 0 byte after it, and a pointer to it is pushed. */
  lemma StringLiteralStored(types: map<nat, nat>, data: Data, e: T.Expr)
    requires e.kind.StringLiteral?
    ensures TranslateExpr(types, data, e).Ok?
    ensures TranslateExpr(types, data, e).value.ops == [TaggedAsm(MakeTempBinaryPtr(|data|, 0), e.loc)]
    ensures var d := TranslateExpr(types, data, e).value.data;
            |d| == |data| + 1 && d[..|data|] == data && d[|data|] == e.kind.text + [0]
  {
  }

  /** Binary operators are emitted in post-order: left operand, right operand, operator. */
  lemma BinaryPostOrder(types: map<nat, nat>, data: Data, e: T.Expr)
    requires e.kind.AddI32? || e.kind.AddU64? || e.kind.SubI32?
    requires TranslateExpr(types, data, e).Ok?
    ensures var a := TranslateExpr(types, data, e.kind.l);
            a.Ok? && TranslateExpr(types, a.value.data, e.kind.r).Ok?
            && TranslateExpr(types, data, e).value.ops
               == a.value.ops + TranslateExpr(types, a.value.data, e.kind.r).value.ops
                  + [TaggedAsm(BinaryOp(e.kind), e.loc)]
  {
  }

  /** A call allocates the return slot, passes its arguments in order, calls, and cleans up. */
  lemma CallLayout(types: map<nat, nat>, data: Data, e: T.Expr)
    requires e.kind.Call? && TranslateExpr(types, data, e).Ok?
    ensures e.kind.func in types
    ensures var args := TranslateArgs(types, data, e, |e.kind.params|);
            var f := e.kind.func;
            args.Ok?
            && TranslateExpr(types, data, e).value.ops
               == [TaggedAsm(StackAlloc(types[f]), e.loc)] + args.value.ops
                  + CallTail(f, types[f], |e.kind.params|, e.kind.varargs, e.loc)
  {
  }

  /** `translate_statement`. */
  function TranslateStmt(types: map<nat, nat>, data: Data, paramCount: nat, s: T.Stmt): (r: Result<Emitted, AsmError>)
  {
    match s.kind
    case RetVal(e) =>
      Enclose([], TranslateExpr(types, data, e),
              [TaggedAsm(SetLocal(RetIndex(paramCount), 0, e.size), s.loc), TaggedAsm(Ret, s.loc)])
    case Ret => Ok(Emitted([TaggedAsm(Ret, s.loc)], data))
    case ExprStmt(e) => Enclose([], TranslateExpr(types, data, e), [TaggedAsm(Pop(e.size), s.loc)])
    case Decl(init) =>
      Enclose([TaggedAsm(StackAlloc(init.size), s.loc)], TranslateExpr(types, data, init),
              [TaggedAsm(PopIntoTopVar(0, init.size), s.loc)])
  }

  function StmtCalls(s: T.Stmt): seq<nat>
  {
    match s.kind
    case RetVal(e) => CallsOf(e)
    case Ret => []
    case ExprStmt(e) => CallsOf(e)
    case Decl(init) => CallsOf(init)
  }

  function StmtLiterals(s: T.Stmt): Data
  {
    match s.kind
    case RetVal(e) => LiteralVars(e)
    case Ret => []
    case ExprStmt(e) => LiteralVars(e)
    case Decl(init) => LiteralVars(init)
  }

  /** Statement translation fails only on an unknown callee, and keeps calls and literals in order. */
  lemma TranslateStmtTrace(types: map<nat, nat>, data: Data, paramCount: nat, s: T.Stmt)
    ensures Traces(TranslateStmt(types, data, paramCount, s), types, data, StmtCalls(s), StmtLiterals(s))
  {
    match s.kind
    case RetVal(e) =>
      var tail := [TaggedAsm(SetLocal(RetIndex(paramCount), 0, e.size), s.loc), TaggedAsm(Ret, s.loc)];
      TranslateExprTrace(types, data, e);
      NoCallTargets(tail);
      TraceEnclose([], TranslateExpr(types, data, e), tail, types, data, CallsOf(e), LiteralVars(e), []);
    case Ret =>
      NoCallTargets([TaggedAsm(Ret, s.loc)]);
    case ExprStmt(e) =>
      TranslateExprTrace(types, data, e);
      NoCallTargets([TaggedAsm(Pop(e.size), s.loc)]);
      TraceEnclose([], TranslateExpr(types, data, e), [TaggedAsm(Pop(e.size), s.loc)], types, data, CallsOf(e), LiteralVars(e), []);
    case Decl(init) =>
      var tail := [TaggedAsm(PopIntoTopVar(0, init.size), s.loc)];
      TranslateExprTrace(types, data, init);
      NoCallTargets(tail);
      TraceEnclose([TaggedAsm(StackAlloc(init.size), s.loc)], TranslateExpr(types, data, init), tail,
                   types, data, CallsOf(init), LiteralVars(init), []);
  }



  /**
   * The statement layouts: a `return e` stores the value below the
   * parameters and returns, an expression statement pops its value, a
   * declaration allocates its slot before computing the initialiser.
   */
  lemma StmtLayout(types: map<nat, nat>, data: Data, paramCount: nat, s: T.Stmt)
    requires TranslateStmt(types, data, paramCount, s).Ok?
    ensures s.kind.RetVal? ==>
              TranslateStmt(types, data, paramCount, s).value.ops
              == TranslateExpr(types, data, s.kind.value).value.ops
                 + [TaggedAsm(SetLocal(RetIndex(paramCount), 0, s.kind.value.size), s.loc), TaggedAsm(Ret, s.loc)]
    ensures s.kind.Ret? ==> TranslateStmt(types, data, paramCount, s).value.ops == [TaggedAsm(Ret, s.loc)]
    ensures s.kind.ExprStmt? ==>
              TranslateStmt(types, data, paramCount, s).value.ops
              == TranslateExpr(types, data, s.kind.expr).value.ops + [TaggedAsm(Pop(s.kind.expr.size), s.loc)]
    ensures s.kind.Decl? ==>
              TranslateStmt(types, data, paramCount, s).value.ops
              == [TaggedAsm(StackAlloc(s.kind.init.size), s.loc)] + TranslateExpr(types, data, s.kind.init).value.ops
                 + [TaggedAsm(PopIntoTopVar(0, s.kind.init.size), s.loc)]
  {
  }

  /** The statements of a body, translated one after another. */
  function TranslateStmts(types: map<nat, nat>, data: Data, paramCount: nat, ss: seq<T.Stmt>): (r: Result<Emitted, AsmError>)
  {
    if ss == [] then Ok(Emitted([], data))
    else
      match TranslateStmts(types, data, paramCount, ss[..|ss| - 1])
      case Err(err) => Err(err)
      case Ok(prev) =>
        match TranslateStmt(types, prev.data, paramCount, ss[|ss| - 1])
        case Err(err) => Err(err)
        case Ok(x) => Ok(Emitted(prev.ops + x.ops, x.data))
  }

  function StmtsCalls(ss: seq<T.Stmt>): seq<nat>
  {
    if ss == [] then [] else StmtsCalls(ss[..|ss| - 1]) + StmtCalls(ss[|ss| - 1])
  }

  function StmtsLiterals(ss: seq<T.Stmt>): Data
  {
    if ss == [] then [] else StmtsLiterals(ss[..|ss| - 1]) + StmtLiterals(ss[|ss| - 1])
  }

  lemma {:induction false} TranslateStmtsTrace(types: map<nat, nat>, data: Data, paramCount: nat, ss: seq<T.Stmt>)
    ensures Traces(TranslateStmts(types, data, paramCount, ss), types, data, StmtsCalls(ss), StmtsLiterals(ss))
  {
    if ss != [] {
      var init, last := ss[..|ss| - 1], ss[|ss| - 1];
      TranslateStmtsTrace(types, data, paramCount, init);
      var prev := TranslateStmts(types, data, paramCount, init);
      if prev.Ok? {
        TranslateStmtTrace(types, prev.value.data, paramCount, last);
        var x := TranslateStmt(types, prev.value.data, paramCount, last);
        if x.Ok? {
          AppendCalls(prev.value.ops, x.value.ops, StmtsCalls(init), StmtCalls(last));
          JoinData(data, prev.value.data, x.value.data, StmtsLiterals(init), StmtLiterals(last));
        }
      }
    }
  }

  /** One more statement: its opcodes follow the earlier ones, its literals the earlier ones. */
  lemma StmtsStep(types: map<nat, nat>, data: Data, paramCount: nat, ss: seq<T.Stmt>, i: nat, acc: Emitted, x: Emitted)
    requires i < |ss| && TranslateStmts(types, data, paramCount, ss[..i]) == Ok(acc)
    requires TranslateStmt(types, acc.data, paramCount, ss[i]) == Ok(x)
    ensures TranslateStmts(types, data, paramCount, ss[..i + 1]) == Ok(Emitted(acc.ops + x.ops, x.data))
  {
    assert ss[..i + 1][..i] == ss[..i];
  }

  /** A statement that fails to translate fails the whole body, on an unknown callee. */
  lemma StmtsStopAt(types: map<nat, nat>, data: Data, paramCount: nat, ss: seq<T.Stmt>, i: nat, acc: Emitted)
    requires i < |ss| && TranslateStmts(types, data, paramCount, ss[..i]) == Ok(acc)
    requires TranslateStmt(types, acc.data, paramCount, ss[i]).Err?
    ensures TranslateStmts(types, data, paramCount, ss) == TranslateStmt(types, acc.data, paramCount, ss[i])
    ensures TranslateStmt(types, acc.data, paramCount, ss[i]).error.UnknownReturnSize?
  {
    TranslateStmtTrace(types, acc.data, paramCount, ss[i]);
    assert ss[..i + 1][..i] == ss[..i];
    StmtsFirstError(types, data, paramCount, ss, i + 1);
  }

  lemma AppendAssoc(a: seq<TaggedAsm>, b: seq<TaggedAsm>, c: seq<TaggedAsm>)
    ensures a + b + c == a + (b + c)
  {
  }

  /** Once a prefix of the body fails, the whole body fails with the same error. */
  lemma {:induction false} StmtsFirstError(types: map<nat, nat>, data: Data, paramCount: nat, ss: seq<T.Stmt>, k: nat)
    requires k <= |ss| && TranslateStmts(types, data, paramCount, ss[..k]).Err?
    ensures TranslateStmts(types, data, paramCount, ss) == TranslateStmts(types, data, paramCount, ss[..k])
    decreases |ss| - k
  {
    if k == |ss| {
      assert ss[..k] == ss;
    } else {
      assert ss[..k + 1][..k] == ss[..k];
      StmtsFirstError(types, data, paramCount, ss, k + 1);
    }
  }

  // ---------------------------------------------------------------------------
  // Functions (add_function)
  // ---------------------------------------------------------------------------

  /** Where a defined function's code starts, and the location of its definition. */
  type Header = (nat, M.CodeLoc)

  datatype AsmFunc = AsmFunc(funcType: T.FuncType, header: Option<Header>)

  /** The assembler's state: the opcodes so far, return sizes, data section and functions. */
  datatype Asm = Asm(opcodes: seq<TaggedAsm>, funcTypes: map<nat, nat>, data: Data, functions: map<nat, AsmFunc>)

  /** The type and header `add_function` starts from: the recorded ones, or the new type and none. */
  function Existing(a: Asm, ident: nat, func: T.TypedFunc): (r: Result<AsmFunc, AsmError>)
    ensures r.Err? <==> ident in a.functions && !T.SameSignature(a.functions[ident].funcType, func.funcType)
  {
    if ident in a.functions then
      var old_ := a.functions[ident];
      if !T.SameSignature(old_.funcType, func.funcType)
      then Err(FuncDeclMismatch(old_.funcType.loc, func.funcType.loc))
      else Ok(old_)
    else Ok(AsmFunc(func.funcType, None))
  }

  /** Lay out a definition: `Func`, the statements, `Ret`; record its header. */
  function AddDefinition(a: Asm, ident: nat, known: AsmFunc, defn: T.FuncDefn): (r: Result<Asm, AsmError>)
  {
    if known.header.Some? then Err(FuncRedef(known.header.value.1, defn.loc))
    else
      match TranslateStmts(a.funcTypes, a.data, |known.funcType.params|, defn.stmts)
      case Err(err) => Err(err)
      case Ok(body) =>
        Ok(Asm(a.opcodes + [TaggedAsm(Func(ident), defn.loc)] + body.ops + [TaggedAsm(Ret, defn.loc)],
               a.funcTypes, body.data,
               a.functions[ident := AsmFunc(known.funcType, Some((|a.opcodes|, defn.loc)))]))
  }

  /**
   * `add_function` as written: a declaration without a definition records
   * the function with no header, even when it was already defined.
   */
  function AddFunctionAsWritten(a: Asm, ident: nat, func: T.TypedFunc): (r: Result<Asm, AsmError>)
    ensures r.Ok? && func.defn.None? ==> ident in r.value.functions && r.value.functions[ident].header.None?
  {
    match Existing(a, ident, func)
    case Err(err) => Err(err)
    case Ok(known) =>
      if func.defn.None? then Ok(a.(functions := a.functions[ident := AsmFunc(known.funcType, None)]))
      else AddDefinition(a, ident, known, func.defn.value)
  }

  /** `add_function` with a declaration keeping whatever header the function already has. */
  function AddFunctionEffect(a: Asm, ident: nat, func: T.TypedFunc): (r: Result<Asm, AsmError>)
  {
    match Existing(a, ident, func)
    case Err(err) => Err(err)
    case Ok(known) =>
      if func.defn.None? then Ok(a.(functions := a.functions[ident := known]))
      else AddDefinition(a, ident, known, func.defn.value)
  }

  /**
   * `add_function` fails exactly on a signature mismatch with an earlier
   * declaration, on a second definition, or on an unknown callee in the body.
   */
  lemma AddFunctionOutcome(a: Asm, ident: nat, func: T.TypedFunc)
    ensures var r := AddFunctionEffect(a, ident, func);
            r.Err? && r.error.FuncDeclMismatch? <==>
              ident in a.functions && !T.SameSignature(a.functions[ident].funcType, func.funcType)
    ensures var r := AddFunctionEffect(a, ident, func);
            r.Err? && r.error.FuncRedef? <==>
              ident in a.functions && T.SameSignature(a.functions[ident].funcType, func.funcType)
              && a.functions[ident].header.Some? && func.defn.Some?
    ensures func.defn.None? ==>
              (AddFunctionEffect(a, ident, func).Ok? || AddFunctionEffect(a, ident, func).error.FuncDeclMismatch?)
  {
    var ex := Existing(a, ident, func);
    if ex.Ok? && func.defn.Some? && ex.value.header.None? {
      TranslateStmtsTrace(a.funcTypes, a.data, |ex.value.funcType.params|, func.defn.value.stmts);
    }
  }


  /** A declaration emits nothing and records the function's type and existing header. */
  lemma DeclarationEmitsNothing(a: Asm, ident: nat, func: T.TypedFunc)
    requires func.defn.None? && AddFunctionEffect(a, ident, func).Ok?
    ensures var r := AddFunctionEffect(a, ident, func).value;
            r.opcodes == a.opcodes && r.data == a.data && r.funcTypes == a.funcTypes
            && ident in r.functions
            && r.functions[ident].header == (if ident in a.functions then a.functions[ident].header else None)
            && (forall g | g in a.functions && g != ident :: g in r.functions && r.functions[g] == a.functions[g])
  {
  }

  /**
   * A definition is laid out after everything emitted so far: `Func(ident)`
   * at the recorded header index, the statements' opcodes, then `Ret`.  The
   * calls it emits are exactly those of its statements, in order.
   */
  lemma DefinitionLayout(a: Asm, ident: nat, func: T.TypedFunc)
    requires func.defn.Some? && AddFunctionEffect(a, ident, func).Ok?
    ensures var r := AddFunctionEffect(a, ident, func).value;
            var defn := func.defn.value;
            var n := |a.opcodes|;
            var body := TranslateStmts(a.funcTypes, a.data, |r.functions[ident].funcType.params|, defn.stmts);
            body.Ok?
            && r.opcodes == a.opcodes + [TaggedAsm(Func(ident), defn.loc)] + body.value.ops + [TaggedAsm(Ret, defn.loc)]
            && r.opcodes[n] == TaggedAsm(Func(ident), defn.loc)
            && r.opcodes[|r.opcodes| - 1] == TaggedAsm(Ret, defn.loc)
            && r.functions[ident].header == Some((n, defn.loc))
            && CallTargets(r.opcodes) == CallTargets(a.opcodes) + StmtsCalls(defn.stmts)
            && r.data == a.data + StmtsLiterals(defn.stmts)
  {
    var r := AddFunctionEffect(a, ident, func).value;
    var defn := func.defn.value;
    var known := Existing(a, ident, func).value;
    var body := TranslateStmts(a.funcTypes, a.data, |known.funcType.params|, defn.stmts);
    TranslateStmtsTrace(a.funcTypes, a.data, |known.funcType.params|, defn.stmts);
    FrameCalls(a.opcodes, [TaggedAsm(Func(ident), defn.loc)], body.value.ops, [TaggedAsm(Ret, defn.loc)],
               CallTargets(a.opcodes), StmtsCalls(defn.stmts));
  }

  /** A body framed by call-free opcodes after earlier code: the earlier calls, then the body's. */
  lemma FrameCalls(prefix: seq<TaggedAsm>, head: seq<TaggedAsm>, body: seq<TaggedAsm>, tail: seq<TaggedAsm>,
                   cp: seq<nat>, cb: seq<nat>)
    requires CallTargets(prefix) == cp && CallTargets(body) == cb
    requires forall i :: 0 <= i < |head| ==> !head[i].op.Call?
    requires forall i :: 0 <= i < |tail| ==> !tail[i].op.Call?
    ensures CallTargets(prefix + head + body + tail) == cp + cb
  {
    NoCallTargets(head);
    NoCallTargets(tail);
    CallTargetsAppend(prefix, head);
    CallTargetsAppend(prefix + head, body);
    CallTargetsAppend(prefix + head + body, tail);
    assert cp + [] + cb + [] == cp + cb;
  }

  // ---------------------------------------------------------------------------
  // Call resolution (assemble)
  // ---------------------------------------------------------------------------

  /** A callee can be linked: it is known and either defined or a library symbol. */
  predicate Resolvable(functions: map<nat, AsmFunc>, lib: set<nat>, f: nat)
  {
    f in functions && (functions[f].header.Some? || f in lib)
  }

  /** Rewrite one opcode: a `Call` goes to its callee's header, or becomes a `LibCall`. */
  function PatchCall(functions: map<nat, AsmFunc>, lib: set<nat>, t: TaggedAsm): (r: Result<TaggedAsm, AsmError>)
  {
    if !t.op.Call? then Ok(t)
    else if t.op.func !in functions then Err(UnknownFunction(t.op.func))
    else
      var function_ := functions[t.op.func];
      if function_.header.Some? then Ok(t.(op := Call(function_.header.value.0)))
      else if t.op.func in lib then Ok(t.(op := LibCall(t.op.func)))
      else Err(NoDefinition(t.loc, function_.funcType.loc))
  }

  function PatchCalls(functions: map<nat, AsmFunc>, lib: set<nat>, ops: seq<TaggedAsm>): (r: Result<seq<TaggedAsm>, AsmError>)
    ensures r.Ok? ==> |r.value| == |ops|
  {
    if ops == [] then Ok([])
    else
      match PatchCalls(functions, lib, ops[..|ops| - 1])
      case Err(err) => Err(err)
      case Ok(done) =>
        match PatchCall(functions, lib, ops[|ops| - 1])
        case Err(err) => Err(err)
        case Ok(t) => Ok(done + [t])
  }

  /** The linked program: opcodes, data section, and where `main` starts. */
  datatype Linked = Linked(ops: seq<TaggedAsm>, data: Data, mainIdx: nat)

  /** `assemble`: find `main`'s header, then resolve every call. */
  function AssembleEffect(a: Asm, main: nat, lib: set<nat>): (r: Result<Linked, AsmError>)
    ensures r.Ok? ==> main in a.functions && a.functions[main].header.Some?
                      && r.value.mainIdx == a.functions[main].header.value.0
  {
    if main !in a.functions || a.functions[main].header.None? then Err(MissingMain)
    else
      match PatchCalls(a.functions, lib, a.opcodes)
      case Err(err) => Err(err)
      case Ok(ops) => Ok(Linked(ops, a.data, a.functions[main].header.value.0))
  }

  /**
   * Resolution succeeds exactly when every called function can be linked;
   * each `Call` then points at its callee's header (or became a `LibCall`
   * of a library symbol without one) and every other opcode is unchanged.
   */
  lemma {:induction false} PatchCallsResolved(functions: map<nat, AsmFunc>, lib: set<nat>, ops: seq<TaggedAsm>)
    ensures PatchCalls(functions, lib, ops).Ok?
            <==> forall j :: 0 <= j < |ops| && ops[j].op.Call? ==> Resolvable(functions, lib, ops[j].op.func)
    ensures PatchCalls(functions, lib, ops).Ok? ==>
              forall j :: 0 <= j < |ops| ==> PatchCall(functions, lib, ops[j]) == Ok(PatchCalls(functions, lib, ops).value[j])
  {
    if ops != [] {
      var init := ops[..|ops| - 1];
      PatchCallsResolved(functions, lib, init);
      assert forall j :: 0 <= j < |init| ==> init[j] == ops[j];
    }
  }

  lemma PatchCallMeaning(functions: map<nat, AsmFunc>, lib: set<nat>, t: TaggedAsm)
    requires PatchCall(functions, lib, t).Ok?
    ensures var p := PatchCall(functions, lib, t).value;
            p.loc == t.loc
            && (!t.op.Call? ==> p == t)
            && (t.op.Call? && functions[t.op.func].header.Some? ==> p.op == Call(functions[t.op.func].header.value.0))
            && (t.op.Call? && functions[t.op.func].header.None? ==> t.op.func in lib && p.op == LibCall(t.op.func))
  {
  }

  /** Once a prefix fails to resolve, the whole list fails with the same error. */
  lemma {:induction false} PatchFirstError(functions: map<nat, AsmFunc>, lib: set<nat>, ops: seq<TaggedAsm>, k: nat)
    requires k <= |ops| && PatchCalls(functions, lib, ops[..k]).Err?
    ensures PatchCalls(functions, lib, ops) == PatchCalls(functions, lib, ops[..k])
    decreases |ops| - k
  {
    if k == |ops| {
      assert ops[..k] == ops;
    } else {
      assert ops[..k + 1][..k] == ops[..k];
      PatchFirstError(functions, lib, ops, k + 1);
    }
  }

  // ---------------------------------------------------------------------------
  // The discrepancy in add_function
  // ---------------------------------------------------------------------------

  /** As written, declaring an already-defined function again forgets its definition. */
  lemma DeclarationAfterDefinition(a: Asm, ident: nat, func: T.TypedFunc)
    requires ident in a.functions && a.functions[ident].header.Some?
    requires func.defn.None? && T.SameSignature(a.functions[ident].funcType, func.funcType)
    ensures AddFunctionAsWritten(a, ident, func).Ok? && AddFunctionAsWritten(a, ident, func).value.functions[ident].header.None?
    ensures AddFunctionEffect(a, ident, func).Ok?
            && AddFunctionEffect(a, ident, func).value.functions[ident].header == a.functions[ident].header
  {
  }

  /**
   * The concrete case: `int main() {}` followed by a declaration `int main();`
   * (say from a second file).  As written, `assemble` then reports a missing
   * `main`; keeping the header links the program.
   */
  lemma MainDeclaredAfterDefinition()
    ensures var loc := M.CodeLoc(0, 0, 0);
            var ty := T.FuncType(4, [], false, loc);
            var a0 := Asm([], map[], [], map[]);
            var a1 := AddFunctionEffect(a0, 0, T.TypedFunc(ty, Some(T.FuncDefn([], loc))));
            a1.Ok?
            && AddFunctionAsWritten(a1.value, 0, T.TypedFunc(ty, None)).Ok?
            && AssembleEffect(AddFunctionAsWritten(a1.value, 0, T.TypedFunc(ty, None)).value, 0, {}) == Err(MissingMain)
            && AddFunctionEffect(a1.value, 0, T.TypedFunc(ty, None)).Ok?
            && AssembleEffect(AddFunctionEffect(a1.value, 0, T.TypedFunc(ty, None)).value, 0, {})
               == Ok(Linked([TaggedAsm(Func(0), loc), TaggedAsm(Ret, loc)], [], 0))
  {
    var loc := M.CodeLoc(0, 0, 0);
    var ty := T.FuncType(4, [], false, loc);
    var a0 := Asm([], map[], [], map[]);
    var a1 := AddFunctionEffect(a0, 0, T.TypedFunc(ty, Some(T.FuncDefn([], loc))));
    var ops := [TaggedAsm(Func(0), loc), TaggedAsm(Ret, loc)];
    assert a1.value.opcodes == ops;
    var a2 := AddFunctionEffect(a1.value, 0, T.TypedFunc(ty, None)).value;
    PatchCallsResolved(a2.functions, {}, ops);
    var linked := PatchCalls(a2.functions, {}, ops).value;
    assert linked[0] == ops[0] && linked[1] == ops[1];
    assert linked == ops;
  }

  // ---------------------------------------------------------------------------
  // The assembler object
  // ---------------------------------------------------------------------------

  class Assembler {
    var opcodes: seq<TaggedAsm>
    var funcTypes: map<nat, nat>
    var data: Data
    var functions: map<nat, AsmFunc>

    function Snapshot(): Asm
      reads this
    {
      Asm(opcodes, funcTypes, data, functions)
    }

    constructor ()
      ensures Snapshot() == Asm([], map[], [], map[])
    {
      opcodes, funcTypes, data, functions := [], map[], [], map[];
    }

    /** The first loop of `add_file`: record every function's return size, later entries winning. */
    method RecordReturnSizes(funcs: seq<(nat, T.TypedFunc)>)
      modifies this
      ensures funcTypes == ReturnSizes(old(funcTypes), funcs)
      ensures opcodes == old(opcodes) && data == old(data) && functions == old(functions)
    {
      var i := 0;
      while i < |funcs|
        invariant 0 <= i <= |funcs|
        invariant funcTypes == ReturnSizes(old(funcTypes), funcs[..i])
        invariant opcodes == old(opcodes) && data == old(data) && functions == old(functions)
      {
        assert funcs[..i + 1][..i] == funcs[..i];
        funcTypes := funcTypes[funcs[i].0 := funcs[i].1.funcType.returnSize];
        i := i + 1;
      }
      assert funcs[..i] == funcs;
    }

    /** `add_function`, with a repeated declaration keeping the existing header. */
    method AddFunction(ident: nat, func: T.TypedFunc) returns (r: Result<(), AsmError>)
      modifies this
      ensures var e := AddFunctionEffect(old(Snapshot()), ident, func);
              (r.Ok? <==> e.Ok?) && (e.Ok? ==> Snapshot() == e.value) && (e.Err? ==> r.error == e.error)
      ensures r.Err? && (r.error.FuncDeclMismatch? || r.error.FuncRedef?) ==> Snapshot() == old(Snapshot())
    {
      ghost var a := Snapshot();
      var known: AsmFunc;
      if ident in functions {
        known := functions[ident];
        if !T.SameSignature(known.funcType, func.funcType) {
          return Err(FuncDeclMismatch(known.funcType.loc, func.funcType.loc));
        }
      } else {
        known := AsmFunc(func.funcType, None);
      }
      if func.defn.None? {
        functions := functions[ident := known];
        return Ok(());
      }
      var defn := func.defn.value;
      if known.header.Some? {
        return Err(FuncRedef(known.header.value.1, defn.loc));
      }
      var start := |opcodes|;
      opcodes := opcodes + [TaggedAsm(Func(ident), defn.loc)];
      r := EmitStatements(|known.funcType.params|, defn.stmts);
      if r.Err? {
        return;
      }
      opcodes := opcodes + [TaggedAsm(Ret, defn.loc)];
      functions := functions[ident := AsmFunc(known.funcType, Some((start, defn.loc)))];
    }

    /** `translate_statement`: the statement's opcodes; its string literals go to the data section. */
    method TranslateStatement(paramCount: nat, s: T.Stmt) returns (r: Result<seq<TaggedAsm>, AsmError>)
      modifies this
      ensures var e := TranslateStmt(funcTypes, old(data), paramCount, s);
              (r.Ok? <==> e.Ok?)
              && (e.Ok? ==> r.value == e.value.ops && data == e.value.data)
              && (e.Err? ==> r.error == e.error)
      ensures opcodes == old(opcodes) && funcTypes == old(funcTypes) && functions == old(functions)
    {
      var t := TranslateStmt(funcTypes, data, paramCount, s);
      if t.Err? {
        return Err(t.error);
      }
      data := t.value.data;
      return Ok(t.value.ops);
    }

    /** The statement loop of `add_function`: append each statement's opcodes in turn. */
    method EmitStatements(paramCount: nat, stmts: seq<T.Stmt>) returns (r: Result<(), AsmError>)
      modifies this
      ensures var e := TranslateStmts(old(funcTypes), old(data), paramCount, stmts);
              (r.Ok? <==> e.Ok?)
              && (e.Ok? ==> opcodes == old(opcodes) + e.value.ops && data == e.value.data)
              && (e.Err? ==> r.error == e.error && r.error.UnknownReturnSize?)
      ensures funcTypes == old(funcTypes) && functions == old(functions)
    {
      ghost var acc := Emitted([], data);
      var i := 0;
      while i < |stmts|
        invariant 0 <= i <= |stmts|
        invariant funcTypes == old(funcTypes) && functions == old(functions)
        invariant TranslateStmts(funcTypes, old(data), paramCount, stmts[..i]) == Ok(acc)
        invariant opcodes == old(opcodes) + acc.ops && data == acc.data
      {
        var ops := TranslateStatement(paramCount, stmts[i]);
        if ops.Err? {
          StmtsStopAt(funcTypes, old(data), paramCount, stmts, i, acc);
          return Err(ops.error);
        }
        StmtsStep(funcTypes, old(data), paramCount, stmts, i, acc, Emitted(ops.value, data));
        AppendAssoc(old(opcodes), acc.ops, ops.value);
        opcodes := opcodes + ops.value;
        acc := Emitted(acc.ops + ops.value, data);
        i := i + 1;
      }
      assert stmts[..i] == stmts;
      return Ok(());
    }

    /** `assemble`: check `main`, then rewrite the `Call` opcodes in place. */
    method Assemble(main: nat, lib: set<nat>) returns (r: Result<Linked, AsmError>)
      modifies this
      ensures r == AssembleEffect(old(Snapshot()), main, lib)
      ensures funcTypes == old(funcTypes) && data == old(data) && functions == old(functions)
    {
      if main !in functions || functions[main].header.None? {
        return Err(MissingMain);
      }
      var mainIdx := functions[main].header.value.0;
      ghost var ops0 := opcodes;
      var i := 0;
      while i < |opcodes|
        invariant 0 <= i <= |opcodes| == |ops0|
        invariant PatchCalls(functions, lib, ops0[..i]) == Ok(opcodes[..i])
        invariant opcodes[i..] == ops0[i..]
        invariant funcTypes == old(funcTypes) && data == old(data) && functions == old(functions)
      {
        assert ops0[..i + 1][..i] == ops0[..i];
        assert opcodes[i] == ops0[i] by { assert opcodes[i..][0] == ops0[i..][0]; }
        var op := opcodes[i];
        if op.op.Call? {
          var f := op.op.func;
          if f !in functions {
            PatchFirstError(functions, lib, ops0, i + 1);
            return Err(UnknownFunction(f));
          }
          var function_ := functions[f];
          if function_.header.Some? {
            opcodes := opcodes[i := op.(op := Call(function_.header.value.0))];
          } else if f in lib {
            opcodes := opcodes[i := op.(op := LibCall(f))];
          } else {
            PatchFirstError(functions, lib, ops0, i + 1);
            return Err(NoDefinition(op.loc, function_.funcType.loc));
          }
        }
        assert opcodes[..i + 1] == opcodes[..i] + [opcodes[i]];
        i := i + 1;
      }
      assert ops0[..i] == ops0 && opcodes[..i] == opcodes;
      return Ok(Linked(opcodes, data, mainIdx));
    }
  }

  /** The return sizes after recording `funcs` in order. */
  function ReturnSizes(types: map<nat, nat>, funcs: seq<(nat, T.TypedFunc)>): (r: map<nat, nat>)
    ensures forall k :: k in r <==> k in types || exists i :: 0 <= i < |funcs| && funcs[i].0 == k
  {
    if funcs == [] then types
    else
      var last := funcs[|funcs| - 1];
      var r := ReturnSizes(types, funcs[..|funcs| - 1])[last.0 := last.1.funcType.returnSize];
      assert forall i :: 0 <= i < |funcs| - 1 ==> funcs[..|funcs| - 1][i] == funcs[i];
      r
  }

  /** A function's recorded return size is the one its last entry gives. */
  lemma {:induction false} ReturnSizesLast(types: map<nat, nat>, funcs: seq<(nat, T.TypedFunc)>, i: nat)
    requires i < |funcs| && forall j :: i < j < |funcs| ==> funcs[j].0 != funcs[i].0
    ensures ReturnSizes(types, funcs)[funcs[i].0] == funcs[i].1.funcType.returnSize
  {
    if i < |funcs| - 1 {
      var init := funcs[..|funcs| - 1];
      assert init[i] == funcs[i];
      ReturnSizesLast(types, init, i);
    }
  }
}
