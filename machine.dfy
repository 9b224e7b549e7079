/**
 * The state of the stack-machine interpreter of interpreter.rs: the
 * opcodes it executes, the program it runs and the memory it works on.
 *
 * `Memory` and `VarPointer` are defined in runtime.rs, which is not part
 * of this model.  The memory here is the part the interpreter's own code
 * can be seen to use: the expression stack of bytes, `pc`, the call stack,
 * the heap and stack variables, and the program's standard output.
 */
module Machine {
  import opened Wrappers
  import opened Bytes

  type i8 = x: int | -0x80 <= x < 0x80
  type i32 = x: int | -0x8000_0000 <= x < 0x8000_0000
  type i64 = x: int | -0x8000_0000_0000_0000 <= x < 0x8000_0000_0000_0000
  type u32 = x: int | 0 <= x < 0x1_0000_0000
  type u64 = x: int | 0 <= x < 0x1_0000_0000_0000_0000

  /** `ECALL_EXIT`, `ECALL_ARGC`, `ECALL_ARGV`. */
  const ECALL_EXIT: nat := 0
  const ECALL_ARGC: nat := 1
  const ECALL_ARGV: nat := 2

  /**
   * `IError`: the errors raised by name in interpreter.rs, and one
   * constructor for every error raised inside `Memory` (a stack underflow,
   * a read past the end of a variable), whose names are not visible here.
   */
  datatype IError = Named(name: string) | MemoryFault

  datatype CodeLoc = CodeLoc(start: nat, end: nat, file: nat)

  /**
   * A call-stack entry: the frame `Memory::call` pushes, or the location
   * `run_op` records when an op fails.
   */
  datatype Frame = CallFrame(func: nat, returnPc: nat, loc: CodeLoc) | ErrorFrame(loc: CodeLoc)

  /**
   * The opcodes this model executes.  The ops that work on stack variables
   * through the frame pointer (`StackAlloc`, `StackAllocDyn`,
   * `StackDealloc`, `PushUndef`, `PopIntoTopVar`, `StackAddToTemp`,
   * `MakeTempLocalStackPtr`, `GetLocal`, `SetLocal`, `Get`, `Set`) and
   * `MakeTempF64` are not part of this model.
   */
  datatype Opcode =
    | Func(name: nat)
    | MakeTempI8(i8value: i8)
    | MakeTempI32(i32value: i32)
    | MakeTempI64(i64value: i64)
    | MakeTempU64(u64value: u64)
    | MakeTempBinaryPtr(bvar: u32, boffset: u32)
    | Pop(bytes: u32)
    | PopKeep(keep: u32, drop: u32)
    | PushDup(dupBytes: u32)
    | Swap(top: u32, bottom: u32)
    | SExtend8To16 | SExtend8To32 | SExtend8To64
    | SExtend16To32 | SExtend16To64 | SExtend32To64
    | ZExtend8To16 | ZExtend8To32 | ZExtend8To64
    | ZExtend16To32 | ZExtend16To64 | ZExtend32To64
    | AddU32 | AddU64
    | SubI32 | SubI64 | SubU64
    | MulI32
    | DivI32 | DivI64 | DivU64
    | CompLtI32 | CompLtU64 | CompLeqI32 | CompLeqU64
    | CompEq32 | CompNeq32 | CompEq64
    | MulI64 | MulU64 | ModI64
    | Jump(target: u32)
    | JumpIfZero8(z8: u32) | JumpIfZero16(z16: u32) | JumpIfZero32(z32: u32) | JumpIfZero64(z64: u32)
    | JumpIfNotZero8(n8: u32) | JumpIfNotZero16(n16: u32) | JumpIfNotZero32(n32: u32) | JumpIfNotZero64(n64: u32)
    | Ret
    | Call(func: u32)
    | LibCall(libFunc: u32)
    | Ecall(call: u32)

  datatype TaggedOp = TaggedOp(op: Opcode, loc: CodeLoc)

  /** The library functions of `Runtime::new` that this model covers. */
  datatype LibFunc = Printf | Exit | Realloc

  /**
   * What a running program cannot change: its ops, the binary variables
   * (`program.data`), the command-line arguments and the library table.
   */
  datatype Program = Program(ops: seq<TaggedOp>, data: seq<seq<u8>>, args: seq<seq<u8>>,
                             libs: map<nat, LibFunc>)

  /**
   * The memory: the expression stack (most recently pushed byte last),
   * `pc`, the call stack, heap variables, stack variables (numbered from 1,
   * so that the top one is number `|vars|`, `stack_length()`) and stdout.
   */
  datatype State = State(stack: seq<u8>, pc: nat, callstack: seq<Frame>,
                         heap: seq<seq<u8>>, vars: seq<seq<u8>>, stdout: seq<u8>)

  /** `push_stack`. */
  function Push(st: State, bytes: seq<u8>): (r: State)
    ensures |r.stack| == |st.stack| + |bytes|
    ensures r.stack[..|st.stack|] == st.stack && r.stack[|st.stack|..] == bytes
    ensures r == st.(stack := r.stack)
  {
    st.(stack := st.stack + bytes)
  }

  /** `pop_stack` / `pop_bytes`: the top `n` bytes, or a fault if there are fewer. */
  function PopBytes(st: State, n: nat): (r: Result<(seq<u8>, State), IError>)
    ensures r.Ok? <==> n <= |st.stack|
    ensures r.Ok? ==> |r.value.0| == n && r.value.1.stack + r.value.0 == st.stack
                      && r.value.1 == st.(stack := r.value.1.stack)
    ensures r.Err? ==> r.error == MemoryFault
  {
    if n <= |st.stack| then
      var k := |st.stack| - n;
      Ok((st.stack[k..], st.(stack := st.stack[..k])))
    else
      Err(MemoryFault)
  }

  /** Popping what was pushed gives it back. */
  lemma PopPush(st: State, bytes: seq<u8>)
    ensures PopBytes(Push(st, bytes), |bytes|) == Ok((bytes, st))
  {
  }

  /** Popping the top `|top|` bytes of a stack `rest + top` gives `top` and leaves `rest`. */
  lemma PopOf(st: State, rest: seq<u8>, top: seq<u8>)
    requires st.stack == rest + top
    ensures PopBytes(st, |top|) == Ok((top, st.(stack := rest)))
  {
    assert st.stack[|st.stack| - |top|..] == top;
    assert st.stack[..|st.stack| - |top|] == rest;
  }

  /** `dup_top_stack_bytes`: push a copy of the top `n` bytes. */
  function DupTop(st: State, n: nat): (r: Result<State, IError>)
    ensures r.Ok? <==> n <= |st.stack|
    ensures r.Ok? ==> r.value == Push(st, st.stack[|st.stack| - n..])
  {
    if n <= |st.stack| then Ok(Push(st, st.stack[|st.stack| - n..])) else Err(MemoryFault)
  }

  /** `pop_keep_bytes`: remove the `drop` bytes under the top `keep` bytes. */
  function PopKeepBytes(st: State, keep: nat, drop: nat): (r: Result<State, IError>)
    ensures r.Ok? <==> keep + drop <= |st.stack|
    ensures r.Ok? ==> r.value == st.(stack := r.value.stack)
    ensures r.Ok? ==> r.value.stack == st.stack[..|st.stack| - keep - drop] + st.stack[|st.stack| - keep..]
  {
    if keep + drop <= |st.stack| then
      var k := |st.stack| - keep - drop;
      var kept := st.stack[|st.stack| - keep..];
      Ok(st.(stack := st.stack[..k] + kept))
    else
      Err(MemoryFault)
  }

  /** The pointer kinds of `VarPointer`. */
  datatype Region = StackVar | HeapVar | BinaryVar

  /** A decoded `VarPointer`: which variable, and an offset into it. */
  datatype Pointer = Pointer(region: Region, index: nat, offset: nat)

  /**
   * The model's eight-byte layout of a pointer: a region tag, the variable
   * number in three bytes and the offset in four (the layout of
   * `VarPointer` is not part of this model).
   */
  function EncodePointer(p: Pointer): (r: seq<u8>)
    ensures |r| == 8
  {
    var tag := match p.region { case StackVar => 0 case HeapVar => 1 case BinaryVar => 2 };
    [tag] + ToBE(p.index, 3) + ToBE(p.offset, 4)
  }

  function DecodePointer(b: seq<u8>): (p: Pointer)
    requires |b| == 8
    ensures p.index < Pow256(3) && p.offset < Pow256(4)
  {
    var region := if b[0] == 1 then HeapVar else if b[0] == 2 then BinaryVar else StackVar;
    Pointer(region, FromBE(b[1..4]), FromBE(b[4..]))
  }

  lemma DecodeEncode(p: Pointer)
    requires p.index < Pow256(3) && p.offset < Pow256(4)
    ensures DecodePointer(EncodePointer(p)) == p
  {
    var b := EncodePointer(p);
    assert b[1..4] == ToBE(p.index, 3);
    assert b[4..] == ToBE(p.offset, 4);
    ToBEOfWord(p.index, 3);
    ToBEOfWord(p.offset, 4);
  }

  /** `get_var` on stack variable `o` at offset 0: its first `n` bytes. */
  function ReadStackVar(vars: seq<seq<u8>>, o: nat, n: nat): (r: Result<seq<u8>, IError>)
    ensures r.Ok? <==> 1 <= o <= |vars| && n <= |vars[o - 1]|
    ensures r.Ok? ==> r.value == vars[o - 1][..n]
    ensures r.Err? ==> r.error == MemoryFault
  {
    if 1 <= o <= |vars| && n <= |vars[o - 1]| then Ok(vars[o - 1][..n]) else Err(MemoryFault)
  }

  /** `set` on stack variable `o` at offset 0: overwrite its first bytes. */
  function WriteStackVar(vars: seq<seq<u8>>, o: nat, bytes: seq<u8>): (r: Result<seq<seq<u8>>, IError>)
    ensures r.Ok? <==> 1 <= o <= |vars| && |bytes| <= |vars[o - 1]|
    ensures r.Ok? ==> |r.value| == |vars| && |r.value[o - 1]| == |vars[o - 1]|
                      && r.value[o - 1][..|bytes|] == bytes
                      && r.value[o - 1][|bytes|..] == vars[o - 1][|bytes|..]
                      && forall j :: 0 <= j < |vars| && j != o - 1 ==> r.value[j] == vars[j]
  {
    if 1 <= o <= |vars| && |bytes| <= |vars[o - 1]| then
      Ok(vars[o - 1 := bytes + vars[o - 1][|bytes|..]])
    else
      Err(MemoryFault)
  }

  /** The variable numbered `n` among `vs`, whose first variable has number `first`. */
  function Slice(vs: seq<seq<u8>>, n: nat, first: nat, offset: nat): (r: Result<seq<u8>, IError>)
    ensures r.Ok? <==> first <= n < first + |vs| && offset <= |vs[n - first]|
    ensures r.Ok? ==> r.value == vs[n - first][offset..]
    ensures r.Err? ==> r.error == MemoryFault
  {
    if first <= n < first + |vs| && offset <= |vs[n - first]| then Ok(vs[n - first][offset..])
    else Err(MemoryFault)
  }

  /** `get_var_slice`: the bytes of the pointed-to variable from the pointer's offset on. */
  function VarSlice(p: Program, st: State, ptr: Pointer): Result<seq<u8>, IError>
  {
    match ptr.region
    case StackVar => Slice(st.vars, ptr.index, 1, ptr.offset)
    case HeapVar => Slice(st.heap, ptr.index, 0, ptr.offset)
    case BinaryVar => Slice(p.data, ptr.index, 0, ptr.offset)
  }

  /**
   * `cstring_bytes`, as a specification: the bytes before the first 0, or
   * `MissingNullTerminator` when there is no 0.
   */
  function CString(s: seq<u8>): (r: Result<seq<u8>, IError>)
    ensures r.Ok? <==> 0 in s
    ensures r.Ok? ==> |r.value| < |s| && r.value == s[..|r.value|]
                      && s[|r.value|] == 0 && 0 !in r.value
    ensures r.Err? ==> r.error == Named("MissingNullTerminator")
  {
    if s == [] then Err(Named("MissingNullTerminator"))
    else if s[0] == 0 then Ok([])
    else match CString(s[1..]) {
      case Ok(t) => Ok([s[0]] + t)
      case Err(e) => Err(e)
    }
  }
}
