/**
 * The interpreter's `Memory`, as far as interpreter.rs uses it: each
 * method is one call the interpreter makes (`push_stack`, `pop_stack`,
 * `increment_pc`, `call`, `add_heap_var`, `get_var`, `set`, ...), stated
 * by its effect on the machine state.  How runtime.rs implements these is
 * not part of this model.
 */
module MemoryModel {
  import opened Wrappers
  import opened Bytes
  import opened Machine
  import OpSemantics

  /** `bytes` with the byte at `offset` replaced by `b`. */
  function Poke(bytes: seq<u8>, offset: nat, b: u8): (r: seq<u8>)
    requires offset < |bytes|
    ensures |r| == |bytes| && r[offset] == b
    ensures forall i :: 0 <= i < |bytes| && i != offset ==> r[i] == bytes[i]
  {
    bytes[..offset] + [b] + bytes[offset + 1..]
  }

  class Memory {
    var stack: seq<u8>
    var pc: nat
    var callstack: seq<Frame>
    var heap: seq<seq<u8>>
    var vars: seq<seq<u8>>
    var stdout: seq<u8>

    /** The machine state this memory holds. */
    function Snapshot(): State
      reads this
    {
      State(stack, pc, callstack, heap, vars, stdout)
    }

    constructor (st: State)
      ensures Snapshot() == st
    {
      stack, pc, callstack := st.stack, st.pc, st.callstack;
      heap, vars, stdout := st.heap, st.vars, st.stdout;
    }

    /** `push_stack`. */
    method PushStack(bytes: seq<u8>)
      modifies this
      ensures Snapshot() == Push(old(Snapshot()), bytes)
    {
      stack := stack + bytes;
    }

    /** `pop_stack` and `pop_bytes`: the top `n` bytes, or a fault and no change. */
    method PopStack(n: nat) returns (r: Result<seq<u8>, IError>)
      modifies this
      ensures PopBytes(old(Snapshot()), n).Ok? ==>
                r == Ok(PopBytes(old(Snapshot()), n).value.0) && Snapshot() == PopBytes(old(Snapshot()), n).value.1
      ensures PopBytes(old(Snapshot()), n).Err? ==> r == Err(MemoryFault) && Snapshot() == old(Snapshot())
    {
      if n > |stack| {
        return Err(MemoryFault);
      }
      var k := |stack| - n;
      r := Ok(stack[k..]);
      stack := stack[..k];
    }

    /** `dup_top_stack_bytes`. */
    method DupTopStackBytes(n: nat) returns (r: Result<(), IError>)
      modifies this
      ensures DupTop(old(Snapshot()), n).Ok? ==> r.Ok? && Snapshot() == DupTop(old(Snapshot()), n).value
      ensures DupTop(old(Snapshot()), n).Err? ==> r == Err(MemoryFault) && Snapshot() == old(Snapshot())
    {
      if n > |stack| {
        return Err(MemoryFault);
      }
      stack := stack + stack[|stack| - n..];
      r := Ok(());
    }

    /** `pop_keep_bytes`. */
    method PopKeep(keep: nat, drop: nat) returns (r: Result<(), IError>)
      modifies this
      ensures PopKeepBytes(old(Snapshot()), keep, drop).Ok? ==>
                r.Ok? && Snapshot() == PopKeepBytes(old(Snapshot()), keep, drop).value
      ensures PopKeepBytes(old(Snapshot()), keep, drop).Err? ==> r == Err(MemoryFault) && Snapshot() == old(Snapshot())
    {
      if keep + drop > |stack| {
        return Err(MemoryFault);
      }
      stack := stack[..|stack| - keep - drop] + stack[|stack| - keep..];
      r := Ok(());
    }

    /** `increment_pc`. */
    method IncrementPc()
      modifies this
      ensures Snapshot() == old(Snapshot()).(pc := old(pc) + 1)
    {
      pc := pc + 1;
    }

    /** `jump`. */
    method Jump(target: nat)
      modifies this
      ensures Snapshot() == old(Snapshot()).(pc := target)
    {
      pc := target;
    }

    /** `call`: enter at `target`, remembering to come back after the current op. */
    method Call(target: nat, name: nat, loc: CodeLoc)
      modifies this
      ensures Snapshot() == old(Snapshot()).(pc := target, callstack := old(callstack) + [CallFrame(name, old(pc) + 1, loc)])
    {
      callstack := callstack + [CallFrame(name, pc + 1, loc)];
      pc := target;
    }

    /** `ret`: back to the innermost caller; `false`, and no change, when there is no call frame on top. */
    method Ret() returns (ok: bool)
      modifies this
      ensures OpSemantics.RetEffect(old(Snapshot())).Jumped? ==> ok && Snapshot() == OpSemantics.RetEffect(old(Snapshot())).st
      ensures !OpSemantics.RetEffect(old(Snapshot())).Jumped? ==> !ok && Snapshot() == old(Snapshot())
    {
      if callstack == [] || !callstack[|callstack| - 1].CallFrame? {
        return false;
      }
      pc := callstack[|callstack| - 1].returnPc;
      callstack := callstack[..|callstack| - 1];
      ok := true;
    }

    /** `push_callstack`: record where an error happened. */
    method PushCallstack(loc: CodeLoc)
      modifies this
      ensures Snapshot() == old(Snapshot()).(callstack := old(callstack) + [ErrorFrame(loc)])
    {
      callstack := callstack + [ErrorFrame(loc)];
    }

    /** `add_heap_var`: a new heap variable of `size` zero bytes, and a pointer to its start. */
    method AddHeapVar(size: nat) returns (ptr: Pointer)
      modifies this
      ensures Snapshot() == old(Snapshot()).(heap := old(heap) + [OpSemantics.Zeros(size)])
      ensures ptr == Pointer(HeapVar, |old(heap)|, 0)
    {
      ptr := Pointer(HeapVar, |heap|, 0);
      heap := heap + [OpSemantics.Zeros(size)];
    }

    /** `get_var` of one byte of a heap variable. */
    method GetHeapByte(index: nat, offset: nat) returns (r: Result<u8, IError>)
      ensures index < |heap| && offset < |heap[index]| ==> r == Ok(heap[index][offset])
      ensures !(index < |heap| && offset < |heap[index]|) ==> r == Err(MemoryFault)
    {
      if index < |heap| && offset < |heap[index]| {
        return Ok(heap[index][offset]);
      }
      return Err(MemoryFault);
    }

    /** `set` of one byte of a heap variable. */
    method SetHeapByte(index: nat, offset: nat, b: u8) returns (r: Result<(), IError>)
      modifies this
      ensures index < |old(heap)| && offset < |old(heap)[index]| ==>
                r.Ok? && Snapshot() == old(Snapshot()).(heap := old(heap)[index := Poke(old(heap)[index], offset, b)])
      ensures !(index < |old(heap)| && offset < |old(heap)[index]|) ==> r == Err(MemoryFault) && Snapshot() == old(Snapshot())
    {
      if index < |heap| && offset < |heap[index]| {
        heap := heap[index := Poke(heap[index], offset, b)];
        return Ok(());
      }
      return Err(MemoryFault);
    }

    /** Copy `bytes` over the start of heap variable `index` (`copy_from_slice`). */
    method FillHeapVar(index: nat, bytes: seq<u8>)
      requires index < |heap| && |bytes| <= |heap[index]|
      modifies this
      ensures Snapshot() == old(Snapshot()).(heap := old(heap)[index := bytes + old(heap)[index][|bytes|..]])
    {
      heap := heap[index := bytes + heap[index][|bytes|..]];
    }

    /** `get_var` of the first `n` bytes of stack variable `o`. */
    method GetStackVar(o: nat, n: nat) returns (r: Result<seq<u8>, IError>)
      ensures r == ReadStackVar(vars, o, n)
    {
      if 1 <= o <= |vars| && n <= |vars[o - 1]| {
        return Ok(vars[o - 1][..n]);
      }
      return Err(MemoryFault);
    }

    /** `set` of the first bytes of stack variable `o`. */
    method SetStackVar(o: nat, bytes: seq<u8>) returns (r: Result<(), IError>)
      modifies this
      ensures WriteStackVar(old(vars), o, bytes).Ok? ==>
                r.Ok? && Snapshot() == old(Snapshot()).(vars := WriteStackVar(old(vars), o, bytes).value)
      ensures WriteStackVar(old(vars), o, bytes).Err? ==> r == Err(MemoryFault) && Snapshot() == old(Snapshot())
    {
      if 1 <= o <= |vars| && |bytes| <= |vars[o - 1]| {
        vars := vars[o - 1 := bytes + vars[o - 1][|bytes|..]];
        return Ok(());
      }
      return Err(MemoryFault);
    }

    /** `get_var_slice`: the pointed-to variable from the pointer's offset on. */
    method GetVarSlice(p: Program, ptr: Pointer) returns (r: Result<seq<u8>, IError>)
      ensures r == VarSlice(p, Snapshot(), ptr)
    {
      r := Err(MemoryFault);
      match ptr.region
      case StackVar =>
        if 1 <= ptr.index <= |vars| && ptr.offset <= |vars[ptr.index - 1]| {
          r := Ok(vars[ptr.index - 1][ptr.offset..]);
        }
      case HeapVar =>
        if ptr.index < |heap| && ptr.offset <= |heap[ptr.index]| {
          r := Ok(heap[ptr.index][ptr.offset..]);
        }
      case BinaryVar =>
        if ptr.index < |p.data| && ptr.offset <= |p.data[ptr.index]| {
          r := Ok(p.data[ptr.index][ptr.offset..]);
        }
    }

    /** `write!(self.memory.stdout(), ...)`. */
    method WriteStdout(bytes: seq<u8>)
      modifies this
      ensures Snapshot() == old(Snapshot()).(stdout := old(stdout) + bytes)
    {
      stdout := stdout + bytes;
    }
  }
}
