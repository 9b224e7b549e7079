/**
 * The library functions of interpreter.rs as the interpreter runs them on
 * its `Memory`: `cstring_bytes`, `printf_internal` with its `parse_int`
 * closure, and `printf`, `exit` and `realloc`.  Each method is proved to
 * do what the matching specification function of PrintfSpec or
 * OpSemantics says.
 */
module Library {
  import opened Wrappers
  import opened Bytes
  import opened Utf8
  import opened Writers
  import opened Machine
  import opened PrintfSpec
  import opened MemoryModel
  import O = OpSemantics

  /** `CString` is the prefix before the first 0, whichever way it is found. */
  lemma {:induction false} CStringAt(s: seq<u8>, k: nat)
    requires k < |s| && s[k] == 0 && forall j :: 0 <= j < k ==> s[j] != 0
    ensures CString(s) == Ok(s[..k])
    decreases k
  {
    if k > 0 {
      CStringAt(s[1..], k - 1);
      assert [s[0]] + s[1..][..k - 1] == s[..k];
    }
  }

  /** `cstring_bytes`: the bytes of the pointed-to variable before its first 0. */
  method CStringBytes(p: Program, m: Memory, ptr: Pointer) returns (r: Result<seq<u8>, IError>)
    ensures r == match VarSlice(p, m.Snapshot(), ptr) {
                   case Err(e) => Err(e)
                   case Ok(s) => CString(s)
                 }
  {
    var slice := m.GetVarSlice(p, ptr);
    if slice.Err? {
      return Err(slice.error);
    }
    var s := slice.value;
    var idx := |s|;
    var i := 0;
    while i < |s|
      invariant 0 <= i <= |s|
      invariant forall k :: 0 <= k < i ==> s[k] != 0
    {
      if s[i] == 0 {
        idx := i;
        break;
      }
      i := i + 1;
    }
    if idx == |s| {
      return Err(Named("MissingNullTerminator"));
    }
    CStringAt(s, idx);
    return Ok(s[..idx]);
  }

  /** The `parse_int` closure: a run of digits at `begin`, read left to right. */
  method ParseIntAt(f: seq<u8>, begin: nat) returns (r: IntScan)
    ensures r == ParseInt(f, begin)
  {
    if begin >= |f| {
      return ScanPanic;
    }
    if !IsDigit(f[begin]) {
      return NoInt;
    }
    var idx := begin;
    var collect := 0;
    while true
      invariant begin <= idx < |f|
      invariant forall k :: begin <= k <= idx ==> IsDigit(f[k])
      invariant collect == DigitsValue(f[begin..idx])
      decreases |f| - idx
    {
      assert f[begin..idx + 1][..idx - begin] == f[begin..idx];
      collect := collect * 10 + (f[idx] as int - ZERO as int);
      idx := idx + 1;
      if idx == |f| {
        // `format_str[idx]` past the end
        return ScanPanic;
      }
      if !IsDigit(f[idx]) {
        break;
      }
    }
    DigitRunEndAt(f, begin, idx);
    return IntRun(collect, idx - begin);
  }

  /** A width (`negates`) or a precision after its `.`: digits, `*` or nothing. */
  method IntOrStarAt(m: Memory, f: seq<u8>, pos: nat, next: nat, negates: bool) returns (r: Stage)
    ensures r == IntOrStar(f, pos, m.vars, next, negates)
  {
    var run := ParseIntAt(f, pos);
    match run
    case ScanPanic =>
      return StagePanic;
    case IntRun(_, len) =>
      return At(pos + len, next);
    case NoInt =>
      if f[pos] != STAR {
        return At(pos, next);
      }
      var b := m.GetStackVar(next, 4);
      if b.Err? {
        return StageErr(b.error);
      }
      if negates && FromBE(b.value) == 0x8000_0000 {
        // `next *= -1` overflows on the least `i32`
        return StagePanic;
      }
      return At(pos + 1, next + 1);
  }

  /** The `l` / `ll` length modifier. */
  method LengthModifier(f: seq<u8>, pos: nat) returns (r: Option<(Length, nat)>)
    ensures r == LengthAt(f, pos)
  {
    if pos >= |f| {
      return None;
    }
    if f[pos] != LOWER_L {
      return Some((NoLength, pos));
    }
    if pos + 1 >= |f| {
      return None;
    }
    if f[pos + 1] == LOWER_L {
      return Some((LongLong, pos + 2));
    }
    return Some((Long, pos + 1));
  }

  /** The conversion character and the variable it prints. */
  method ConvertAt(p: Program, m: Memory, f: seq<u8>, pos: nat, len: Length, next: nat) returns (d: Directive)
    ensures d == Conversion(p, m.Snapshot(), f, pos, len, next)
  {
    if pos >= |f| {
      return DirPanic;
    }
    var c := f[pos];
    var n := if len == NoLength then 4 else 8;
    if c == 117 || c == 105 || c == 100 {
      var b := m.GetStackVar(next, n);
      if b.Err? {
        return DirErr(b.error);
      }
      return DirOk(Text(IntText(b.value, c == 117)), pos, next + 1);
    } else if c == 99 {
      var b := m.GetStackVar(next, 1);
      if b.Err? {
        return DirErr(b.error);
      }
      return DirOk(Text(Latin1(b.value[0])), pos, next + 1);
    } else if c == PERCENT {
      return DirOk(LossyText([PERCENT]), pos, next);
    } else if c == 115 {
      var b := m.GetStackVar(next, 8);
      if b.Err? {
        return DirErr(b.error);
      }
      var s := CStringBytes(p, m, DecodePointer(b.value));
      if s.Err? {
        return DirErr(s.error);
      }
      return DirOk(LossyText(s.value), pos, next + 1);
    }
    return DirErr(Named("InvalidFormatString"));
  }

  /** The directive after a `%` at `pos - 1`: flags, width, precision, length, conversion. */
  method ParseDirectiveAt(p: Program, m: Memory, f: seq<u8>, pos: nat, next: nat) returns (d: Directive)
    requires pos < |f|
    ensures d == ParseDirective(p, m.Snapshot(), f, pos, next)
  {
    ghost var st := m.Snapshot();
    var i := pos;
    while i < |f| && IsFlag(f[i])
      invariant pos <= i <= |f|
      invariant DirectiveFrom(p, st, f, i, next, Flags) == ParseDirective(p, st, f, pos, next)
    {
      i := i + 1;
    }
    assert ParseDirective(p, st, f, pos, next) == DirectiveFrom(p, st, f, i, next, Width);
    if i == |f| {
      return DirPanic;
    }
    var width := IntOrStarAt(m, f, i, next, true);
    if width.StageErr? {
      return DirErr(width.err);
    } else if width.StagePanic? {
      return DirPanic;
    }
    d := PrecisionOn(p, m, f, width.pos, width.next);
  }

  /** A directive from its optional precision on. */
  method PrecisionOn(p: Program, m: Memory, f: seq<u8>, pos: nat, next: nat) returns (d: Directive)
    ensures d == DirectiveFrom(p, m.Snapshot(), f, pos, next, Prec)
  {
    ghost var st := m.Snapshot();
    var prec: Stage;
    if pos >= |f| {
      prec := StagePanic;
    } else if f[pos] != DOT {
      prec := At(pos, next);
    } else {
      prec := IntOrStarAt(m, f, pos + 1, next, false);
    }
    assert prec == Precision(f, pos, st.vars, next);
    if prec.StageErr? {
      return DirErr(prec.err);
    } else if prec.StagePanic? {
      return DirPanic;
    }
    d := LengthOn(p, m, f, prec.pos, prec.next);
  }

  /** A directive from its optional length modifier on. */
  method LengthOn(p: Program, m: Memory, f: seq<u8>, pos: nat, next: nat) returns (d: Directive)
    ensures d == DirectiveFrom(p, m.Snapshot(), f, pos, next, Len)
  {
    var len := LengthModifier(f, pos);
    if len.None? {
      return DirPanic;
    }
    d := ConvertAt(p, m, f, len.value.1, len.value.0, next);
  }

  /** Copy the text from `idx` up to the next `%` (or the end) to `out`, lossily. */
  method CopyText(f: seq<u8>, idx: nat, out: StringWriter) returns (idx2: nat)
    requires idx <= |f| && out.Valid()
    modifies out
    ensures out.Valid()
    ensures idx2 == NextPercent(f, idx) && out.buf == old(out.buf) + Lossy(f[idx..idx2])
  {
    idx2 := idx;
    while idx2 < |f| && f[idx2] != PERCENT
      invariant idx <= idx2 <= |f|
      invariant forall k :: idx <= k < idx2 ==> f[k] != PERCENT
    {
      idx2 := idx2 + 1;
    }
    NextPercentAt(f, idx, idx2);
    var _ := WriteLossy(out, f[idx..idx2]);
  }

  /**
   * One round of the main loop of `printf_internal`: copy the text up to
   * the next `%`, then print the directive after it.
   */
  method PrintRound(p: Program, m: Memory, f: seq<u8>, idx: nat, next: nat, out: StringWriter)
    returns (stop: Option<PrintfStatus>, idx': nat, next': nat)
    requires idx < |f| && out.Valid()
    modifies out
    ensures out.Valid()
    ensures Cfg(idx', next', out.buf, stop) == PrintStep(p, m.Snapshot(), f, Cfg(idx, next, old(out.buf), None))
  {
    var j := CopyText(f, idx, out);
    stop, idx', next' := PrintAfterText(p, m, f, j, next, out);
  }

  /** The rest of a round, once the text up to `j` is written: the end, a trailing `%`, or a directive. */
  method PrintAfterText(p: Program, m: Memory, f: seq<u8>, j: nat, next: nat, out: StringWriter)
    returns (stop: Option<PrintfStatus>, idx': nat, next': nat)
    requires j <= |f| && out.Valid()
    modifies out
    ensures out.Valid()
    ensures Cfg(idx', next', out.buf, stop) == AfterText(p, m.Snapshot(), f, j, next, old(out.buf))
  {
    if j == |f| {
      return Some(Done), j, next;
    }
    // `format_str[j] == b'%'`
    if j + 1 == |f| {
      return Some(Failed(Named("InvalidFormatString"))), j, next;
    }
    var d := ParseDirectiveAt(p, m, f, j + 1, next);
    if !d.DirOk? {
      return Some(Stopped(d)), j, next;
    }
    WriteEmit(d.emit, out);
    return None, d.end + 1, d.next;
  }

  /** Write what a directive prints: with `write!`, or lossily. */
  method WriteEmit(e: Emit, out: StringWriter)
    requires out.Valid() && ValidUtf8(Render(e))
    modifies out
    ensures out.Valid() && out.buf == old(out.buf) + Render(e)
  {
    match e {
      case Text(t) =>
        var _ := out.Write(t);
      case LossyText(b) =>
        var _ := WriteLossy(out, b);
    }
  }

  /**
   * `printf_internal`: print the format at stack variable `offset`, with
   * its arguments in the variables after it, to `out`.
   */
  method PrintfInternal(p: Program, m: Memory, offset: nat, out: StringWriter) returns (status: PrintfStatus)
    requires out.Valid()
    modifies out
    ensures out.Valid()
    ensures status == PrintfSpec.PrintfInternal(p, m.Snapshot(), offset, old(out.buf)).status.value
    ensures out.buf == PrintfSpec.PrintfInternal(p, m.Snapshot(), offset, old(out.buf)).out
  {
    ghost var st := m.Snapshot();
    var fb := m.GetStackVar(offset, 8);
    if fb.Err? {
      return Failed(fb.error);
    }
    var fs := CStringBytes(p, m, DecodePointer(fb.value));
    if fs.Err? {
      return Failed(fs.error);
    }
    var f := fs.value;
    ghost var c0 := Cfg(0, offset + 1, out.buf, None);
    var next: nat := offset + 1;
    var idx := 0;
    while idx < |f|
      invariant idx <= |f| && out.Valid()
      invariant PrintLoop(p, st, f, Cfg(idx, next, out.buf, None)) == PrintLoop(p, st, f, c0)
      decreases |f| - idx
    {
      ghost var c := Cfg(idx, next, out.buf, None);
      var stop;
      stop, idx, next := PrintRound(p, m, f, idx, next, out);
      assert PrintLoop(p, st, f, c) == PrintLoop(p, st, f, Cfg(idx, next, out.buf, stop));
      if stop.Some? {
        return stop.value;
      }
    }
    return Done;
  }

  /** How a library function ended, beside the state it left. */
  datatype LibStatus = LOk(exit: Option<int>) | LErr(err: IError) | LPanic | LDiverge

  /** A run of a library function that ended with `res` in state `now` is the one `e` specifies. */
  predicate AgreesLib(res: LibStatus, now: State, e: O.LibResult)
  {
    match e
    case LibOk(exit, s) => res == LOk(exit) && now == s
    case LibErr(err, s) => res == LErr(err) && now == s
    case LibPanic => res == LPanic
    case LibDiverge => res == LDiverge
  }

  /** Heap variable `dst` of `heap` once its first `i` bytes come from variable `src`. */
  ghost function Copied(heap: seq<seq<u8>>, src: nat, dst: nat, i: nat): (r: seq<u8>)
    requires dst < |heap| && i <= |heap[dst]| && (i > 0 ==> src < |heap| && i <= |heap[src]|)
    ensures |r| == |heap[dst]|
  {
    if i == 0 then heap[dst] else heap[src][..i] + heap[dst][i..]
  }

  /** One more byte of the copy: the byte read from `src` is still the original one. */
  lemma CopiedStep(heap: seq<seq<u8>>, src: nat, dst: nat, i: nat)
    requires dst < |heap| && src < |heap| && i < |heap[dst]| && i < |heap[src]|
    ensures heap[dst := Copied(heap, src, dst, i)][src][i] == heap[src][i]
    ensures Poke(Copied(heap, src, dst, i), i, heap[src][i]) == Copied(heap, src, dst, i + 1)
  {
    var c := Copied(heap, src, dst, i);
    assert c[i] == heap[dst][i];
    assert Poke(c, i, heap[src][i]) == heap[src][..i + 1] + heap[dst][i + 1..];
  }

  /**
   * The copy loop of `realloc`: byte `i` of heap variable `src` goes to
   * byte `i` of `dst` for each `i` below `size`, until a read or a write
   * faults.
   */
  method CopyLoop(m: Memory, src: nat, dst: nat, size: nat) returns (ok: bool)
    requires dst < |m.heap|
    modifies m
    ensures (m.heap, ok) == O.CopyBytes(old(m.heap), src, dst, size)
    ensures m.Snapshot() == old(m.Snapshot()).(heap := m.heap)
  {
    ghost var heap1 := m.heap;
    var i := 0;
    while i < size
      invariant i <= size && |m.heap| == |heap1|
      invariant src < |heap1| ==> i <= |heap1[src]|
      invariant src >= |heap1| ==> i == 0
      invariant i <= |heap1[dst]|
      invariant m.heap == heap1[dst := Copied(heap1, src, dst, i)]
      invariant m.Snapshot() == old(m.Snapshot()).(heap := m.heap)
    {
      var b := m.GetHeapByte(src, i);
      if b.Err? {
        assert i == O.Min(size, O.Min(if src < |heap1| then |heap1[src]| else 0, |heap1[dst]|));
        return false;
      }
      var written := m.SetHeapByte(dst, i, b.value);
      if written.Err? {
        assert i == |heap1[dst]|;
        return false;
      }
      CopiedStep(heap1, src, dst, i);
      i := i + 1;
    }
    return true;
  }

  /** `exit`: the code in the top stack variable. */
  method Exit(m: Memory) returns (res: LibStatus)
    ensures AgreesLib(res, m.Snapshot(), O.ExitLib(m.Snapshot()))
    ensures res.LOk? ==> res.exit.Some?
  {
    Pow256Values();
    var b := m.GetStackVar(|m.vars|, 4);
    if b.Err? {
      return LErr(b.error);
    }
    return LOk(Some(ToSigned(FromBE(b.value), TWO_32)));
  }

  /**
   * `printf`: the text is written to stdout before any error of printing is
   * returned, and its length goes to the return variable below the format.
   */
  method Printf(p: Program, m: Memory) returns (res: LibStatus)
    modifies m
    ensures AgreesLib(res, m.Snapshot(), O.PrintfLib(p, old(m.Snapshot())))
    ensures m.pc == old(m.pc)
  {
    var fv := FormatVar(m);
    match fv {
      case CountMissing(e) =>
        return LErr(e);
      case CountTooLarge =>
        return LPanic;
      case FormatAt(offset) =>
        res := PrintfAt(p, m, offset);
    }
  }

  /** The variable that holds the format of a `printf` call. */
  method FormatVar(m: Memory) returns (r: O.FormatVar)
    ensures r == O.PrintfFormatVar(m.Snapshot())
  {
    Pow256Values();
    var top := |m.vars|;
    var lb := m.GetStackVar(top, 4);
    if lb.Err? {
      return O.CountMissing(lb.error);
    }
    var count := Wrap(ToSigned(FromBE(lb.value), TWO_32), TWO_16);
    if count > top || count == top {
      // `top_ptr_offset - param_len` or `current_offset - 1` underflows
      return O.CountTooLarge;
    }
    return O.FormatAt(top - count);
  }

  /** `printf` once the format is known to be stack variable `offset`. */
  method PrintfAt(p: Program, m: Memory, offset: nat) returns (res: LibStatus)
    requires offset >= 1
    modifies m
    ensures AgreesLib(res, m.Snapshot(), O.PrintfAt(p, old(m.Snapshot()), offset))
    ensures m.pc == old(m.pc)
  {
    var out := new StringWriter();
    var status := PrintfInternal(p, m, offset, out);
    var text := out.FlushString();
    res := FinishPrintf(m, offset, status, text);
  }

  /** The end of `printf`: the text to stdout, then its length to the return variable. */
  method FinishPrintf(m: Memory, offset: nat, status: PrintfStatus, text: seq<u8>) returns (res: LibStatus)
    requires offset >= 1
    modifies m
    ensures AgreesLib(res, m.Snapshot(), O.PrintfDone(old(m.Snapshot()), offset, status, text))
    ensures m.pc == old(m.pc)
  {
    Pow256Values();
    if status == Panicked {
      return LPanic;
    } else if status == Diverged {
      return LDiverge;
    }
    m.WriteStdout(text);
    if status.Failed? {
      return LErr(status.err);
    }
    var w := m.SetStackVar(offset - 1, ToBE(Wrap(|text|, TWO_32), 4));
    if w.Err? {
      return LErr(w.error);
    }
    return LOk(None);
  }

  /**
   * `realloc`: a new heap variable receives, byte by byte, the first `size`
   * bytes of the old one, and the pointer to it goes to the return variable.
   */
  method Realloc(p: Program, m: Memory) returns (res: LibStatus)
    modifies m
    ensures AgreesLib(res, m.Snapshot(), O.ReallocLib(old(m.Snapshot())))
    ensures m.pc == old(m.pc)
  {
    var top := |m.vars|;
    if top < 2 {
      // `stack_len - 2` underflows
      return LPanic;
    }
    var pb := m.GetStackVar(top - 1, 8);
    if pb.Err? {
      return LErr(pb.error);
    }
    var toFree := DecodePointer(pb.value);
    if !toFree.region.HeapVar? || toFree.offset != 0 {
      return LErr(Named("InvalidPointer"));
    }
    var sb := m.GetStackVar(top, 8);
    if sb.Err? {
      return LErr(sb.error);
    }
    var size := FromBE(sb.value);
    var src := toFree.index;
    var dst := m.AddHeapVar(size % TWO_32);
    var copied := CopyLoop(m, src, dst.index, size);
    if !copied {
      return LErr(MemoryFault);
    }
    var w := m.SetStackVar(top - 2, EncodePointer(dst));
    if w.Err? {
      return LErr(w.error);
    }
    return LOk(None);
  }
}
