/**
 * What `printf_internal` of interpreter.rs prints: a walk over the format
 * string that copies the text between directives (lossily, as UTF-8) and
 * replaces each `%[flags][width][.precision][length]conversion` by the
 * text of the next stack variable.  Width, precision and flags are parsed
 * but never change the output.
 */
module PrintfSpec {
  import opened Wrappers
  import opened Bytes
  import opened Utf8
  import opened Machine

  const PERCENT: u8 := 37
  const STAR: u8 := 42
  const DOT: u8 := 46
  const MINUS: u8 := 45
  const ZERO: u8 := 48
  const LOWER_L: u8 := 108

  predicate IsDigit(b: u8) { ZERO <= b <= ZERO + 9 }

  /** The flag characters `0`, `-`, `+`, space and `#`. */
  predicate IsFlag(b: u8) { b == ZERO || b == MINUS || b == 43 || b == 32 || b == 35 }

  /** Decimal digits of `n`, without leading zeros, as `{}` formats an unsigned integer. */
  function Digits(n: nat): (r: seq<u8>)
    ensures 1 <= |r| && forall i :: 0 <= i < |r| ==> IsDigit(r[i])
    ensures |r| > 1 ==> r[0] != ZERO
  {
    if n < 10 then [ZERO + n] else Digits(n / 10) + [ZERO + n % 10]
  }

  /** The number a run of decimal digits denotes, read left to right. */
  function DigitsValue(s: seq<u8>): nat
    requires forall i :: 0 <= i < |s| ==> IsDigit(s[i])
  {
    if s == [] then 0
    else
      assert IsDigit(s[|s| - 1]);
      DigitsValue(s[..|s| - 1]) * 10 + (s[|s| - 1] as int - ZERO as int)
  }

  /** Reading back the digits of a number gives the number. */
  lemma {:induction false} DigitsRoundTrip(n: nat)
    ensures DigitsValue(Digits(n)) == n
  {
    if n >= 10 {
      var d := Digits(n);
      assert d[..|d| - 1] == Digits(n / 10);
      DigitsRoundTrip(n / 10);
    }
  }

  /** `{}` of a signed integer: a minus sign for negative values, then the digits. */
  function SignedText(v: int): (r: seq<u8>)
    ensures v < 0 ==> r == [MINUS] + Digits(-v)
    ensures v >= 0 ==> r == Digits(v)
  {
    if v < 0 then [MINUS] + Digits(-v) else Digits(v)
  }

  predicate Ascii(s: seq<u8>) { forall i :: 0 <= i < |s| ==> s[i] < 0x80 }

  lemma {:induction false} AsciiIsValid(s: seq<u8>)
    requires Ascii(s)
    ensures ValidUtf8(s)
    decreases |s|
  {
    if s != [] {
      assert IsChar(s[..1]);
      AsciiIsValid(s[1..]);
    }
  }

  lemma DecimalIsValid(v: int)
    ensures ValidUtf8(SignedText(v))
  {
    AsciiIsValid(SignedText(v));
  }

  /** `char::from(u8)` written as UTF-8: the byte is a Latin-1 code point. */
  function Latin1(b: u8): (r: seq<u8>)
    ensures ValidUtf8(r)
    ensures b < 0x80 ==> r == [b]
    ensures b >= 0x80 ==> |r| == 2 && (r[0] as int - 0xC0) * 64 + (r[1] as int - 0x80) == b
  {
    if b < 0x80 then
      assert IsChar([b]);
      [b]
    else
      var r: seq<u8> := [0xC0 + b / 64, 0x80 + b % 64];
      assert IsChar(r) && r[2..] == [];
      r
  }

  /** `parse_int`: the value and length of the digit run at `begin`, or a panic on an index past the end. */
  datatype IntScan = NoInt | IntRun(value: nat, len: nat) | ScanPanic

  /** The first index at or after `i` that holds no digit, `|f|` if there is none. */
  function DigitRunEnd(f: seq<u8>, i: nat): (e: nat)
    requires i <= |f|
    ensures i <= e <= |f| && (e < |f| ==> !IsDigit(f[e]))
    ensures forall k :: i <= k < e ==> IsDigit(f[k])
    decreases |f| - i
  {
    if i == |f| || !IsDigit(f[i]) then i else DigitRunEnd(f, i + 1)
  }

  /** `DigitRunEnd` finds the end of the run: nothing else satisfies its contract. */
  lemma {:induction false} DigitRunEndAt(f: seq<u8>, i: nat, k: nat)
    requires i <= k <= |f| && (k == |f| || !IsDigit(f[k]))
    requires forall m :: i <= m < k ==> IsDigit(f[m])
    ensures DigitRunEnd(f, i) == k
    decreases k - i
  {
    if i < k {
      DigitRunEndAt(f, i + 1, k);
    }
  }

  function ParseInt(f: seq<u8>, begin: nat): (r: IntScan)
    ensures r.IntRun? ==> r.len >= 1 && begin + r.len < |f|
  {
    if begin >= |f| then ScanPanic
    else if !IsDigit(f[begin]) then NoInt
    else
      var e := DigitRunEnd(f, begin);
      if e == |f| then ScanPanic else IntRun(DigitsValue(f[begin..e]), e - begin)
  }

  /** Where a stage of directive parsing stopped: the next index and the next variable offset. */
  datatype Stage = At(pos: nat, next: nat) | StageErr(err: IError) | StagePanic

  /**
   * A width or a precision: a digit run, or `*` taking one `i32` variable,
   * or nothing.  A `*` width is negated when negative, which overflows
   * (a panic) on the least `i32`.
   */
  function IntOrStar(f: seq<u8>, pos: nat, vars: seq<seq<u8>>, next: nat, negates: bool): (r: Stage)
    ensures r.At? ==> pos <= r.pos <= |f| && next <= r.next <= next + 1
    ensures r.At? && r.pos > pos ==> r.pos < |f| || f[pos] == STAR
  {
    match ParseInt(f, pos)
    case ScanPanic => StagePanic
    case IntRun(_, len) => At(pos + len, next)
    case NoInt =>
      if f[pos] == STAR then
        match ReadStackVar(vars, next, 4)
        case Err(e) => StageErr(e)
        case Ok(b) => if negates && FromBE(b) == 0x8000_0000 then StagePanic else At(pos + 1, next + 1)
      else At(pos, next)
  }

  /** An optional `.` followed by a precision. */
  function Precision(f: seq<u8>, pos: nat, vars: seq<seq<u8>>, next: nat): (r: Stage)
    ensures r.At? ==> pos <= r.pos <= |f| && next <= r.next <= next + 1
  {
    if pos >= |f| then StagePanic
    else if f[pos] != DOT then At(pos, next)
    else IntOrStar(f, pos + 1, vars, next, false)
  }

  datatype Length = NoLength | Long | LongLong

  /** An optional `l` or `ll`: the length and the index of the conversion character. */
  function LengthAt(f: seq<u8>, pos: nat): (r: Option<(Length, nat)>)
    ensures r.Some? ==> pos <= r.value.1
  {
    if pos >= |f| then None
    else if f[pos] != LOWER_L then Some((NoLength, pos))
    else if pos + 1 >= |f| then None
    else if f[pos + 1] == LOWER_L then Some((LongLong, pos + 2))
    else Some((Long, pos + 1))
  }

  /** Text a directive writes: with `write!` (always well-formed) or with `write_utf8_lossy`. */
  datatype Emit = Text(text: seq<u8>) | LossyText(bytes: seq<u8>)

  function Render(e: Emit): seq<u8>
  {
    match e
    case Text(t) => t
    case LossyText(b) => Lossy(b)
  }

  datatype Directive = DirOk(emit: Emit, end: nat, next: nat) | DirErr(err: IError) | DirPanic | DirDiverge

  /** `%u`, `%i` and `%d`: an `n`-byte integer variable in decimal. */
  function IntText(bytes: seq<u8>, unsigned: bool): (t: seq<u8>)
    requires |bytes| >= 1
    ensures ValidUtf8(t)
    ensures unsigned ==> t == Digits(FromBE(bytes))
    ensures !unsigned ==> t == SignedText(ToSigned(FromBE(bytes), Pow256(|bytes|)))
  {
    var u := FromBE(bytes);
    var t := if unsigned then Digits(u) else SignedText(ToSigned(u, Pow256(|bytes|)));
    AsciiIsValid(t);
    t
  }

  /** `%u`, `%i`, `%d`: read an `n`-byte variable. */
  function IntConversion(st: State, next: nat, n: nat, pos: nat, unsigned: bool): (r: Directive)
    requires n >= 1
    ensures r.DirOk? ==> r.end == pos && r.next == next + 1 && ValidUtf8(Render(r.emit))
  {
    match ReadStackVar(st.vars, next, n)
    case Err(e) => DirErr(e)
    case Ok(b) => DirOk(Text(IntText(b, unsigned)), pos, next + 1)
  }

  /** `%c`: read a one-byte variable. */
  function CharConversion(st: State, next: nat, pos: nat): (r: Directive)
    ensures r.DirOk? ==> r.end == pos && r.next == next + 1 && ValidUtf8(Render(r.emit))
  {
    match ReadStackVar(st.vars, next, 1)
    case Err(e) => DirErr(e)
    case Ok(b) => DirOk(Text(Latin1(b[0])), pos, next + 1)
  }

  /** `%s`: the variable holds a pointer to a C string, which is written lossily. */
  function StringConversion(p: Program, st: State, next: nat, pos: nat): (r: Directive)
    ensures r.DirOk? ==> r.end == pos && r.next == next + 1 && ValidUtf8(Render(r.emit))
  {
    match ReadStackVar(st.vars, next, 8)
    case Err(e) => DirErr(e)
    case Ok(b) =>
      match VarSlice(p, st, DecodePointer(b))
      case Err(e) => DirErr(e)
      case Ok(slice) =>
        match CString(slice)
        case Err(e) => DirErr(e)
        case Ok(s) =>
          LossyIsValid(s);
          DirOk(LossyText(s), pos, next + 1)
  }

  /** The conversion character at `pos` and the variable it reads. */
  function Conversion(p: Program, st: State, f: seq<u8>, pos: nat, len: Length, next: nat): (r: Directive)
    ensures r.DirOk? ==> r.end == pos < |f| && ValidUtf8(Render(r.emit))
  {
    if pos >= |f| then DirPanic
    else
      var c := f[pos];
      var n := if len == NoLength then 4 else 8;
      if c == 117 || c == 105 || c == 100 then IntConversion(st, next, n, pos, c == 117)
      else if c == 99 then CharConversion(st, next, pos)
      else if c == PERCENT then
        LossyIsValid([PERCENT]);
        DirOk(LossyText([PERCENT]), pos, next)
      else if c == 115 then StringConversion(p, st, next, pos)
      else DirErr(Named("InvalidFormatString"))
  }

  /** The parts of a directive, in the order they are parsed. */
  datatype Part = Flags | Width | Prec | Len | Conv(len: Length)

  function PartsLeft(part: Part): nat
  {
    match part
    case Flags => 4
    case Width => 3
    case Prec => 2
    case Len => 1
    case Conv(_) => 0
  }

  /** The rest of a directive from `part` on, at index `pos` of the format. */
  function DirectiveFrom(p: Program, st: State, f: seq<u8>, pos: nat, next: nat, part: Part): (r: Directive)
    ensures r.DirOk? ==> pos <= r.end < |f| && ValidUtf8(Render(r.emit))
    decreases PartsLeft(part), |f| - pos
  {
    match part
    case Flags =>
      // the flags are skipped; they change nothing that is printed
      if pos < |f| && IsFlag(f[pos]) then DirectiveFrom(p, st, f, pos + 1, next, Flags)
      else DirectiveFrom(p, st, f, pos, next, Width)
    case Width =>
      if pos >= |f| then DirPanic
      else
        match IntOrStar(f, pos, st.vars, next, true) {
          case StageErr(e) => DirErr(e)
          case StagePanic => DirPanic
          case At(pos1, next1) => DirectiveFrom(p, st, f, pos1, next1, Prec)
        }
    case Prec =>
      match Precision(f, pos, st.vars, next) {
        case StageErr(e) => DirErr(e)
        case StagePanic => DirPanic
        case At(pos1, next1) => DirectiveFrom(p, st, f, pos1, next1, Len)
      }
    case Len =>
      match LengthAt(f, pos) {
        case None => DirPanic
        case Some((len, pos1)) => DirectiveFrom(p, st, f, pos1, next, Conv(len))
      }
    case Conv(len) => Conversion(p, st, f, pos, len, next)
  }

  /** One directive, starting just after its `%`. */
  function ParseDirective(p: Program, st: State, f: seq<u8>, pos: nat, next: nat): (r: Directive)
    requires pos < |f|
    ensures r.DirOk? ==> pos <= r.end < |f| && ValidUtf8(Render(r.emit))
  {
    DirectiveFrom(p, st, f, pos, next, Flags)
  }

  /**
   * The directive as `printf_internal` is written: its flag loop advances
   * `idx` instead of `idx2`, so at a flag character it tests the same byte
   * forever.
   */
  function ParseDirectiveAsWritten(p: Program, st: State, f: seq<u8>, pos: nat, next: nat): Directive
    requires pos < |f|
  {
    if IsFlag(f[pos]) then DirDiverge else DirectiveFrom(p, st, f, pos, next, Width)
  }

  /** Parsing a directive always ends: with its text, an error or a panic. */
  lemma {:induction false} DirectiveEnds(p: Program, st: State, f: seq<u8>, pos: nat, next: nat, part: Part)
    ensures !DirectiveFrom(p, st, f, pos, next, part).DirDiverge?
    decreases PartsLeft(part), |f| - pos
  {
    match part
    case Flags =>
      if pos < |f| && IsFlag(f[pos]) {
        DirectiveEnds(p, st, f, pos + 1, next, Flags);
      } else {
        DirectiveEnds(p, st, f, pos, next, Width);
      }
    case Width =>
      if pos < |f| {
        var s := IntOrStar(f, pos, st.vars, next, true);
        if s.At? {
          DirectiveEnds(p, st, f, s.pos, s.next, Prec);
        }
      }
    case Prec =>
      var s := Precision(f, pos, st.vars, next);
      if s.At? {
        DirectiveEnds(p, st, f, s.pos, s.next, Len);
      }
    case Len =>
      var l := LengthAt(f, pos);
      if l.Some? {
        DirectiveEnds(p, st, f, l.value.1, next, Conv(l.value.0));
      }
    case Conv(_) =>
  }

  /**
   * A flag after `%` makes the directive as written spin forever, while the
   * flag-skipping parse ends; `%0%` prints `%`.
   */
  lemma FlagLoopSpins(p: Program, st: State, f: seq<u8>, pos: nat, next: nat)
    requires pos < |f| && IsFlag(f[pos])
    ensures ParseDirectiveAsWritten(p, st, f, pos, next) == DirDiverge
    ensures !ParseDirective(p, st, f, pos, next).DirDiverge?
    ensures f == [PERCENT, ZERO, PERCENT] && pos == 1 ==>
              ParseDirective(p, st, f, pos, next) == DirOk(LossyText([PERCENT]), 2, next)
  {
    DirectiveEnds(p, st, f, pos, next, Flags);
    if f == [PERCENT, ZERO, PERCENT] && pos == 1 {
      assert ParseInt(f, 2) == NoInt;
      assert IntOrStar(f, 2, st.vars, next, true) == At(2, next);
      assert Precision(f, 2, st.vars, next) == At(2, next);
      assert LengthAt(f, 2) == Some((NoLength, 2));
      assert DirectiveFrom(p, st, f, 2, next, Len) == Conversion(p, st, f, 2, NoLength, next);
      assert DirectiveFrom(p, st, f, 2, next, Prec) == DirectiveFrom(p, st, f, 2, next, Len);
      assert DirectiveFrom(p, st, f, 2, next, Width) == DirectiveFrom(p, st, f, 2, next, Prec);
      assert DirectiveFrom(p, st, f, 1, next, Flags) == DirectiveFrom(p, st, f, 2, next, Flags);
    }
  }

  /** The index of the first `%` at or after `i`, `|f|` if there is none. */
  function NextPercent(f: seq<u8>, i: nat): (j: nat)
    requires i <= |f|
    ensures i <= j <= |f| && (j < |f| ==> f[j] == PERCENT)
    ensures forall k :: i <= k < j ==> f[k] != PERCENT
    decreases |f| - i
  {
    if i == |f| || f[i] == PERCENT then i else NextPercent(f, i + 1)
  }

  /** How `printf_internal` ended: done, with an error, with a panic, or never. */
  datatype PrintfStatus = Done | Failed(err: IError) | Panicked | Diverged

  /**
   * The variables of the main loop: `idx`, the offset of the next variable,
   * the text written so far, and how the loop ended once it has.
   */
  datatype Cfg = Cfg(idx: nat, next: nat, out: seq<u8>, status: Option<PrintfStatus>)

  /** How printing ends at a directive that does not parse. */
  function Stopped(d: Directive): PrintfStatus
    requires !d.DirOk?
  {
    match d
    case DirErr(e) => Failed(e)
    case DirPanic => Panicked
    case DirDiverge => Diverged
  }

  /**
   * One round of the main loop: copy the text up to the next `%`, then
   * interpret the directive after it.
   */
  function PrintStep(p: Program, st: State, f: seq<u8>, c: Cfg): (r: Cfg)
    requires c.status.None? && c.idx < |f|
    ensures r.status.None? ==> c.idx < r.idx <= |f|
    ensures r.status.Some? ==> c.idx <= r.idx <= |f|
  {
    var j := NextPercent(f, c.idx);
    AfterText(p, st, f, j, c.next, c.out + Lossy(f[c.idx..j]))
  }

  /**
   * The rest of a round once `out` holds the text up to `j`, the next `%`
   * or the end of the format: stop at the end, fail on a trailing `%`,
   * otherwise print the directive after the `%`.
   */
  function AfterText(p: Program, st: State, f: seq<u8>, j: nat, next: nat, out: seq<u8>): (r: Cfg)
    requires j <= |f|
    ensures r.status.None? ==> j < r.idx <= |f|
    ensures r.status.Some? ==> r.idx == j
    ensures r.out == out || (r.status.None? && j + 1 < |f| && ParseDirective(p, st, f, j + 1, next).DirOk? &&
                             r.out == out + Render(ParseDirective(p, st, f, j + 1, next).emit))
  {
    if j == |f| then Cfg(j, next, out, Some(Done))
    else if j + 1 == |f| then Cfg(j, next, out, Some(Failed(Named("InvalidFormatString"))))
    else
      var d := ParseDirective(p, st, f, j + 1, next);
      if d.DirOk? then Cfg(d.end + 1, d.next, out + Render(d.emit), None)
      else Cfg(j, next, out, Some(Stopped(d)))
  }

  /** A round appends only well-formed UTF-8 to what was written. */
  lemma PrintStepValid(p: Program, st: State, f: seq<u8>, c: Cfg)
    requires c.status.None? && c.idx < |f| && ValidUtf8(c.out)
    ensures ValidUtf8(PrintStep(p, st, f, c).out)
  {
    var j := NextPercent(f, c.idx);
    var out1 := c.out + Lossy(f[c.idx..j]);
    LossyIsValid(f[c.idx..j]);
    ValidConcat(c.out, Lossy(f[c.idx..j]));
    var r := AfterText(p, st, f, j, c.next, out1);
    if r.out != out1 {
      ValidConcat(out1, Render(ParseDirective(p, st, f, j + 1, c.next).emit));
    }
  }

  /** The main loop, run until it ends. */
  function PrintLoop(p: Program, st: State, f: seq<u8>, c: Cfg): (r: Cfg)
    requires c.idx <= |f|
    ensures r.status.Some?
    decreases |f| - c.idx, if c.status.None? then 1 else 0
  {
    if c.status.Some? then c
    else if c.idx == |f| then c.(status := Some(Done))
    else PrintLoop(p, st, f, PrintStep(p, st, f, c))
  }

  /** The loop keeps what was written well-formed UTF-8, however it ends. */
  lemma {:induction false} PrintLoopValid(p: Program, st: State, f: seq<u8>, c: Cfg)
    requires c.idx <= |f| && ValidUtf8(c.out)
    ensures ValidUtf8(PrintLoop(p, st, f, c).out)
    decreases |f| - c.idx, if c.status.None? then 1 else 0
  {
    if c.status.None? && c.idx < |f| {
      PrintStepValid(p, st, f, c);
      PrintLoopValid(p, st, f, PrintStep(p, st, f, c));
    }
  }

  /** The format string of a call: stack variable `offset` holds a pointer to a C string. */
  function FormatString(p: Program, st: State, offset: nat): (r: Result<seq<u8>, IError>)
    ensures r.Ok? ==> 0 !in r.value
  {
    match ReadStackVar(st.vars, offset, 8)
    case Err(e) => Err(e)
    case Ok(b) =>
      match VarSlice(p, st, DecodePointer(b))
      case Err(e) => Err(e)
      case Ok(slice) => CString(slice)
  }

  /**
   * `printf_internal`: the format at stack variable `offset`, its arguments
   * in the variables after it, appended to `out`.
   */
  function PrintfInternal(p: Program, st: State, offset: nat, out: seq<u8>): (r: Cfg)
    ensures r.status.Some?
  {
    match FormatString(p, st, offset)
    case Err(e) => Cfg(0, offset, out, Some(Failed(e)))
    case Ok(f) => PrintLoop(p, st, f, Cfg(0, offset + 1, out, None))
  }

  /** Whatever happens, the text written to a fresh writer is well-formed UTF-8. */
  lemma PrintfIsValid(p: Program, st: State, offset: nat)
    ensures ValidUtf8(PrintfInternal(p, st, offset, []).out)
  {
    assert ValidUtf8([]);
    if FormatString(p, st, offset).Ok? {
      PrintLoopValid(p, st, FormatString(p, st, offset).value, Cfg(0, offset + 1, [], None));
    }
  }

  /** `NextPercent` finds the first `%`: nothing else satisfies its contract. */
  lemma {:induction false} NextPercentAt(f: seq<u8>, i: nat, k: nat)
    requires i <= k <= |f| && (k == |f| || f[k] == PERCENT)
    requires forall m :: i <= m < k ==> f[m] != PERCENT
    ensures NextPercent(f, i) == k
    decreases k - i
  {
    if i < k {
      NextPercentAt(f, i + 1, k);
    }
  }

  /** A format without `%` is copied, lossily, and reads no variable. */
  lemma PlainFormat(p: Program, st: State, f: seq<u8>, next: nat)
    requires PERCENT !in f && f != []
    ensures PrintLoop(p, st, f, Cfg(0, next, [], None)) == Cfg(|f|, next, Lossy(f), Some(Done))
  {
    NextPercentAt(f, 0, |f|);
    assert f[0..|f|] == f;
  }

  /** `%` at the very end of the format is an error, after the text before it is written. */
  lemma TrailingPercent(p: Program, st: State, f: seq<u8>, next: nat)
    requires PERCENT !in f
    ensures PrintLoop(p, st, f + [PERCENT], Cfg(0, next, [], None)).status == Some(Failed(Named("InvalidFormatString")))
    ensures PrintLoop(p, st, f + [PERCENT], Cfg(0, next, [], None)).out == Lossy(f)
  {
    var g := f + [PERCENT];
    assert forall m :: 0 <= m < |f| ==> g[m] == f[m] && f[m] in f;
    NextPercentAt(g, 0, |f|);
    assert g[0..|f|] == f;
  }
}
