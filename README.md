# tci core, modelled in Dafny

tci is a teaching C compiler and interpreter. A typed C program is compiled
into a stream of stack-machine opcodes. A byte-level interpreter runs those
opcodes, and a small web front end shows what the program prints. This
project models five parts of that system and proves properties of each.

- **The interpreter** (`src/interpreter.rs`):
  - one step of `Runtime::run_op_internal` over every opcode it executes, as
    a function on a machine state (`OpSemantics`);
  - the `Runtime` class that performs that step through its `Memory`
    (`Interpreter`, `MemoryModel`);
  - the step loops `run_op`, `run_op_count` and `run_count_or_until`;
  - the environment calls and the library functions `exit`, `realloc` and
    `printf` (`Library`, with `printf_internal` specified by `PrintfSpec`).
- **The utilities of `src/util.rs`**:
  - alignment and the nullable `n32` (`Numeric`);
  - the pairwise `fold_binary` (`FoldBinary`);
  - the lossy UTF-8 chunk iterator (`Utf8`);
  - the UTF-8 string writers (`Writers`);
  - the packed `StringArray` (`StringArrays`);
  - the open-addressing `HashRef` table (`HashRefs`).
- **The code generator** (`src/assembler.rs`, module `Assembler`):
  - translating typed expressions and statements into opcodes;
  - collecting function headers;
  - linking calls in `assemble`.
- **The C bootstrap's support code** (`src/util.c`, `src/util.h`,
  `src/parser_1.h`):
  - the bump allocator (`BumpAlloc`);
  - the growable char array (`CharArray`);
  - length-carrying strings and `streq` (`CStrings`);
  - the parser's token push-back stack and the first check of
    `parse_global_decl` (`Parser`).
- **The front end** (`frontend/src/components`):
  - the terminal's reaction to the messages the interpreter sends
    (`Terminal`);
  - the file-upload suffix check and file list (`FileUpload`).

How the model is built:

- **Machine words.** Bytes are `u8` values, and machine words are big-endian
  byte sequences (`Bytes.ToBE`/`FromBE`). Every wrap-around, truncating
  cast and truncating division of the Rust code is written out (`Wrap`,
  `ToSigned`, `TruncDiv`).
- **Errors.** Errors are values: `IError` for the interpreter and
  `AsmError` for the code generator. A Rust panic is a status of its own
  (`Panicked`).
- **State that changes in place.** Code that mutates state is a class whose
  methods are proved against a specification function, for example
  `Runtime.RunOpInternal` against `OpSemantics.Exec`. The properties of
  that function are proved as lemmas (`OpProperties`).
- **Corrected behaviour.** Four places where the source evidently does not
  do what its authors meant are listed under "## Findings". Each is modelled
  twice: as written, with a lemma that shows the difference, and corrected.
  The step function, the runtime, `printf` and the code generator run the
  corrected versions; "## Left out" names each member that does.
- **Outside inputs as parameters.** The lexer is a token stream, the
  address `malloc` returns is a number, and the result of reading an
  uploaded file is an outcome.

## Model

| member | source | states |
|---|---|---|
| Numeric.AlignUp | src/util.rs:215-229 | size 0 stays 0; a zero alignment is the only failure on a non-zero size; the result fits the word |
| Numeric.AlignUpBounds | src/util.rs:215-229 | when nothing overflows, the result is the least multiple of `align` that is at least `size` |
| Numeric.AlignUpIdempotent | src/util.rs:215-229 | a size that is already a multiple of the alignment is returned unchanged |
| Numeric.U32ToU32Tup | src/util.rs:240-242 | the first half is the top 16 bits of the value, and the second half is the value itself |
| Numeric.NewN32 | src/util.rs:917-924 | construction fails exactly on the reserved null value `u32::MAX`; otherwise it keeps the value |
| Numeric.IntoU32 | src/util.rs:926-934 | the conversion is None exactly for the null `n32`; otherwise it gives back the stored value |
| Numeric.AddN32 | src/util.rs:942-952 | the sum wraps modulo 2^32; it is null exactly when the wrapped sum is the reserved value; without wrap it is the exact sum |
| Numeric.IntoNewRoundTrip | src/util.rs:917-934 | converting a new `n32` back to `u32` gives the original value |
| Numeric.AddThenInto | src/util.rs:917-952 | adding to an `n32` without reaching the null value gives the arithmetic sum |
| FoldBinary.PairUp | src/util.rs:244-300 | one pass of pairing halves the length, rounding up, so the tree fold terminates |
| FoldBinary.FoldLeftPairUp | src/util.rs:244-300 | for an associative reducer, one pairing pass does not change the left-to-right fold |
| FoldBinary.FoldTreeIsFoldLeft | src/util.rs:244-300 | for an associative reducer, the pairwise tree fold equals the sequential left fold |
| FoldBinary.ConcatenationInOrder | src/util.rs:244-300 | folding strings by concatenation joins them in their original order |
| FoldBinary.PairRest | src/util.rs:257-269 | the in-place pairing loop appends the pairing of the remaining items to what it has built |
| FoldBinary.Fold | src/util.rs:244-300 | no items give None, one item gives itself, and more items give their tree fold |
| Utf8.ContTagIsTail | src/util.rs:545-584 | the bit test `b & 192 == 128` holds exactly for the continuation bytes 0x80..0xBF |
| Utf8.CharWidth | src/util.rs:450-467 | the width table gives at most 4, and gives 0 exactly for continuation bytes, 0xC0, 0xC1 and 0xF5 and above |
| Utf8.CharAt | src/util.rs:544-589 | a non-zero length is the width of the lead byte, and those bytes form one well-formed character |
| Utf8.BrokenLen | src/util.rs:530-589 | a broken sequence takes at least one and at most three bytes |
| Utf8.CharAtIffComplete | src/util.rs:544-589 | a character is read exactly when the lead byte has a width and every following byte the table admits is present |
| Utf8.WidthZeroLeadBrokenAlone | src/util.rs:586-588 | a lead byte of width 0 is broken on its own |
| Utf8.BadSecondByteBrokenAlone | src/util.rs:545-575 | a second byte outside the lead byte's range breaks the lead byte alone |
| Utf8.LossyOfValid | src/util.rs:603-618 | lossy decoding leaves well-formed UTF-8 unchanged |
| Utf8.LossyIsValid | src/util.rs:603-618 | lossy decoding always yields well-formed UTF-8 |
| Utf8.LossyIdempotent | src/util.rs:603-618 | decoding lossily twice gives the same result as once |
| Utf8.LossyRejectsSurrogateAndOverlong | src/util.rs:544-589 | a surrogate becomes three replacement characters, an overlong NUL two, and a truncated sequence one |
| Utf8.LossyValidPrefix | src/util.rs:603-618 | a well-formed prefix passes through, and decoding resumes after it |
| Utf8.SafeGet | src/util.rs:513-515 | reading past the end gives 0, and reading inside gives the byte |
| Utf8.Utf8LossyChunksIter.constructor | src/util.rs:483-487 | the iterator starts on the whole input |
| Utf8.Utf8LossyChunksIter.Next | src/util.rs:504-600 | the valid part, the broken part and the rest together are the old input; the valid part is well-formed; an empty broken part ends the input; otherwise the broken part is what one replacement character stands for |
| Utf8.Utf8LossyChunksIter.SplitBroken | src/util.rs:530-541 | the error exit splits the input at the broken bytes, and the lossy text becomes valid + replacement + the lossy rest |
| Utf8.ScanChar | src/util.rs:517-591 | the scan either reads one whole character or stops at a broken sequence of exactly `BrokenLen` bytes |
| Writers.StringWriter.constructor | src/util.rs:330-334 | a new writer holds nothing |
| Writers.StringWriter.Text | src/util.rs:336-342 | the buffered text is always well-formed UTF-8 |
| Writers.StringWriter.Write | src/util.rs:352-356 | well-formed bytes are appended and their count returned; ill-formed bytes are refused with `InvalidInput` and nothing changes |
| Writers.StringWriter.FlushString | src/util.rs:344-348 | returns the whole buffer, which is well-formed, and leaves the writer empty |
| Writers.AppendLossy | src/util.rs:603-618 | appends the lossy decoding, and keeps a well-formed string well-formed |
| Writers.WriteLossy | src/util.rs:620-637 | on the string writer, the writer gains exactly the lossy decoding, and its length is returned |
| Writers.WriteNextChunk | src/util.rs:620-637 | each round moves one chunk into the writer without changing the total text, and the input shrinks until it is empty |
| StringArrays.StringArray.constructor | src/util.rs:690-695 | a new array holds no strings |
| StringArrays.StringArray.Len | src/util.rs:697-699 | the number of strings pushed |
| StringArrays.StringArray.Index | src/util.rs:709-715 | None exactly past the end; otherwise the string pushed at that index |
| StringArrays.StringArray.Push | src/util.rs:701-706 | the new string is last; earlier strings read back unchanged; the byte buffer and the ranges grow accordingly |
| HashRefs.MapOf | src/util.rs:750-791 | every key given is present, and the last pair given wins |
| HashRefs.MapOfLastWins | src/util.rs:750-791 | every value in the map comes from the last occurrence of its key |
| HashRefs.MapOfOnlyGivenKeys | src/util.rs:750-791 | no key appears that was not given |
| HashRefs.ProbeWrapsHome | src/util.rs:827-833 | linear probing visits every slot once and wraps back to the home slot |
| HashRefs.ProbeFindsRoom | src/util.rs:765-783 | while the table is not full, probing from any slot reaches an empty one |
| HashRefs.HashRef.constructor | src/util.rs:754-758 | an empty table with the requested number of slots |
| HashRefs.HashRef.Len | src/util.rs:800-802 | the number of distinct keys stored |
| HashRefs.HashRef.Insert | src/util.rs:760-788 | the contents become the old contents with the key set to the value; the table reports full exactly when every slot is used |
| HashRefs.HashRef.Get | src/util.rs:809-844 | the value stored for the key, or None when it is absent; a table without slots gives None |
| HashRefs.HashRef.Entries | src/util.rs:846-876 | iteration yields the occupied slots in slot order, and those are exactly the contents |
| HashRefs.HashRef.EntriesAreContents | src/util.rs:846-876 | the pairs in the occupied slots are exactly the key-value pairs of the contents |
| HashRefs.New | src/util.rs:750-791 | construction fails exactly when the distinct keys fill the capacity; otherwise the table holds the map of the pairs, the last one winning |
| HashRefs.MapOfGrows | src/util.rs:760-788 | inserting more pairs never shrinks the map, so the capacity check covers every prefix |
| Machine.Push | src/interpreter.rs:332-339 | the bytes are added on top, and nothing else changes |
| Machine.PopBytes | src/interpreter.rs:346 | pops n bytes exactly when n are there, returning the top n; otherwise a memory fault |
| Machine.PopPush | src/interpreter.rs:332-346 | popping what was just pushed gives back the bytes and the old state |
| Machine.DupTop | src/interpreter.rs:352-354 | the top n bytes are pushed again, when there are n |
| Machine.PopKeepBytes | src/interpreter.rs:347 | `drop` bytes under the top `keep` bytes are removed, when that many are there |
| Machine.DecodeEncode | src/interpreter.rs:337-339 | decoding an encoded variable pointer gives it back |
| Machine.ReadStackVar | src/interpreter.rs:754-758 | reads the first n bytes of a stack variable numbered from 1, or faults when out of range |
| Machine.WriteStackVar | src/interpreter.rs:778-779 | writes a prefix of one stack variable, keeping its length and every other variable |
| Machine.CString | src/interpreter.rs:658-674 | the bytes before the first 0, or `MissingNullTerminator` exactly when there is no 0 |
| MemoryModel.Memory.PushStack | src/interpreter.rs:332-339 | the state becomes `Push` of the old state |
| MemoryModel.Memory.PopStack | src/interpreter.rs:366-412 | the state and the result follow `PopBytes`, and a fault leaves the state unchanged |
| MemoryModel.Memory.DupTopStackBytes | src/interpreter.rs:352-354 | follows `DupTop`, and a fault leaves the state unchanged |
| MemoryModel.Memory.PopKeep | src/interpreter.rs:347 | follows `PopKeepBytes`, and a fault leaves the state unchanged |
| MemoryModel.Memory.Call | src/interpreter.rs:606-613 | jumps to the target and pushes a frame that returns after the call |
| MemoryModel.Memory.Ret | src/interpreter.rs:601-604 | follows `RetEffect`, and an empty call stack changes nothing |
| MemoryModel.Memory.AddHeapVar | src/interpreter.rs:643 | appends a zeroed heap variable and points at its start |
| MemoryModel.Memory.WriteStdout | src/interpreter.rs:775 | stdout gains the bytes, and nothing else changes |
| OpSemantics.Compute | src/interpreter.rs:437-535 | division and remainder by zero are the only failures; arithmetic yields a word of the operand width, and comparisons one byte |
| OpSemantics.CallEffect | src/interpreter.rs:606-613 | a call jumps exactly when the target is a function header; otherwise it panics |
| OpSemantics.ExitLib | src/interpreter.rs:754-758 | `exit` changes no state and always yields an exit code when it succeeds |
| OpSemantics.ReallocLib | src/interpreter.rs:710-746 | a pointer not from the heap, or one with an offset, fails with `InvalidPointer` and no change; success adds exactly one heap variable and reports no exit |
| OpSemantics.PrintfLib | src/interpreter.rs:760-782 | `printf` changes only stdout and the stack variables, and never exits |
| OpSemantics.PrintfFormatVar | src/interpreter.rs:761-768 | the count of arguments is missing exactly when the top variable is too short; otherwise the format variable lies in range |
| OpSemantics.PrintfDone | src/interpreter.rs:772-781 | the text is written to stdout even when formatting failed, and then the error is returned |
| OpSemantics.LibCallEffect | src/interpreter.rs:614-624 | a library call never jumps, and a failure leaves `pc` where it was; an exit code stops the program (corrected) |
| OpSemantics.EcallEffect | src/interpreter.rs:626-651 | an environment call never jumps, and a failure leaves `pc` where it was; the `ECALL_ARGV` index is read big-endian (corrected) |
| OpSemantics.OpEffectFrom | src/interpreter.rs:309-652 | only jumps, conditional jumps, calls and returns move `pc` themselves, and no failure moves it |
| OpSemantics.RunOp | src/interpreter.rs:297-306 | `run_op` ends with the status of `run_op_internal` |
| OpProperties.BinaryStep | src/interpreter.rs:437-535 | a binary op pops two words and pushes their result, or panics on division by zero |
| OpProperties.ArithmeticWraps | src/interpreter.rs:437-535 | add, subtract and multiply agree with exact arithmetic modulo 2^(8w), and are exact when the result fits |
| OpProperties.SignedDivision | src/interpreter.rs:452-456 | signed division rounds toward zero |
| OpProperties.UnsignedDivision | src/interpreter.rs:457-461 | unsigned division and remainder are the Euclidean quotient and remainder |
| OpProperties.ComparisonStep | src/interpreter.rs:463-500 | a comparison replaces two words by one byte, 1 exactly when the relation holds |
| OpProperties.ExtendStep | src/interpreter.rs:365-412 | an extension widens the top value, keeping its signed or unsigned value |
| OpProperties.JumpStep | src/interpreter.rs:538-541 | a jump sets `pc` to its target and changes nothing else |
| OpProperties.CondJumpStep | src/interpreter.rs:543-599 | a conditional jump pops the condition word and jumps exactly when its zero test matches |
| OpProperties.SwapStep | src/interpreter.rs:355-359 | swap exchanges the top two blocks of the stated sizes |
| OpProperties.FallThroughAdvancesPc | src/interpreter.rs:654 | every op that neither jumps nor calls nor returns advances `pc` by one |
| OpProperties.EcallExit | src/interpreter.rs:626-628 | `ECALL_EXIT` pops a 32-bit signed code and stops with it |
| OpProperties.EcallArgc | src/interpreter.rs:629-631 | `ECALL_ARGC` pushes the argument count as a 32-bit word |
| OpProperties.EcallArgvOutOfRange | src/interpreter.rs:632-640 | an index past the arguments fails with `InvalidArgumentIndex` |
| OpProperties.EcallArgv | src/interpreter.rs:632-648 | `ECALL_ARGV` pushes a pointer to a new heap copy of the argument, and reading that pointer as a C string gives the argument back |
| OpProperties.CStringOfTerminated | src/interpreter.rs:658-674 | reading a 0-terminated string gives the text before the 0 |
| OpProperties.EcallInvalid | src/interpreter.rs:649-651 | any other environment call fails with `InvalidEnviromentCall` and changes nothing |
| OpProperties.LibCallUnregistered | src/interpreter.rs:617-623 | a symbol missing from the library table fails with `InvalidLibraryFunction` |
| OpProperties.CallThenRet | src/interpreter.rs:601-613 | a call enters after the function header with one more frame, and the matching return resumes after the call with the old state |
| OpProperties.FailureKeepsPc | src/interpreter.rs:309-656 | a failing op does not advance `pc` |
| OpProperties.RunOpRecordsError | src/interpreter.rs:297-306 | a failure also pushes the location of the failing op onto the call stack |
| OpProperties.RunCountIterates | src/interpreter.rs:267-277 | `run_op_count` is `count` steps of `run_op`, stopping at the first that does not continue |
| OpProperties.RunUntilIterates | src/interpreter.rs:279-295 | `run_count_or_until` is the same loop with the target and call-depth tests |
| OpProperties.RunCountStops | src/interpreter.rs:267-277 | once the run stops, further steps change nothing |
| OpProperties.RunUntilIsPrefix | src/interpreter.rs:279-295 | `run_count_or_until` ends after at most `count` steps of `run_op_count`; an early end is at the target `pc` or a shallower call stack |
| OpProperties.LibCallDropsExit | src/interpreter.rs:614-616 | the corrected library call stops with `exit`'s code, while the call as written falls through |
| OpProperties.ArgvByteOrder | src/interpreter.rs:632-634 | with the stack `[0,0,0,1]`, the index as written is 2^24 and fails, while the big-endian reading gives argument 1 |
| Interpreter.Runtime.constructor | src/interpreter.rs:309-310 | the runtime holds the program and its memory |
| Interpreter.Runtime.StackOp | src/interpreter.rs:332-359 | the memory ends as `StackArm` specifies |
| Interpreter.Runtime.SwapOp | src/interpreter.rs:355-359 | the memory ends as `SwapEffect` specifies |
| Interpreter.Runtime.BinaryOp | src/interpreter.rs:437-535 | the memory ends as `BinaryEffect` specifies |
| Interpreter.Runtime.ExtendOp | src/interpreter.rs:365-412 | the memory ends as `ExtendEffect` specifies |
| Interpreter.Runtime.CondJumpOp | src/interpreter.rs:543-599 | the memory ends as `CondJumpEffect` specifies |
| Interpreter.Runtime.CallOp | src/interpreter.rs:606-613 | the memory ends as `CallEffect` specifies |
| Interpreter.Runtime.RetOp | src/interpreter.rs:601-604 | the memory ends as `RetEffect` specifies |
| Interpreter.Runtime.EcallOp | src/interpreter.rs:626-651 | the memory ends as `EcallEffect` specifies |
| Interpreter.Runtime.LibCallOp | src/interpreter.rs:614-624 | the memory ends as `LibCallEffect` specifies |
| Interpreter.Runtime.RunOpInternal | src/interpreter.rs:309-656 | the status and the new memory are those of `Exec`, with the corrected library exit, `ECALL_ARGV` and `printf` flags |
| Interpreter.Runtime.RunOp | src/interpreter.rs:297-306 | the status and the new memory are those of `OpSemantics.RunOp` |
| Interpreter.Runtime.RunOpCount | src/interpreter.rs:267-277 | the status and the new memory are those of `RunCount` |
| Interpreter.Runtime.RunCountOrUntil | src/interpreter.rs:279-295 | the status and the new memory are those of `RunUntil` |
| Library.CStringAt | src/interpreter.rs:658-674 | the string ends at the first 0 |
| Library.CStringBytes | src/interpreter.rs:658-674 | the variable's bytes up to their first 0, or the error of reading the variable |
| Library.ParseIntAt | src/interpreter.rs:812-830 | the digit scan agrees with `ParseInt` |
| Library.IntOrStarAt | src/interpreter.rs:872-884 | the width scan agrees with `IntOrStar` |
| Library.LengthModifier | src/interpreter.rs:900-910 | the length scan agrees with `LengthAt` |
| Library.ConvertAt | src/interpreter.rs:912-969 | the conversion agrees with `Conversion` |
| Library.ParseDirectiveAt | src/interpreter.rs:855-969 | the directive parse, skipping the flags, agrees with `ParseDirective` |
| Library.PrecisionOn | src/interpreter.rs:886-969 | the rest of the directive from the precision on agrees with `DirectiveFrom` |
| Library.LengthOn | src/interpreter.rs:900-969 | the rest of the directive from the length on agrees with `DirectiveFrom` |
| Library.CopyText | src/interpreter.rs:833-843 | copies the text up to the next `%` lossily and stops there |
| Library.PrintRound | src/interpreter.rs:832-971 | one round of the main loop is one `PrintStep` |
| Library.PrintAfterText | src/interpreter.rs:845-971 | the end of a round stops at the end of the format, fails on a trailing `%`, or prints one directive |
| Library.WriteEmit | src/interpreter.rs:912-969 | the writer gains exactly the rendered directive |
| Library.PrintfInternal | src/interpreter.rs:785-975 | the status and the text written are those of `PrintfSpec.PrintfInternal`, which skips the flags (corrected) |
| Library.CopyLoop | src/interpreter.rs:735-742 | the byte-copy loop of `realloc` agrees with `CopyBytes` and changes only the heap |
| Library.Exit | src/interpreter.rs:754-758 | agrees with `ExitLib`, and a success carries an exit code |
| Library.Printf | src/interpreter.rs:760-782 | agrees with `PrintfLib`, and `pc` is unchanged |
| Library.FormatVar | src/interpreter.rs:761-768 | agrees with `PrintfFormatVar` |
| Library.PrintfAt | src/interpreter.rs:765-782 | agrees with `PrintfAt` |
| Library.FinishPrintf | src/interpreter.rs:773-781 | agrees with `PrintfDone` |
| Library.Realloc | src/interpreter.rs:710-746 | agrees with `ReallocLib`, and `pc` is unchanged |
| PrintfSpec.Digits | src/interpreter.rs:912-949 | decimal digits, with no leading zero |
| PrintfSpec.DigitsRoundTrip | src/interpreter.rs:912-949 | reading the digits back gives the number |
| PrintfSpec.SignedText | src/interpreter.rs:932-949 | a negative number is a minus sign and the digits of its magnitude |
| PrintfSpec.DecimalIsValid | src/interpreter.rs:912-949 | printed numbers are valid UTF-8 |
| PrintfSpec.Latin1 | src/interpreter.rs:950-953 | `%c` prints the byte as the character of that code point, in one or two UTF-8 bytes |
| PrintfSpec.DigitRunEnd | src/interpreter.rs:812-830 | the end of the maximal run of digits |
| PrintfSpec.ParseInt | src/interpreter.rs:812-830 | a parsed number has at least one digit and leaves a byte after it |
| PrintfSpec.IntText | src/interpreter.rs:912-949 | `%u` prints the unsigned value and `%d` the signed value of the argument's bytes |
| PrintfSpec.Conversion | src/interpreter.rs:912-969 | a conversion ends at its conversion character and prints valid UTF-8 |
| PrintfSpec.ParseDirective | src/interpreter.rs:855-969 | a directive ends inside the format and prints valid UTF-8 |
| PrintfSpec.DirectiveEnds | src/interpreter.rs:855-969 | once the flags are skipped, parsing a directive always ends, with text, an error or a panic |
| PrintfSpec.FlagLoopSpins | src/interpreter.rs:860-870 | a flag after `%` makes the directive as written spin forever, while the corrected parse ends; `%0%` prints `%` |
| PrintfSpec.NextPercent | src/interpreter.rs:833-843 | the first `%` from the index on, or the end of the format |
| PrintfSpec.AfterText | src/interpreter.rs:845-971 | a stop leaves the index in place; otherwise it advances past one directive and appends what that directive prints |
| PrintfSpec.PrintStepValid | src/interpreter.rs:832-971 | one round keeps the output valid UTF-8 |
| PrintfSpec.PrintLoopValid | src/interpreter.rs:832-971 | the whole loop keeps the output valid UTF-8 |
| PrintfSpec.FormatString | src/interpreter.rs:792 | the format is read as a C string, so it contains no 0 |
| PrintfSpec.PrintfIsValid | src/interpreter.rs:785-975 | everything `printf` prints is valid UTF-8 |
| PrintfSpec.PlainFormat | src/interpreter.rs:833-843 | a format without `%` is printed lossily as it is |
| PrintfSpec.TrailingPercent | src/interpreter.rs:845-853 | a trailing `%` fails with `InvalidFormatString` after the text before it is printed |
| Assembler.RetIndex | src/assembler.rs:138 | the return slot index, wrapped to 16 bits |
| Assembler.RetIndexBelowParams | src/assembler.rs:138 | without wrap, the return slot is the variable just below the parameters |
| Assembler.VarargsCount | src/assembler.rs:322 | the argument count pushed for varargs, exact below 2^31 |
| Assembler.TranslateExprTrace | src/assembler.rs:174-354 | an expression's code calls exactly its call targets in evaluation order and appends exactly its string literals to the data |
| Assembler.TranslateAssignTrace | src/assembler.rs:356-386 | likewise for an assignment target |
| Assembler.StringLiteralStored | src/assembler.rs:192-200 | a string literal is stored 0-terminated as a new data variable and pushed as a pointer to it |
| Assembler.BinaryPostOrder | src/assembler.rs:210-228 | a binary expression is its left operand's code, then its right operand's code, then the op |
| Assembler.CallLayout | src/assembler.rs:301-350 | a call allocates the return slot, evaluates each argument into its own slot, adds the varargs count, calls, then deallocates |
| Assembler.CallTailTargets | src/assembler.rs:319-350 | the code after the arguments calls only the callee |
| Assembler.TranslateStmtTrace | src/assembler.rs:122-172 | a statement's code calls exactly its call targets and appends exactly its literals |
| Assembler.StmtLayout | src/assembler.rs:134-169 | a return with a value stores it in the return slot and returns; an expression statement pops its value; a declaration allocates then initialises |
| Assembler.TranslateStmtsTrace | src/assembler.rs:108-111 | a function body's code calls exactly the targets of its statements in order |
| Assembler.StmtsFirstError | src/assembler.rs:108-111 | the first statement that fails decides the outcome of the body |
| Assembler.Existing | src/assembler.rs:72-81 | a new declaration fails exactly when an earlier one has a different signature |
| Assembler.AddFunctionAsWritten | src/assembler.rs:83-94 | as written, a declaration stores the function without a header |
| Assembler.AddFunctionOutcome | src/assembler.rs:71-120 | a signature mismatch and a second definition are exactly the two errors, and a declaration can only fail by mismatch |
| Assembler.DeclarationEmitsNothing | src/assembler.rs:88-94 | a declaration emits no code, keeps the header already known, and leaves other functions unchanged |
| Assembler.DefinitionLayout | src/assembler.rs:96-120 | a definition emits its header op, its body and a return, and records the header's index |
| Assembler.PatchCalls | src/assembler.rs:414-433 | linking keeps the length of the code |
| Assembler.AssembleEffect | src/assembler.rs:409-433 | success needs a defined `main`, and the entry point is its header |
| Assembler.PatchCallsResolved | src/assembler.rs:414-433 | linking succeeds exactly when every called function is defined or a library function, and patches every op independently |
| Assembler.PatchCallMeaning | src/assembler.rs:416-430 | a call to a defined function jumps to its header, a call to a library function becomes a library call, and other ops are unchanged |
| Assembler.PatchFirstError | src/assembler.rs:414-433 | the first unresolvable call decides the error |
| Assembler.DeclarationAfterDefinition | src/assembler.rs:83-94 | a redeclaration after a definition drops the header as written, and keeps it in the corrected version |
| Assembler.MainDeclaredAfterDefinition | src/assembler.rs:83-94 | as written, `main` defined and then declared reports a missing main, and the corrected version links |
| Assembler.ReturnSizes | src/assembler.rs:58-61 | the table holds every function's return size |
| Assembler.ReturnSizesLast | src/assembler.rs:58-61 | the last entry for a function decides its return size |
| Assembler.Assembler.constructor | src/assembler.rs:46-53 | an empty code generator |
| Assembler.Assembler.RecordReturnSizes | src/assembler.rs:58-61 | records the return sizes, and nothing else changes |
| Assembler.Assembler.AddFunction | src/assembler.rs:71-120 | the state follows `AddFunctionEffect`, which keeps a known header on redeclaration (corrected), and its two errors change nothing |
| Assembler.Assembler.TranslateStatement | src/assembler.rs:122-172 | returns `TranslateStmt`'s code and keeps its data |
| Assembler.Assembler.EmitStatements | src/assembler.rs:108-111 | appends the body's code as `TranslateStmts` gives it |
| Assembler.Assembler.Assemble | src/assembler.rs:409-433 | the result is `AssembleEffect`, and the tables are unchanged |
| BumpAlloc.AlignUp | src/util.c:15-25 | the aligned bump pointer, in 64-bit arithmetic |
| BumpAlloc.AlignUpRounds | src/util.c:15-25 | a non-null result is the least multiple of 8 not below the pointer; NULL and addresses in the last 8 bytes wrap to 0 |
| BumpAlloc.BumpPtr | src/util.c:15-25 | succeeds exactly when the aligned block fits before the end, and then the pointer moves past it |
| BumpAlloc.BumpPtrFits | src/util.c:15-25 | a successful bump is 8-aligned, less than 8 bytes past the old pointer, and ends before the end |
| BumpAlloc.GrowLen | src/util.c:39-41 | the new bucket is 1.5 times the old one, or the requested size when that is larger |
| BumpAlloc.FirstFit | src/util.c:27-52 | the first bucket with room, or none |
| BumpAlloc.AllocOutcome | src/util.c:27-52 | only the first bucket with room changes; otherwise exactly one new bucket is linked after the last |
| BumpAlloc.AllocFresh | src/util.c:27-52 | the block handed out is fresh, aligned when bumped, and inside its bucket; every bucket stays valid |
| BumpAlloc.BucketList.constructor | src/util.c:54-60 | one empty bucket of 1024 bytes after the header |
| BumpAlloc.BucketList.BumpAlloc | src/util.c:27-52 | the pointer and the new chain are those of `Alloc` |
| BumpAlloc.BucketList.FindBucket | src/util.c:27-38 | the walk along `next` stops at `FirstFit` |
| CharArray.AddCapacity | src/util.c:68-82 | the capacity always covers the contents; the first allocation is at least 256; the capacity is unchanged when there is room |
| CharArray.FirstAddCapacity | src/util.c:68-76 | the first addition allocates 256 bytes, or 128 + 256 + len when that does not fit |
| CharArray.StringDynArray.constructor | src/util.c:62-66 | an empty array with no buffer |
| CharArray.StringDynArray.Add | src/util.c:68-82 | the contents gain exactly the first `len` bytes, and the capacity is `AddCapacity` |
| CharArray.StringDynArray.Finalize | src/util.c:84-88 | the contents gain a terminating 0, and the capacity grows by one only when full |
| CStrings.StrLen | src/util.h:80-83 | the index of the first 0 |
| CStrings.CText | src/util.h:80-83 | the C string's text: no 0, and followed by a 0 in the buffer |
| CStrings.StringNew | src/util.h:80-83 | the string's text is the C string before its terminator |
| CStrings.StrEq | src/util.h:107-117 | true exactly when the lengths agree and the bytes agree up to that length |
| CStrings.StringNewEqual | src/util.h:80-83 | a string made from a C string equals it |
| CStrings.EqualNeedsLength | src/util.h:85-117 | a different length means unequal, and `string_from_parts` with `strlen` is `string_new` |
| CStrings.ProperPrefixUnequal | src/util.h:107-117 | a proper prefix is not equal |
| Parser.PopState | src/parser_1.h:26-33 | the token taken is the next upcoming one, and the rest of the stream moves up by one |
| Parser.PushUpcoming | src/parser_1.h:35-42 | a pushed token comes next, before the rest |
| Parser.PopAfterPush | src/parser_1.h:26-42 | popping after a push gives the token and the old state back |
| Parser.PeekKeepsStream | src/parser_1.h:44-48 | a peek returns the next token and leaves the upcoming tokens unchanged |
| Parser.PushCapacity | src/parser_1.h:35-42 | there is room after a push; the capacity is unchanged when not full and grows by at least 16 when full |
| Parser.GlobalDeclOf | src/parser_1.h:53-86 | a token that cannot start a global declaration is the "found unrecognized token" error, and `typedef` is noted |
| Parser.Parser.constructor | src/parser_1.h:16-24 | a parser at the start of the lexer, with no pushed tokens |
| Parser.Parser.Pop | src/parser_1.h:26-33 | the token and new state are `PopState`'s |
| Parser.Parser.Push | src/parser_1.h:35-42 | the state becomes `PushState`'s, with capacity `PushCapacity` |
| Parser.Parser.Peek | src/parser_1.h:44-48 | returns the next token and leaves it pushed back |
| Parser.Parser.ParseGlobalDecl | src/parser_1.h:53-86 | the result is `GlobalDeclOf` the next token, and an error leaves the token stream unchanged |
| Terminal.Handle | frontend/src/components/terminal.js:143-158 | `Stdout` appends; `Compiled` and `Status` send `RunOp`; `Compiled` clears and `CompileError` replaces the content |
| Terminal.ContentWithoutReset | frontend/src/components/terminal.js:143-158 | with no reset, the content is the old content plus all stdout data |
| Terminal.ContentSinceReset | frontend/src/components/terminal.js:143-158 | the content is the last reset's text plus the stdout data after it |
| Terminal.SendsCounted | frontend/src/components/terminal.js:147-154 | one `RunOp` is sent for each `Compiled` or `Status`, and nothing else is sent |
| Terminal.StdoutAfterCompileError | frontend/src/components/terminal.js:143-158 | output after a compile error is appended to the rendered error |
| Terminal.TerminalView.constructor | frontend/src/components/terminal.js:129 | an empty terminal |
| Terminal.TerminalView.OnStdout | frontend/src/components/terminal.js:143-145 | the view follows `Handle` |
| Terminal.TerminalView.OnCompiled | frontend/src/components/terminal.js:147-150 | the view follows `Handle` |
| Terminal.TerminalView.OnStatus | frontend/src/components/terminal.js:152-154 | the view follows `Handle` |
| Terminal.TerminalView.OnCompileError | frontend/src/components/terminal.js:156-158 | the view follows `Handle` |
| Terminal.TerminalView.Receive | frontend/src/components/terminal.js:143-158 | the view follows `Handle` |
| FileUpload.AcceptedExactly | frontend/src/components/fileUpload.js:17-21 | a name is accepted exactly when it ends in `.c`, `.C` or `.h` |
| FileUpload.SuffixExamples | frontend/src/components/fileUpload.js:17-21 | `.H` and `.cpp` are refused; `.c`, `.C` and `.h` are accepted |
| FileUpload.Upload.constructor | frontend/src/components/fileUpload.js:4-7 | no alert, no files |
| FileUpload.Upload.OnChange | frontend/src/components/fileUpload.js:15-40 | a refused name raises the "Invalid file type" alert and adds nothing; an accepted name that is read is added with its text |
| FileUpload.Upload.Dismiss | frontend/src/components/fileUpload.js:84 | hides the alert only |
| FileUpload.Upload.Select | frontend/src/components/fileUpload.js:59-67 | records the clicked file as current, and nothing else changes |

## Left out

- `printf` flags, width and precision are parsed and checked, but they do not change the output, as in the source; padding is not modelled.
- StringArrays.StringArray.Index: the source panics on an index past the end; the model returns None there.
- HashRefs.HashRef.Get: the panic of the remainder by zero on a table without slots is the result None.
- HashRefs.New: the panic when the distinct keys reach the capacity, and the remainder by a zero capacity, are the result None; the unchecked `unwrap` of the frame allocation is not modelled.
- `printf` format parsing: `parse_int` reading past the end of the format is a panic of its own.
- Integer widths in `printf`: the count of variables passed is wrapped to 16 bits, and the `u16` subtractions that find the format are checked (`PrintfFormatVar`); the offsets are otherwise naturals.
- `Memory` and `VarPointer` are defined in runtime.rs, which is not part of this model. They are modelled by their effect on the machine state.
- Ops that work on stack variables through the frame pointer are not executed by the model: `StackAlloc`, `StackAllocDyn`, `StackDealloc`, `PushUndef`, `PopIntoTopVar`, `StackAddToTemp`, `MakeTempLocalStackPtr`, `GetLocal`, `SetLocal`, `Get` and `Set`.
- `MakeTempF64` is not executed by the model: floating point is out of scope.
- `malloc`, `memcpy` and `free` are not part of the library table modelled; `printf`, `exit` and `realloc` are.
- `Ret` with an empty call stack is a panic (`RetEffect` yields `Panic`); the runtime's own handling of that case is not visible.
- Debug-mode overflow checks: four are modelled as panics: `top + bottom` in `Swap` (`SwapEffect`), negating `i32::MIN` in a `*` width (`IntOrStar`), the `u16` underflows that find `printf`'s format (`PrintfFormatVar`) and `stack_len - 2` in `realloc` (`ReallocLib`). Every other arithmetic operation wraps, as in a release build.
- `INIT_SYMS`: the library table is the parameter `Program.libs`.
- Writers.WriteLossy: specialised to `StringWriter`, whose writes of well-formed text always succeed. The source's `write_utf8_lossy` takes any `io::Write`, passes on its errors with `?` and ignores short writes; neither is modelled.
- OpSemantics.Exec: follows the corrected library exit (`LibCallEffect`), `ECALL_ARGV` byte order (`ArgvEffect`) and `printf` flag skipping (`PrintfSpec.ParseDirective`). The source as written is `OpSemantics.LibCallAsWritten`, `OpSemantics.ArgvAsWritten` and `PrintfSpec.ParseDirectiveAsWritten`, which are not wired into the step.
- Interpreter.Runtime.RunOpInternal: follows `Exec`, so it runs the same three corrections. The as-written members are named on the line above.
- PrintfSpec.PrintfInternal: skips the flags. As written, a flag after `%` loops forever (`PrintfSpec.ParseDirectiveAsWritten`, lemma `PrintfSpec.FlagLoopSpins`); only that member yields `DirDiverge`. The divergence statuses of the step, the runtime and `printf` (`Diverge`, `LibDiverge`, `Diverged`) stand for that loop and are not reached by the corrected model.
- Library.PrintfInternal: follows `PrintfSpec.PrintfInternal`, so it skips the flags too.
- Assembler.Assembler.AddFunction: follows `AddFunctionEffect`, which keeps a known header when a declaration follows the definition. As written the header is dropped (`Assembler.AddFunctionAsWritten`).
- Errors writing to stdout are not modelled; stdout is a byte sequence that always accepts writes.
- `ECALL_ARGV`: the overflow of `len as u32 + 1` for an argument of 2^32 - 1 bytes is not modelled.
- `HashRef` takes its hash function as a parameter; the allocation into a bucket list is not modelled.
- `add_file` iterates a `HashMap` whose order is unspecified; the model takes the functions as a sequence in any order.
- `opcodes.len() as u32` in `add_function` is not truncated in the model.
- The `val.len() as u32 + 1` overflow for a string literal of 2^32 - 1 bytes is not modelled. The wrap in `Member`'s byte count is modelled.
- `TCFuncType` equality: declarations are compared by return size, parameter sizes and varargs (`SameSignature`), not by location.
- The type checker that builds the typed syntax tree is not part of this model; a type is its byte size.
- The `unwrap` panics of the code generator (a callee missing from the tables) are the errors `UnknownReturnSize` and `UnknownFunction`.
- The symbol of `main` and the set of library functions are parameters of `assemble`.
- The laying out of the program into one allocation at the end of `assemble` is not modelled.
- `translate_statement` panicking in the middle of a function: the model reports the error and does not describe the partly emitted state after it.
- BumpAlloc.BumpPtr: adds `bump + size` without wrap-around, so a block whose end would pass 2^64 is reported as not fitting; in C that pointer sum is undefined. Only the new bucket's addresses are kept below 2^64 by `BucketList.BumpAlloc`'s precondition.
- Bump allocator: the overflow of `next_len` and a failing `malloc` are not modelled. The address `malloc` returns is a parameter.
- CharArray.StringDynArray.Add: requires `len <= INT_MAX`; a larger `len` overflows the `int` loop counter, which C leaves undefined.
- `char_array_add`: capacity overflow and a failing `realloc` are not modelled.
- Parser stack: the 32-bit wrap of its capacity is not modelled.
- The lexer is a function from position to token; how it scans the text is not part of this model.
- Parser.Parser.ParseGlobalDecl: states the token stream only on the error path. The accepted path goes on into `parser_parse_type_prefix`, which is not part of this model, and the statement it fills is not modelled.
- util.h's `char_array_add_string` and the `dyn_array` macros, `read_file` and `t_itoa` are not modelled (file I/O and `snprintf`).
- Front end: `files.length` and `Object.entries` rendering, JSX and the commented-out keyboard code are not modelled.
- Front end: `FileReader` is the parameter `ReadOutcome`.
- FileUpload.Upload.OnChange: takes the chosen file's name, so it does not model an empty `event.target.files`, where `file.name` throws a `TypeError` and the handler stops with nothing changed.
- Front end: the upload context's `addFile` and `setCurrentFile` are recorded as the sequences `added` and `selected`.

## Findings

| source | as written | input that shows it | evidently intended | confidence | as-written member | corrected member |
|---|---|---|---|---|---|---|
| src/interpreter.rs:614-616 | `lib_func(self)?;` discards the `Some(code)` that `exit` returns, so a library `exit` falls through to the next op | `LibCall` of `exit` with 0 in the top stack variable | the program stops with that exit code, as `ECALL_EXIT` does | not executed | OpSemantics.LibCallAsWritten (lemma OpProperties.LibCallDropsExit) | OpSemantics.LibCallEffect |
| src/interpreter.rs:633-634 | the argument index is popped as a native `u32` without `u32::from_be`, while every other word on the stack is big-endian | stack `[0,0,0,1]` with two arguments: as written the index reads 2^24 on a little-endian host and fails with `InvalidArgumentIndex` | index 1, the second argument | not executed | OpSemantics.ArgvAsWritten (lemma OpProperties.ArgvByteOrder) | OpSemantics.ArgvEffect |
| src/assembler.rs:83-94 | a declaration stores `asm_func` with `func_header: None`, overwriting the header of an earlier definition | `int main() { }` followed by the declaration `int main();` | the declaration keeps the known header, so `assemble` finds `main` | not executed | Assembler.AddFunctionAsWritten (lemmas Assembler.DeclarationAfterDefinition, Assembler.MainDeclaredAfterDefinition) | Assembler.AddFunctionEffect |
| src/interpreter.rs:860-870 | the flag loop advances `idx` instead of `idx2`, so a flag byte after `%` is checked again forever | the format `%0%` (or `%05d`) | skip the flags (`idx2 += 1`), so `%0%` prints `%` | not executed | PrintfSpec.ParseDirectiveAsWritten (lemma PrintfSpec.FlagLoopSpins) | PrintfSpec.ParseDirective |
