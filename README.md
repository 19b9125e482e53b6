# brainfork: a verified model of the Brainfuck toolchain

brainfork compiles Brainfuck programs. It lexes the text into an
instruction buffer and either interprets the buffer or writes an
equivalent C program. The repository holds three generations of this
pipeline, and this project models each one's core.

- **`src/brainfork.c`, the folding pipeline.** `parse_instructions` lexes a
  NUL-terminated buffer in one pass. It skips whitespace and `//` comments,
  folds runs of `+`/`-` into one `OP_WRITE` and runs of `<`/`>` into one
  `OP_SHIFT`, and resolves brackets with a loop stack. It grows its
  instruction buffer by doubling.
  - `interpret_bf` runs the bytecode on a tape of `BF_MEMORY_STRIP_SIZE`
    (1024) cells. The cursor wraps.
  - `run_transpiler` lowers each instruction to one indented C line
    (`fprintf_indent`).
  - `strdup_dot_x` / `strdup_dot_x_strip` derive the output file names.
  - `run_interactive` is a read–eval loop on a persistent tape.
- **`src/Brainfork.c`, the older pipeline.** `parse_to_instructions` writes
  one instruction per command character and treats every other character
  as a comment. It links each `]` to its `[`, and then appends an
  `OP_PROGRAM_TERMINATE`.
  - `run_interpreter` executes that buffer.
  - `run_transpiler` folds the runs while it writes the C text
    (`fprintf_line`).
- **`Interpreter/BrainfuckInterpreter.c`, the first tokenizer.**
  `parse_to_tokens` turns every character into one token, and stops at the
  first character it does not know.

Each entity of the source becomes the Dafny form that matches the way the
source works:
- Instructions, lexer states and machine states are datatypes.
- `LoopStack` is a class over an `array` with a `pointer` field.
- The instruction and token buffers are arrays.
- The lexing, interpreting and lowering loops are methods with `while`
  loops.

Each method is proved equal to a specification function: `Lexer.Parse`,
`Machine.Run`, `Transpiler.Transpiled`, `LegacyLexer.Lex`,
`LegacyMachine.Run`, `LegacyTranspiler.Transpiled`, `Tokenizer.Tokenize`
and `Repl.Respond`. The properties are proved as lemmas about those
functions.

The model differs from what one would expect of a Brainfuck lexer in a
few places. In each case the model follows the code:

- **An open bracket stores its own buffer index.** `_position` holds the
  index of the `[`, and each `]` stores the index of its `[`. Nothing is
  back-patched. The interpreter therefore jumps to the `[` and re-enters
  the loop body without testing the cell first, so a loop body runs at
  least once (`Machine.LoopBodyRunsFirst`). The generated C uses `while`
  and tests the cell first. The two back ends are not claimed equivalent
  anywhere in the model.
- **A pass skips whitespace and then at most one comment.** When no run is
  pending:
  - A second comment line straight after the first is an unknown `/`.
  - Whitespace after a comment is an unknown token.

  This is shown in `Folding.CommentSkipsOnce`. With a run pending, a
  `+`/`-` (or `>`/`<`) right after the comment continues the run
  (`Folding.CommentInsideRunKeeps`). A blank or any other character there
  flushes the run, and the next pass starts at that character, so a second
  comment or the whitespace is skipped (`Folding.PendingRunSkipsTwoComments`,
  `Folding.CommentSplitsRun`).
- **A run that meets the terminator directly is dropped.** A run followed
  by the terminating NUL, with no whitespace between them, is never
  flushed (`Folding.TrailingRunNeedsWhitespace`). A run whose net is zero
  writes nothing (`Folding.ZeroRunVanishes`).
- **The older lexer does not reject an unmatched `[`.** It reports only an
  unmatched `]` (`LegacyLexer.UnmatchedOpenAccepted`).

Cells are `Byte` (0..255). Every cell update is taken modulo 256.

The cursor shift of `interpret_bf` is computed as written, with unsigned
64-bit wrap-around: `(sp + mov + size) mod 2^64 mod size`. It is proved
equal to `(sp + mov) mod size` (`Machine.ShiftIsModular`).

Printed output is a sequence of bytes, and the C file written is a
`string`. Every run is bounded by a `fuel` count of loop passes.

## Model

| member | source | states |
|---|---|---|
| `Instructions.ToByte` | src/brainfork.c:312 | the stored cell equals the exact sum modulo 256 |
| `LoopStacks.LoopStack.constructor` | src/brainfork.c:126-130 | a fresh empty stack with room for exactly the requested number of entries |
| `LoopStacks.LoopStack.Push` | src/brainfork.c:116-119 | with room left, the entry is appended on top and the array is kept |
| `LoopStacks.LoopStack.Pop` | src/brainfork.c:121-124 | on a non-empty stack, returns the top entry and removes exactly it |
| `Lexer.StrLen` | src/brainfork.c:175 | the index of the first NUL: a NUL there and none before |
| `Lexer.SkipWhitespace` | src/brainfork.c:194-197 | stops on the first non-whitespace character at or after the cursor, passing only whitespace |
| `Lexer.SkipToLineEnd` | src/brainfork.c:201 | stops on the first newline or NUL, passing neither |
| `Lexer.SkipComment` | src/brainfork.c:198-203 | passes the two slashes and the comment, then the newline if there is one, and never a NUL |
| `Lexer.SkipBlank` | src/brainfork.c:192-203 | the skips of one pass never move the cursor back or past the terminator |
| `Lexer.Iterate` | src/brainfork.c:190-284 | each pass advances the cursor or flushes a pending run, and never passes the terminator; this is why the loop ends |
| `Lexer.Dispatch` | src/brainfork.c:205-284 | a flush or the terminator leaves the cursor where it is; any other accepted character moves it by exactly one |
| `Lexer.AsWrittenStackEntries` | src/brainfork.c:128 | the byte count as written holds only floor(n/2) whole entries for a program of n characters |
| `Lexer.BoundedWithinLength` | src/brainfork.c:175 | the opens still pending never outnumber the characters consumed, and so never outnumber `strlen` |
| `Lexer.IterateBounded` | src/brainfork.c:236-252 | every pass keeps that bound, so a stack of `strlen` entries never overflows |
| `Lexer.SingleOpenOverflowsStack` | src/brainfork.c:236-240 | for the program `[`, one entry is pushed, but the capacity as written holds none |
| `Lexer.PushInstruction` | src/brainfork.c:269-281 | appends the instruction, doubling the capacity into a fresh array exactly when the buffer is full |
| `Lexer.SkipBlanks` | src/brainfork.c:194-203 | the `do`/`while` skips compute `SkipBlank` |
| `Lexer.SkipSpaces` | src/brainfork.c:194-197 | the whitespace `do`/`while` stops where `SkipWhitespace` does |
| `Lexer.SkipLineComment` | src/brainfork.c:198-203 | the comment skip, and its newline, stop where `SkipComment` does |
| `Lexer.Dispatched` | src/brainfork.c:207-284 | one pass over the real stack and buffer: success exactly when `Dispatch` succeeds, and then the new variables are its state |
| `Lexer.Pass` | src/brainfork.c:190-284 | one pass of the loop: success exactly when `Iterate` succeeds, and then the variables, the loop stack and the buffer hold its state, the capacity still a doubling of the initial one |
| `Lexer.LexLoop` | src/brainfork.c:183-285 | the `while (*program_content)` loop: a failed pass means `Parse` reports an error; otherwise it stops on the terminator, in the state from which `Parse` only has the `DEFER_END` check left, with the buffer's capacity a doubling of the initial one |
| `Lexer.ParseInstructions` | src/brainfork.c:171-298 | NULL exactly when `Parse` reports an error; otherwise the first `len` entries are `Parse`'s instructions, in a buffer of 64·2^k entries (`Capacity(k)`) |
| `Brackets.DispatchConsistent` | src/brainfork.c:236-252 | a pass keeps the stack equal to the unmatched opens, each open storing its own index and each close the index of its open |
| `Brackets.ParseLoopWellFormed` | src/brainfork.c:287-294 | a loop that ends without error, with no pending open, yields a fully resolved program |
| `Brackets.ParseWellFormed` | src/brainfork.c:171-298 | every program `parse_instructions` returns has its brackets matched and resolved |
| `Brackets.OpenPositionsAreOpens` | src/brainfork.c:236-240 | every pending position names an open that stores that same position |
| `Brackets.CloseTargetsOpen` | src/brainfork.c:241-252 | each close points to an earlier open that stores its own index |
| `Brackets.ClosedBetween` | src/brainfork.c:250-251 | an open that is pending at one point and not later was closed between the two points |
| `Brackets.EveryOpenCloses` | src/brainfork.c:288-294 | in a returned program every open has a later close that points to it |
| `Folding.ResolveKeepsTokens` | src/brainfork.c:236-255 | resolving brackets keeps the kind and payload of every token, in order |
| `Folding.WhitespaceTransparent` | src/brainfork.c:194-197 | one whitespace character changes nothing, unless a pending run sits just before the terminator |
| `Folding.RunFolds` | src/brainfork.c:230-261 | a maximal run of `+`/`-` or `<`/`>`, with whitespace inside it, adds its net count to the accumulator |
| `Folding.FoldAgrees` | src/brainfork.c:187-285 | on comment-free text of commands and whitespace, the loop equals the run-length `Fold` followed by `Resolve` |
| `Folding.ParseIsFoldThenResolve` | src/brainfork.c:171-298 | on comment-free text (no `/`, no NUL before the end), `Parse` equals the independent reference `Resolve(Fold(w))` |
| `Folding.ParseStoresFold` | src/brainfork.c:207-224 | on comment-free text, the stored instructions, brackets erased, are exactly the folded runs: one `OP_WRITE` with #`+` − #`-` per run, one `OP_SHIFT` with #`>` − #`<`, none for a zero net |
| `Folding.TrailingRunNeedsWhitespace` | src/brainfork.c:207-226 | `+` then NUL stores nothing; `+ ` then NUL stores `Write(1)` |
| `Folding.FlushRereads` | src/brainfork.c:207-214 | `+[-]` gives Write(1), Open(1), Write(-1), Close(1): a flush re-reads the character that ended the run |
| `Folding.ZeroRunVanishes` | src/brainfork.c:230-235 | `+-.` stores only `Print` |
| `Folding.CommentSkipsOnce` | src/brainfork.c:198-203 | one comment per pass: with no run pending, a second comment, or whitespace after a comment, is an unknown token |
| `Folding.PendingRunSkipsTwoComments` | src/brainfork.c:198-214 | with a run pending, the flush re-reads from just after the first comment, so `+//a\n//b\n.` gives `Write(1)`, `Print` |
| `Folding.CommentInsideRunKeeps` | src/brainfork.c:198-218 | a run symbol right after a comment continues the pending run: `+//a\n+ ` gives one `Write(2)` |
| `Folding.CommentSplitsRun` | src/brainfork.c:198-214 | a blank after a comment inside a run flushes the run: `+//a\n + ` gives two `Write(1)` |
| `Machine.ShiftCursor` | src/brainfork.c:324 | the new cursor is below the strip size |
| `Machine.ShiftIsModular` | src/brainfork.c:324 | the 64-bit expression equals `(sp + mov) mod size` for every size that divides 2^64 |
| `Machine.MemoryStripShiftIsModular` | src/brainfork.c:9 | for a strip of 1024 cells, the shift is plain modular movement |
| `Machine.Step` | src/brainfork.c:307-328 | a step changes only the cell under the cursor, and only for `OP_WRITE`; it moves the cursor only for `OP_SHIFT`; it appends at most that cell to the output |
| `Machine.Run` | src/brainfork.c:305-329 | the tape keeps its length and the cursor stays on it |
| `Machine.Initial` | src/brainfork.c:336-338 | cursor 0 on 1024 zero cells |
| `Machine.HaltedIsFixed` | src/brainfork.c:305 | once the counter leaves the program, further fuel changes nothing |
| `Machine.RunAdditive` | src/brainfork.c:305-329 | running a and then b passes is running a+b passes |
| `Machine.RunExtendsOutput` | src/brainfork.c:320-321 | output is only ever appended to |
| `Machine.NoWriteKeepsTape` | src/brainfork.c:311-312 | a program without `OP_WRITE` leaves the tape as it was |
| `Machine.LoopBodyRunsFirst` | src/brainfork.c:314-319 | `[.]` on a zero cell prints once before leaving the loop |
| `Machine.CountdownClearsCell` | src/brainfork.c:311-319 | `+[-]` leaves a zero tape and prints nothing |
| `Machine.InterpretBf` | src/brainfork.c:300-332 | the tape, cursor and output after the loop are those of `Run` from the given tape and cursor |
| `Machine.RunInterpreter` | src/brainfork.c:334-340 | output and halting are those of `Run` from the zeroed strip |
| `Text.Tabs` | src/brainfork.c:354 | exactly n tab characters |
| `Text.Indented` | src/Brainfork.c:259-263 | the line is max(depth, 0) tabs followed by the text unchanged, the same for `fprintf_line` and `fprintf_indent` |
| `Text.FprintfIndent` | src/brainfork.c:352-360 | the tab loop and the formatted text append exactly `Indented(depth, text)` to the file |
| `Text.DecimalRoundTrip` | src/brainfork.c:423 | the `%ld` rendering of a payload reads back as the same integer |
| `Transpiler.StatementRecovers` | src/brainfork.c:420-436 | each statement's text names its instruction and payload, so no two instructions share a statement |
| `Transpiler.LowerRecovers` | src/brainfork.c:416-438 | one line per instruction, in order, and each line's text recovers its instruction |
| `Transpiler.DepthCountsPendingOpens` | src/brainfork.c:425-430 | on a resolved program the indent depth is 1 plus the opens not yet closed |
| `Transpiler.WellFormedIndentation` | src/brainfork.c:425-430 | on a well-formed program every line is indented at least once and the depth returns to 1 |
| `Transpiler.ParsedIndentation` | src/brainfork.c:425-430 | so every program `parse_instructions` returns lowers to lines inside `main`, never below depth 1, and ends back at depth 1 |
| `Transpiler.LowerInstruction` | src/brainfork.c:418-437 | one pass of the `switch` appends the instruction's line at the depth written and adjusts the depth |
| `Transpiler.WritePrologue` | src/brainfork.c:398-414 | the include and define lines, `main` and its set-up, with depth 1 |
| `Transpiler.LowerAll` | src/brainfork.c:416-438 | the `for` loop appends the rendering of `Lower(prog)` and ends at the program's final depth |
| `Transpiler.RunTranspiler` | src/brainfork.c:393-448 | the file written is the prologue, the lowered lines, and the closing brace |
| `FileNames.LastIndex` | src/brainfork.c:83 | `strrchr`: absent exactly when the character does not occur; otherwise its last occurrence |
| `FileNames.ReadCStr` | src/brainfork.c:91 | the string read from a buffer is its NUL-free prefix before the first NUL |
| `FileNames.StrdupDotX` | src/brainfork.c:79-96 | NULL for NULL, for no dot, or for a dot at the end; otherwise the name up to the last dot, then the extension |
| `FileNames.StrdupDotXStrip` | src/brainfork.c:99-114 | NULL for NULL or no dot; otherwise the name before its last dot |
| `FileNames.DotXIsStripDotExt` | src/Brainfork.c:40-73 | with a non-NUL extension, `strdup_dot_x` is `strdup_dot_x_strip` plus `.` plus the extension |
| `FileNames.NulExtensionKeepsDot` | src/brainfork.c:90-91 | a NUL extension leaves the name with its last dot |
| `FileNames.SourceFileNames` | src/brainfork.c:395-446 | `prog.bf` gives `prog.c` and `prog`, `a.b.bf` strips to `a.b`; `prog.` and `prog` give NULL |
| `LegacyLexer.OpOf` | src/Brainfork.c:154-192 | no character maps to `OP_PROGRAM_TERMINATE` |
| `LegacyLexer.LexPrefixInvariant` | src/Brainfork.c:149-197 | after any prefix: one instruction per command, in order, each keeping its character; each close links to the innermost open still pending before it; the stack is exactly the pending opens (`PendingOpens`); its depth is the bracket balance |
| `LegacyLexer.ErrorPersists` | src/Brainfork.c:169-173 | an unmatched close ends lexing for good |
| `LegacyLexer.LexFailsIffUnderflow` | src/Brainfork.c:167-176 | lexing fails exactly when some prefix has more `]` than `[`, and then with a bracket error |
| `LegacyLexer.LexResult` | src/Brainfork.c:149-202 | on success: one entry per command plus the terminator, at most n+1 entries for n characters, transcribed, each close linked to the innermost open pending before it |
| `LegacyLexer.PendingOpensAreOpens` | src/Brainfork.c:162-176 | the pending opens are increasing indices of opens |
| `LegacyLexer.LinksPointBack` | src/Brainfork.c:167-176 | so a linked close points back to an earlier open |
| `LegacyLexer.NestedClosesTakeInnermost` | src/Brainfork.c:162-176 | in `[[]]` the first `]` takes the inner `[` and the second the outer one |
| `LegacyLexer.TripleOpenOverflowsStack` | src/Brainfork.c:146 | `[[[` pushes three opens, but the stack as written has two entries |
| `LegacyLexer.PendingWithinLength` | src/Brainfork.c:162-166 | the pending opens and the instructions each number at most the characters read |
| `LegacyLexer.UnmatchedOpenAccepted` | src/Brainfork.c:199-204 | `[` is accepted: an open and the terminator |
| `LegacyLexer.ParseToInstructions` | src/Brainfork.c:142-205 | success exactly when `Lex` succeeds, and then the buffer's first `stats.no_instructions` entries are `Lex`'s |
| `LegacyLexer.LexCharacter` | src/Brainfork.c:151-196 | one pass of the `fgetc` loop over the real stack and buffer equals `LexStep` |
| `LegacyMachine.Right` | src/Brainfork.c:237 | the cursor stays below `MEMORY_BUFFER_CAP` |
| `LegacyMachine.Left` | src/Brainfork.c:240 | the cursor stays below `MEMORY_BUFFER_CAP` |
| `LegacyMachine.Step` | src/Brainfork.c:217-246 | only the cell under the cursor changes; at most that cell is printed; the cursor moves only on `<`/`>`; the step terminates exactly at `OP_PROGRAM_TERMINATE` |
| `LegacyMachine.Run` | src/Brainfork.c:215-247 | the state stays valid: 1024 cells and the cursor on them |
| `LegacyMachine.Initial` | src/Brainfork.c:209-213 | zeroed buffer, both counters 0 |
| `LegacyMachine.MovesInverse` | src/Brainfork.c:236-241 | the two wrapping moves undo each other |
| `LegacyMachine.IncrementDecrementCancel` | src/Brainfork.c:221-226 | `+` then `-` restores the cell, wrap-around included |
| `LegacyMachine.LexTerminated` | src/Brainfork.c:199-202 | a lexed buffer ends in its only terminator, and every close links backwards |
| `LegacyMachine.RunStaysInside` | src/Brainfork.c:229-232 | on such a buffer the counter never leaves it |
| `LegacyMachine.StopsOnlyAtTerminate` | src/Brainfork.c:242-243 | a run on a lexed buffer stops only at the terminator, never by passing the end |
| `LegacyMachine.PlusPrintsOne` | src/Brainfork.c:221-235 | `+.` prints the byte 1 and terminates |
| `LegacyMachine.RunInterpreter` | src/Brainfork.c:207-248 | output and stop are those of `Run` from the zeroed buffer |
| `LegacyTranspiler.FlushIncKeeps` | src/Brainfork.c:327-332 | the increment flush moves the pending run into a non-zero line, keeping the totals |
| `LegacyTranspiler.FlushMovKeeps` | src/Brainfork.c:335-340 | the same for the move run |
| `LegacyTranspiler.ApplyKeeps` | src/Brainfork.c:342-368 | the `switch` adds each instruction's own step to the totals and the depth |
| `LegacyTranspiler.EmitStepFolded` | src/Brainfork.c:324-368 | one pass keeps `Folded`: sums conserved, at most one run pending, no zero line, depth 1 plus the nesting |
| `LegacyTranspiler.EmitFolded` | src/Brainfork.c:322-369 | after every prefix, lines plus pending runs add up to #`+`−#`-` and #`>`−#`<` |
| `LegacyTranspiler.EmitWritesRuns` | src/Brainfork.c:322-369 | the statements written are exactly the independent run grouping `RunGroups`: one statement per maximal run with a non-zero net, in order among the other statements, with a run the program ends on still held in its accumulator |
| `LegacyTranspiler.RunsAreMaximal` | src/Brainfork.c:326-340 | neighbouring groups are never runs of the same kind |
| `LegacyTranspiler.TerminatedFlushesAll` | src/Brainfork.c:365-367 | ending at the terminator, nothing is pending: the lines alone hold the totals and end in `// EXIT PROGRAM` |
| `LegacyTranspiler.LexedFlushesAll` | src/Brainfork.c:199-202 | so for every lexed buffer, every increment and move is written out |
| `LegacyTranspiler.UnterminatedRunIsLost` | src/Brainfork.c:327-331 | without a terminator, a trailing run is never written |
| `LegacyTranspiler.FoldsRuns` | src/Brainfork.c:326-348 | `++>-` then the terminator becomes +2, move 1, −1, exit |
| `LegacyTranspiler.RenderFlushInc` | src/Brainfork.c:329-330 | the two `fprintf` calls of an increment flush write exactly its line |
| `LegacyTranspiler.RenderFlushMov` | src/Brainfork.c:337-338 | the two `fprintf` calls of a move flush write exactly its line |
| `LegacyTranspiler.RenderApply` | src/Brainfork.c:350-367 | the `switch` writes exactly the line it adds |
| `LegacyTranspiler.WriteFlushInc` | src/Brainfork.c:327-332 | appends the increment flush's text and clears the accumulator exactly when it flushes |
| `LegacyTranspiler.WriteFlushMov` | src/Brainfork.c:335-340 | appends the move flush's text and clears the accumulator exactly when it flushes |
| `LegacyTranspiler.WriteSwitch` | src/Brainfork.c:342-368 | appends the `switch`'s text and updates depth and accumulators as `Apply` does |
| `LegacyTranspiler.WriteStatement` | src/Brainfork.c:350-367 | the four cases that write a line append exactly the `switch`'s text, a close one level shallower |
| `LegacyTranspiler.WritePrologue` | src/Brainfork.c:305-320 | the include and define lines, `main`, `// BEGIN PROGRAM` and the set-up |
| `LegacyTranspiler.RunTranspiler` | src/Brainfork.c:294-379 | the file written is the prologue, the folded lines, and the closing brace |
| `Repl.NonZero` | src/brainfork.c:509-513 | the dump prints only non-zero bytes, and no more than the tape holds |
| `Repl.NonZeroOfZeros` | src/brainfork.c:517 | a zeroed tape dumps nothing |
| `Repl.NonZeroKeepsCells` | src/brainfork.c:511-512 | the dump and the zero cells together are the whole tape, as a multiset |
| `Repl.Respond` | src/brainfork.c:494-537 | every command keeps the tape's length and the cursor on it |
| `Repl.FailedCompileKeepsSession` | src/brainfork.c:527-535 | a line that does not compile leaves tape and cursor unchanged and prints only the newline |
| `Repl.ResetThenDumpPrintsNothing` | src/brainfork.c:507-518 | `r` then `!` prints only the newline |
| `Repl.WriteCommand` | src/brainfork.c:523-526 | `,A` stores 65 under the cursor; `,` alone stores 0 |
| `Repl.OverlongLineQuits` | src/brainfork.c:496-502 | a line without its newline ends the session and changes nothing |
| `Repl.Session.constructor` | src/brainfork.c:486-488 | cursor 0 on a zeroed strip of 1024 cells |
| `Repl.Session.Command` | src/brainfork.c:490-538 | the new tape, cursor, output and quit flag are exactly `Respond`'s |
| `Repl.DumpMemory` | src/brainfork.c:509-513 | the `for` loop prints `NonZero` of the tape |
| `Repl.EraseMemory` | src/brainfork.c:515-518 | every cell becomes zero |
| `Tokenizer.TokenOf` | Interpreter/BrainfuckInterpreter.c:51-82 | accepted exactly for the seven commands and the two line ends, and both line ends map to `TOKEN_LINE_INDICATOR` |
| `Tokenizer.TokenizeSucceeds` | Interpreter/BrainfuckInterpreter.c:46-85 | success exactly when every character is supported, and then one token per character, in order, each keeping its character |
| `Tokenizer.TokenizeFails` | Interpreter/BrainfuckInterpreter.c:79-81 | a failure names the first unsupported character and its index |
| `Tokenizer.TokenizeStops` | Interpreter/BrainfuckInterpreter.c:80-81 | once a character is rejected, nothing after it matters |
| `Tokenizer.SpaceIsUnsupported` | Interpreter/BrainfuckInterpreter.c:79 | `+ -` stops at the space, at index 1 |
| `Tokenizer.LineEndsAgree` | Interpreter/BrainfuckInterpreter.c:75-78 | `\r\n` gives two line-indicator tokens, each keeping its character |
| `Tokenizer.ParseToTokens` | Interpreter/BrainfuckInterpreter.c:42-86 | writes `Tokenize`'s tokens through the advancing pointer, stops where it fails, and leaves the rest of the buffer untouched |

## Left out

- The command line, file reading and `fopen`/`fseek`/`ftell` are left out. Program text is a parameter, and the C file written is a returned `string` (`get_program_info`, `get_file_handle`, `read_file_content`, `main`).
- The search for a C compiler and its invocation are left out, because they run subprocesses (`find_program`, `is_compiler_available`, `exec_bf`).
- `run_compiler` is left out: it only prints an error and exits.
- Allocation failure (`BF_MEM_ASSERT`) and `free` are left out. Dafny allocation does not fail.
- The REPL's prompt, its `fgets` from the terminal and its error text are left out. So is the `getchar` loop that drains and counts an overlong line: the model ends the session as the source does.
- Diagnostics written to `stderr` or `stdout` (`Unknown token`, `Misaligned loop brackets`) are left out: they are I/O. The error value says which case was hit. In the first tokenizer the message even passes a `char` to `%s`.
- In the older pipeline (`parse_to_instructions`) and in the first tokenizer (`parse_to_tokens`), the result of `fgetc` is stored in a `char` and compared with `EOF`. Where `char` is signed, a byte 0xFF equals `EOF` once truncated, so the text stops there early and the read counts as a success. The model reads the whole text: `Tokenizer.Tokenize` rejects that byte as unsupported instead.
- The global counter `stats.no_instructions` is a returned value. It starts at 0, and its type is `nat`.
- `src/program.c` and the headers are not part of this model. The headers contribute only declarations.
- Folding.ParseIsFoldThenResolve: proved only for text without `/` (so without comments). The run-length reference `Fold` does not skip comments, and a comment changes where a run is flushed; on text with comments only the examples `Folding.CommentSkipsOnce`, `Folding.PendingRunSkipsTwoComments`, `Folding.CommentInsideRunKeeps` and `Folding.CommentSplitsRun` are proved.
- Folding.ParseStoresFold: proved only for text without `/`, for the same reason.
- Machine.InterpretBf: a program may loop forever, so the run takes a `fuel` bound of loop passes. The contract states agreement with the fuel-bounded `Run`, not termination.
- Machine.RunInterpreter: bounded by `fuel` in the same way.
- LegacyMachine.RunInterpreter: bounded by `fuel` in the same way.
- Repl.Session.Command: a line to interpret runs for at most `fuel` passes in the same way.
- The run accumulators of both lexers and of the older transpiler are C `long` and could overflow. They are modelled as unbounded `int`, because an overflow needs a run longer than 2^63 characters. `%ld` is rendered for every integer.

## Findings

| source | as written | input that shows it | evidently intended | confidence | as-written member | corrected member |
|---|---|---|---|---|---|---|
| src/brainfork.c:128 | the loop stack gets `sizeof(Instruction) * n / 2 + 1` bytes, room for floor(n/2) entries of 16 bytes | the program `[` (n = 1): one open is pushed onto a stack with no entry, a write past the allocation | the expression reads like a precedence slip for `sizeof(Instruction) * (n / 2 + 1)`, the older pipeline's n/2+1 entries, which still overflows on `[[[`; the model uses room for `n` entries, a safe correction since the pending opens never outnumber the characters read | not executed | `Lexer.SingleOpenOverflowsStack` | `Lexer.IterateBounded` |
| src/Brainfork.c:146 | the loop stack gets `file_length / 2 + 1` entries | the program `[[[` (n = 3): three opens are pushed onto a stack of two entries | room for `file_length` entries | not executed | `LegacyLexer.TripleOpenOverflowsStack` | `LegacyLexer.PendingWithinLength` |

In both pipelines the model allocates the corrected capacity, and the bound
proved by the corrected member is what lets every `Push` meet its
precondition.
