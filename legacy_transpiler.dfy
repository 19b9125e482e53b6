/**
 * The transpiler of the older pipeline, `run_transpiler` in src/Brainfork.c
 * (lines 294-372). Its instructions are unfolded, so it folds while it
 * writes: runs of `+`/`-` and of `>`/`<` are summed in two accumulators and
 * written as one statement when an instruction of another kind arrives. The
 * file is modelled as the string written to it; the lines it receives are
 * also described as `(depth, statement)` pairs.
 */
module LegacyTranspiler {
  import opened Text
  import opened LegacyLexer

  /** The statements the loop writes. */
  datatype Stmt = AddCell(n: int) | MoveCursor(n: int) | Loop | EndLoop | PutChar | ExitProgram

  datatype Line = Line(depth: int, stmt: Stmt)

  /**
   * The text of a statement: a flush writes `mbuff[sp]+= ` / `sp_mov(sp, `
   * through `fprintf_line` and then the number with `%ld` (src/Brainfork.c:327-340,
   * 350-366).
   */
  function StmtText(s: Stmt): string
  {
    match s
    case AddCell(n) => "mbuff[sp]+= " + (Decimal(n) + ";\n")
    case MoveCursor(n) => "sp_mov(sp, " + (Decimal(n) + ");\n")
    case Loop => "while(mbuff[sp]) {\n"
    case EndLoop => "}\n"
    case PutChar => "putchar(mbuff[sp]);\n"
    case ExitProgram => "// EXIT PROGRAM\n"
  }

  function Render(lines: seq<Line>): string
    decreases |lines|
  {
    if |lines| == 0 then ""
    else Render(lines[..|lines| - 1]) + Indented(lines[|lines| - 1].depth, StmtText(lines[|lines| - 1].stmt))
  }

  predicate IsCellOp(op: Op)
  {
    op == Increment || op == Decrement
  }

  predicate IsMoveOp(op: Op)
  {
    op == MoveRight || op == MoveLeft
  }

  /** The lines written so far, `indent_depth`, `inc_accumulator` and `mov_accumulator`. */
  datatype Emission = Emission(lines: seq<Line>, depth: int, inc: int, mov: int)

  /** The increment flush at the top of the loop (src/Brainfork.c:326-332). */
  function FlushInc(e: Emission, op: Op): Emission
  {
    if e.inc != 0 && !IsCellOp(op) then e.(lines := e.lines + [Line(e.depth, AddCell(e.inc))], inc := 0) else e
  }

  /** Then the move flush (src/Brainfork.c:334-340). */
  function FlushMov(e: Emission, op: Op): Emission
  {
    if e.mov != 0 && !IsMoveOp(op) then e.(lines := e.lines + [Line(e.depth, MoveCursor(e.mov))], mov := 0) else e
  }

  /** Then the `switch` (src/Brainfork.c:342-367). */
  function Apply(e: Emission, op: Op): Emission
  {
    match op
    case Increment => e.(inc := e.inc + 1)
    case Decrement => e.(inc := e.inc - 1)
    case Open => e.(lines := e.lines + [Line(e.depth, Loop)], depth := e.depth + 1)
    case Close => e.(lines := e.lines + [Line(e.depth - 1, EndLoop)], depth := e.depth - 1)
    case Print => e.(lines := e.lines + [Line(e.depth, PutChar)])
    case MoveRight => e.(mov := e.mov + 1)
    case MoveLeft => e.(mov := e.mov - 1)
    case Terminate => e.(lines := e.lines + [Line(e.depth, ExitProgram)])
  }

  function EmitStep(e: Emission, op: Op): Emission
  {
    Apply(FlushMov(FlushInc(e, op), op), op)
  }

  /** The state after the loop has passed `prog`. */
  function Emit(prog: seq<Instr>): Emission
    decreases |prog|
  {
    if |prog| == 0 then Emission([], 1, 0, 0)
    else EmitStep(Emit(prog[..|prog| - 1]), prog[|prog| - 1].op)
  }

  /** What is written before the loop (src/Brainfork.c:307-323); `%d` of MEMORY_BUFFER_CAP is `1024`. */
  const Prologue: string :=
    "#include <stdio.h>\n" + "#include <string.h>\n" + "#include <stdint.h>\n\n"
    + "#define MEMORY_BUFFER_CAP 1024\n"
    + "#define sp_mov(sp, inc) sp = (sp + MEMORY_BUFFER_CAP + inc) % MEMORY_BUFFER_CAP\n\n"
    + "typedef char byte;\n\n" + "int main()\n{\n"
    + Indented(1, "// BEGIN PROGRAM\n") + Indented(1, "byte mbuff[MEMORY_BUFFER_CAP];\n")
    + Indented(1, "memset(&mbuff, 0, MEMORY_BUFFER_CAP);\n\n") + Indented(1, "size_t sp = 0;\n\n")

  /** The whole `.c` file. */
  function Transpiled(prog: seq<Instr>): string
  {
    Prologue + Render(Emit(prog).lines) + "}\n"
  }

  // ---------------------------------------------------------------------
  // What the folding keeps

  /** The sum of the cell increments written. */
  function CellSum(lines: seq<Line>): int
    decreases |lines|
  {
    if |lines| == 0 then 0
    else CellSum(lines[..|lines| - 1]) + (if lines[|lines| - 1].stmt.AddCell? then lines[|lines| - 1].stmt.n else 0)
  }

  /** The sum of the cursor moves written. */
  function MoveSum(lines: seq<Line>): int
    decreases |lines|
  {
    if |lines| == 0 then 0
    else MoveSum(lines[..|lines| - 1]) + (if lines[|lines| - 1].stmt.MoveCursor? then lines[|lines| - 1].stmt.n else 0)
  }

  function CellDelta(op: Op): int
  {
    if op == Increment then 1 else if op == Decrement then -1 else 0
  }

  function MoveDelta(op: Op): int
  {
    if op == MoveRight then 1 else if op == MoveLeft then -1 else 0
  }

  function NestingDelta(op: Op): int
  {
    if op == Open then 1 else if op == Close then -1 else 0
  }

  /** Increments minus decrements of `prog`. */
  function NetCell(prog: seq<Instr>): int
    decreases |prog|
  {
    if |prog| == 0 then 0 else NetCell(prog[..|prog| - 1]) + CellDelta(prog[|prog| - 1].op)
  }

  /** Right moves minus left moves of `prog`. */
  function NetMove(prog: seq<Instr>): int
    decreases |prog|
  {
    if |prog| == 0 then 0 else NetMove(prog[..|prog| - 1]) + MoveDelta(prog[|prog| - 1].op)
  }

  /** Opens minus closes of `prog`. */
  function Nesting(prog: seq<Instr>): int
    decreases |prog|
  {
    if |prog| == 0 then 0 else Nesting(prog[..|prog| - 1]) + NestingDelta(prog[|prog| - 1].op)
  }

  /** No statement that folds a run carries a zero. */
  predicate NoZeroRuns(lines: seq<Line>)
  {
    forall k :: 0 <= k < |lines| ==> (lines[k].stmt.AddCell? || lines[k].stmt.MoveCursor?) ==> lines[k].stmt.n != 0
  }

  /** The increments written and pending. */
  function CellTotal(e: Emission): int
  {
    CellSum(e.lines) + e.inc
  }

  /** The moves written and pending. */
  function MoveTotal(e: Emission): int
  {
    MoveSum(e.lines) + e.mov
  }

  /** What holds after every pass of the loop. */
  predicate Folded(prog: seq<Instr>, e: Emission)
  {
    && CellTotal(e) == NetCell(prog)
    && MoveTotal(e) == NetMove(prog)
    && (e.inc == 0 || e.mov == 0)
    && NoZeroRuns(e.lines)
    && e.depth == 1 + Nesting(prog)
  }

  /** Appending a line adds its payload to its sum, and keeps the runs zero-free if it is. */
  lemma AppendLineSums(e: Emission, l: Line, e': Emission)
    requires e'.lines == e.lines + [l] && NoZeroRuns(e.lines)
    requires (l.stmt.AddCell? || l.stmt.MoveCursor?) ==> l.stmt.n != 0
    ensures CellSum(e'.lines) == CellSum(e.lines) + (if l.stmt.AddCell? then l.stmt.n else 0)
    ensures MoveSum(e'.lines) == MoveSum(e.lines) + (if l.stmt.MoveCursor? then l.stmt.n else 0)
    ensures NoZeroRuns(e'.lines)
  {
    assert e'.lines[..|e.lines|] == e.lines;
  }

  /** A flush moves the pending run into the lines: the totals stay. */
  lemma FlushIncKeeps(e: Emission, op: Op)
    requires NoZeroRuns(e.lines)
    ensures var f := FlushInc(e, op);
      && CellTotal(f) == CellTotal(e) && MoveTotal(f) == MoveTotal(e) && NoZeroRuns(f.lines)
      && f.depth == e.depth && f.mov == e.mov && (f.inc == 0 || IsCellOp(op))
  {
    if e.inc != 0 && !IsCellOp(op) {
      AppendLineSums(e, Line(e.depth, AddCell(e.inc)), FlushInc(e, op));
    }
  }

  lemma FlushMovKeeps(e: Emission, op: Op)
    requires NoZeroRuns(e.lines)
    ensures var f := FlushMov(e, op);
      && CellTotal(f) == CellTotal(e) && MoveTotal(f) == MoveTotal(e) && NoZeroRuns(f.lines)
      && f.depth == e.depth && f.inc == e.inc && (f.mov == 0 || IsMoveOp(op))
  {
    if e.mov != 0 && !IsMoveOp(op) {
      AppendLineSums(e, Line(e.depth, MoveCursor(e.mov)), FlushMov(e, op));
    }
  }

  /** The `switch` adds the operation's own step to the totals and the depth. */
  lemma ApplyKeeps(e: Emission, op: Op)
    requires NoZeroRuns(e.lines)
    ensures var f := Apply(e, op);
      && CellTotal(f) == CellTotal(e) + CellDelta(op) && MoveTotal(f) == MoveTotal(e) + MoveDelta(op)
      && NoZeroRuns(f.lines) && f.depth == e.depth + NestingDelta(op)
      && (IsCellOp(op) || f.inc == e.inc) && (IsMoveOp(op) || f.mov == e.mov)
  {
    var f := Apply(e, op);
    if f.lines != e.lines {
      AppendLineSums(e, f.lines[|e.lines|], f);
    }
  }

  /** One pass keeps the sums, the zero-free runs, the single pending run and the depth. */
  lemma EmitStepFolded(prog: seq<Instr>, e: Emission, p: seq<Instr>)
    requires Folded(prog, e) && |p| > 0 && p[..|p| - 1] == prog
    ensures Folded(p, EmitStep(e, p[|p| - 1].op))
  {
    var op := p[|p| - 1].op;
    var e1 := FlushInc(e, op);
    FlushIncKeeps(e, op);
    var e2 := FlushMov(e1, op);
    FlushMovKeeps(e1, op);
    ApplyKeeps(e2, op);
    NetStep(prog, p);
  }

  /** The net counts of a program one instruction longer. */
  lemma NetStep(prog: seq<Instr>, p: seq<Instr>)
    requires |p| > 0 && p[..|p| - 1] == prog
    ensures NetCell(p) == NetCell(prog) + CellDelta(p[|p| - 1].op)
    ensures NetMove(p) == NetMove(prog) + MoveDelta(p[|p| - 1].op)
    ensures Nesting(p) == Nesting(prog) + NestingDelta(p[|p| - 1].op)
  {
  }

  lemma {:induction false} EmitFolded(prog: seq<Instr>)
    ensures Folded(prog, Emit(prog))
    decreases |prog|
  {
    if |prog| > 0 {
      var front := prog[..|prog| - 1];
      EmitFolded(front);
      EmitStepFolded(front, Emit(front), prog);
    }
  }

  /**
   * The terminator flushes whatever run is pending and writes the last line,
   * so a program ending in `OP_PROGRAM_TERMINATE` leaves both accumulators at
   * zero: the increments written sum to the program's net increment, the
   * moves to its net move, and no folded statement is zero.
   */
  lemma TerminatedFlushesAll(prog: seq<Instr>)
    requires |prog| > 0 && prog[|prog| - 1].op == Terminate
    ensures var e := Emit(prog);
      && e.inc == 0 && e.mov == 0
      && CellSum(e.lines) == NetCell(prog) && MoveSum(e.lines) == NetMove(prog)
      && NoZeroRuns(e.lines) && e.depth == 1 + Nesting(prog)
      && |e.lines| > 0 && e.lines[|e.lines| - 1] == Line(e.depth, ExitProgram)
  {
    EmitFolded(prog);
  }

  /** And the lexer always ends its buffer with the terminator. */
  lemma LexedFlushesAll(text: seq<char>)
    requires Lex(text).Ok?
    ensures var prog := Lex(text).value; var e := Emit(prog);
      && CellSum(e.lines) == NetCell(prog) && MoveSum(e.lines) == NetMove(prog)
      && NoZeroRuns(e.lines)
      && |e.lines| > 0 && e.lines[|e.lines| - 1].stmt == ExitProgram
  {
    TerminatedFlushesAll(Lex(text).value);
  }

  /** Without the terminator a trailing run is lost: `+` alone writes nothing. */
  lemma UnterminatedRunIsLost()
    ensures Emit([Instr(Increment, '+', 0)]) == Emission([], 1, 1, 0)
  {
    assert [Instr(Increment, '+', 0)][..0] == [];
  }

  /** `++>-` then the terminator: one increment of 2, one move of 1, one decrement, then the exit line. */
  lemma FoldsRuns()
    ensures Emit([Instr(Increment, '+', 0), Instr(Increment, '+', 0), Instr(MoveRight, '>', 0), Instr(Decrement, '-', 0), TerminateInstr]).lines
      == [Line(1, AddCell(2)), Line(1, MoveCursor(1)), Line(1, AddCell(-1)), Line(1, ExitProgram)]
  {
    var p := [Instr(Increment, '+', 0), Instr(Increment, '+', 0), Instr(MoveRight, '>', 0), Instr(Decrement, '-', 0), TerminateInstr];
    assert p[..0] == [];
    EmitPrefixStep(p, 0);
    assert Emit(p[..1]) == Emission([], 1, 1, 0);
    EmitPrefixStep(p, 1);
    assert Emit(p[..2]) == Emission([], 1, 2, 0);
    EmitPrefixStep(p, 2);
    assert Emit(p[..3]) == Emission([Line(1, AddCell(2))], 1, 0, 1);
    EmitPrefixStep(p, 3);
    assert Emit(p[..4]) == Emission([Line(1, AddCell(2)), Line(1, MoveCursor(1))], 1, -1, 0);
    EmitPrefixStep(p, 4);
    assert p[..5] == p;
  }

  // ---------------------------------------------------------------------
  // One statement per run

  /** A maximal run of cell operations with its net, one of moves, or an instruction that is not folded. */
  datatype Group = CellRun(net: int) | MoveRun(net: int) | Single(stmt: Stmt)

  /** The statement of an instruction that is not folded. */
  function SingleStmt(op: Op): Stmt
    requires !IsCellOp(op) && !IsMoveOp(op)
  {
    match op
    case Open => Loop
    case Close => EndLoop
    case Print => PutChar
    case Terminate => ExitProgram
  }

  /** The groups after one more instruction: a run symbol extends a run of its kind or starts one. */
  function GroupStep(gs: seq<Group>, op: Op): seq<Group>
  {
    var n := |gs|;
    if IsCellOp(op) then
      if n > 0 && gs[n - 1].CellRun? then gs[..n - 1] + [CellRun(gs[n - 1].net + CellDelta(op))]
      else gs + [CellRun(CellDelta(op))]
    else if IsMoveOp(op) then
      if n > 0 && gs[n - 1].MoveRun? then gs[..n - 1] + [MoveRun(gs[n - 1].net + MoveDelta(op))]
      else gs + [MoveRun(MoveDelta(op))]
    else gs + [Single(SingleStmt(op))]
  }

  /** The instructions of `prog` cut into maximal runs, in order, each run with its net count. */
  function RunGroups(prog: seq<Instr>): seq<Group>
    decreases |prog|
  {
    if |prog| == 0 then [] else GroupStep(RunGroups(prog[..|prog| - 1]), prog[|prog| - 1].op)
  }

  /** What a group is written as: a run by one statement of its net, none when the net is zero. */
  function GroupStmts(g: Group): seq<Stmt>
  {
    match g
    case CellRun(n) => if n != 0 then [AddCell(n)] else []
    case MoveRun(n) => if n != 0 then [MoveCursor(n)] else []
    case Single(st) => [st]
  }

  /** Every group written out, in order. */
  function WrittenAll(gs: seq<Group>): seq<Stmt>
    decreases |gs|
  {
    if |gs| == 0 then [] else WrittenAll(gs[..|gs| - 1]) + GroupStmts(gs[|gs| - 1])
  }

  /** What is written once the groups are read: all of them but a run at the very end, which is still pending. */
  function Written(gs: seq<Group>): seq<Stmt>
  {
    if |gs| > 0 && !gs[|gs| - 1].Single? then WrittenAll(gs[..|gs| - 1]) else WrittenAll(gs)
  }

  /** The net of a trailing run of cell operations, zero if there is none. */
  function PendingCell(gs: seq<Group>): int
  {
    if |gs| > 0 && gs[|gs| - 1].CellRun? then gs[|gs| - 1].net else 0
  }

  /** The net of a trailing run of moves, zero if there is none. */
  function PendingMove(gs: seq<Group>): int
  {
    if |gs| > 0 && gs[|gs| - 1].MoveRun? then gs[|gs| - 1].net else 0
  }

  /** The statements of the lines, without their depths. */
  function Stmts(lines: seq<Line>): seq<Stmt>
    decreases |lines|
  {
    if |lines| == 0 then [] else Stmts(lines[..|lines| - 1]) + [lines[|lines| - 1].stmt]
  }

  /** `op` continues the run the groups end on. */
  predicate Extends(gs: seq<Group>, op: Op)
  {
    && |gs| > 0
    && ((gs[|gs| - 1].CellRun? && IsCellOp(op)) || (gs[|gs| - 1].MoveRun? && IsMoveOp(op)))
  }

  /** The emitter at `e` has written the groups `gs` and holds their trailing run. */
  predicate WritesGroups(e: Emission, gs: seq<Group>)
  {
    Stmts(e.lines) == Written(gs) && e.inc == PendingCell(gs) && e.mov == PendingMove(gs)
  }

  lemma StmtsAppend(lines: seq<Line>, l: Line)
    ensures Stmts(lines + [l]) == Stmts(lines) + [l.stmt]
  {
    assert (lines + [l])[..|lines|] == lines;
  }

  lemma WrittenAllAppend(gs: seq<Group>, g: Group)
    ensures WrittenAll(gs + [g]) == WrittenAll(gs) + GroupStmts(g)
  {
    assert (gs + [g])[..|gs|] == gs;
  }

  /** Flushing the trailing run writes the group it closes. */
  lemma FlushWritesRun(e: Emission, gs: seq<Group>, op: Op)
    requires WritesGroups(e, gs)
    requires !Extends(gs, op)
    ensures var f := FlushMov(FlushInc(e, op), op);
      Stmts(f.lines) == WrittenAll(gs) && f.inc == 0 && f.mov == 0 && f.depth == e.depth
  {
    var f1 := FlushInc(e, op);
    if |gs| > 0 && !gs[|gs| - 1].Single? {
      var k := |gs| - 1;
      assert gs == gs[..k] + [gs[k]];
      WrittenAllAppend(gs[..k], gs[k]);
      if e.inc != 0 && !IsCellOp(op) {
        StmtsAppend(e.lines, Line(e.depth, AddCell(e.inc)));
      }
      if f1.mov != 0 && !IsMoveOp(op) {
        StmtsAppend(f1.lines, Line(f1.depth, MoveCursor(f1.mov)));
      }
    }
  }

  /** A run symbol that extends the trailing run writes nothing. */
  lemma ExtendRunWrites(e: Emission, gs: seq<Group>, op: Op)
    requires WritesGroups(e, gs) && Extends(gs, op)
    ensures WritesGroups(EmitStep(e, op), GroupStep(gs, op))
  {
    var k := |gs| - 1;
    var g' := GroupStep(gs, op);
    assert g'[..k] == gs[..k];
  }

  /** A run symbol of the other kind, or after an unfolded instruction, starts a new run. */
  lemma StartRunWrites(e: Emission, gs: seq<Group>, op: Op)
    requires WritesGroups(e, gs) && !Extends(gs, op) && (IsCellOp(op) || IsMoveOp(op))
    ensures WritesGroups(EmitStep(e, op), GroupStep(gs, op))
  {
    FlushWritesRun(e, gs, op);
    var f := FlushMov(FlushInc(e, op), op);
    var a := Apply(f, op);
    assert a.lines == f.lines && a.inc == f.inc + CellDelta(op) && a.mov == f.mov + MoveDelta(op);
    var g' := GroupStep(gs, op);
    assert g' == gs + [if IsCellOp(op) then CellRun(CellDelta(op)) else MoveRun(MoveDelta(op))];
    assert g'[..|gs|] == gs;
    assert Written(g') == WrittenAll(gs);
  }

  /** The switch writes an unfolded instruction as its one statement. */
  lemma ApplySingle(f: Emission, op: Op)
    requires !IsCellOp(op) && !IsMoveOp(op)
    ensures var a := Apply(f, op);
      && |a.lines| == |f.lines| + 1 && a.lines[..|f.lines|] == f.lines
      && a.lines[|f.lines|].stmt == SingleStmt(op) && a.inc == f.inc && a.mov == f.mov
  {
  }

  /** An unfolded instruction closes the trailing run and is written after it. */
  lemma SingleWrites(e: Emission, gs: seq<Group>, op: Op)
    requires WritesGroups(e, gs) && !IsCellOp(op) && !IsMoveOp(op)
    ensures WritesGroups(EmitStep(e, op), GroupStep(gs, op))
  {
    FlushWritesRun(e, gs, op);
    var f := FlushMov(FlushInc(e, op), op);
    var a := Apply(f, op);
    ApplySingle(f, op);
    assert a.lines == f.lines + [a.lines[|f.lines|]];
    StmtsAppend(f.lines, a.lines[|f.lines|]);
    WrittenAllAppend(gs, Single(SingleStmt(op)));
  }

  /**
   * The loop writes one statement per maximal run with a non-zero net, in
   * program order between the other statements, and holds the net of a run
   * the program ends on in its accumulator.
   */
  lemma {:induction false} EmitWritesRuns(prog: seq<Instr>)
    ensures WritesGroups(Emit(prog), RunGroups(prog))
    decreases |prog|
  {
    if |prog| > 0 {
      var front := prog[..|prog| - 1];
      var op := prog[|prog| - 1].op;
      EmitWritesRuns(front);
      var e := Emit(front);
      var gs := RunGroups(front);
      if Extends(gs, op) {
        ExtendRunWrites(e, gs, op);
      } else if IsCellOp(op) || IsMoveOp(op) {
        StartRunWrites(e, gs, op);
      } else {
        SingleWrites(e, gs, op);
      }
    }
  }

  /** No two neighbouring groups are runs of the same kind. */
  predicate Maximal(gs: seq<Group>)
  {
    forall k :: 0 <= k < |gs| - 1 ==> !(gs[k].CellRun? && gs[k + 1].CellRun?) && !(gs[k].MoveRun? && gs[k + 1].MoveRun?)
  }

  lemma GroupStepMaximal(gs: seq<Group>, op: Op)
    requires Maximal(gs)
    ensures Maximal(GroupStep(gs, op))
  {
    var g' := GroupStep(gs, op);
    forall k | 0 <= k < |g'| - 1
      ensures !(g'[k].CellRun? && g'[k + 1].CellRun?) && !(g'[k].MoveRun? && g'[k + 1].MoveRun?)
    {
      if k + 2 < |gs| || (k + 1 < |gs| && !Extends(gs, op)) {
        assert g'[k] == gs[k] && g'[k + 1] == gs[k + 1];
      } else if k + 1 < |gs| {
        assert g'[k] == gs[k];
        assert g'[k + 1].CellRun? == gs[k + 1].CellRun? && g'[k + 1].MoveRun? == gs[k + 1].MoveRun?;
      } else {
        assert g'[k] == gs[k];
      }
    }
  }

  /** Every run the grouping makes is maximal. */
  lemma {:induction false} RunsAreMaximal(prog: seq<Instr>)
    ensures Maximal(RunGroups(prog))
    decreases |prog|
  {
    if |prog| > 0 {
      RunsAreMaximal(prog[..|prog| - 1]);
      GroupStepMaximal(RunGroups(prog[..|prog| - 1]), prog[|prog| - 1].op);
    }
  }

  // ---------------------------------------------------------------------
  // The code

  lemma RenderAppend(lines: seq<Line>, l: Line)
    ensures Render(lines + [l]) == Render(lines) + Indented(l.depth, StmtText(l.stmt))
  {
    assert (lines + [l])[..|lines|] == lines;
  }

  /** The text the increment flush writes: nothing when it does not fire. */
  function IncFlushText(depth: int, inc: int, op: Op): string
  {
    if inc != 0 && !IsCellOp(op) then Indented(depth, StmtText(AddCell(inc))) else ""
  }

  function MovFlushText(depth: int, mov: int, op: Op): string
  {
    if mov != 0 && !IsMoveOp(op) then Indented(depth, StmtText(MoveCursor(mov))) else ""
  }

  /** The text the `switch` writes. */
  function SwitchText(depth: int, op: Op): string
  {
    match op
    case Open => Indented(depth, StmtText(Loop))
    case Close => Indented(depth - 1, StmtText(EndLoop))
    case Print => Indented(depth, StmtText(PutChar))
    case Terminate => Indented(depth, StmtText(ExitProgram))
    case _ => ""
  }

  lemma RenderFlushInc(e: Emission, op: Op)
    ensures Render(FlushInc(e, op).lines) == Render(e.lines) + IncFlushText(e.depth, e.inc, op)
  {
    if e.inc != 0 && !IsCellOp(op) {
      RenderAppend(e.lines, Line(e.depth, AddCell(e.inc)));
    }
  }

  lemma RenderFlushMov(e: Emission, op: Op)
    ensures Render(FlushMov(e, op).lines) == Render(e.lines) + MovFlushText(e.depth, e.mov, op)
  {
    if e.mov != 0 && !IsMoveOp(op) {
      RenderAppend(e.lines, Line(e.depth, MoveCursor(e.mov)));
    }
  }

  lemma RenderApply(e: Emission, op: Op)
    ensures Render(Apply(e, op).lines) == Render(e.lines) + SwitchText(e.depth, op)
  {
    var f := Apply(e, op);
    if f.lines != e.lines {
      RenderAppend(e.lines, f.lines[|e.lines|]);
      assert f.lines == e.lines + [f.lines[|e.lines|]];
    }
  }

  /** Regrouping a concatenation, called where the proofs of the writes would otherwise have to find it. */
  lemma Associative(a: string, b: string, c: string)
    ensures (a + b) + c == a + (b + c)
  {
  }

  /** Three appends to a file and to its rendered lines keep the file one render ahead of `base`. */
  lemma AppendChain(base: string, r0: string, a: string, b: string, c: string,
                    r1: string, r2: string, r3: string, f0: string, f1: string, f2: string, f3: string)
    requires f0 == base + r0 && f1 == f0 + a && f2 == f1 + b && f3 == f2 + c
    requires r1 == r0 + a && r2 == r1 + b && r3 == r2 + c
    ensures f3 == base + r3
  {
    Associative(base, r0, a);
    Associative(base, r1, b);
    Associative(base, r2, c);
  }

  /** The three writes of one pass add the lines `EmitStep` appends. */
  lemma WritesStep(base: string, e: Emission, op: Op, f0: string, f1: string, f2: string, f3: string)
    requires f0 == base + Render(e.lines)
    requires f1 == f0 + IncFlushText(e.depth, e.inc, op)
    requires f2 == f1 + MovFlushText(e.depth, FlushInc(e, op).mov, op)
    requires f3 == f2 + SwitchText(e.depth, op)
    ensures f3 == base + Render(EmitStep(e, op).lines)
  {
    var e1 := FlushInc(e, op);
    var e2 := FlushMov(e1, op);
    assert e1.depth == e.depth && e2.depth == e.depth;
    RenderFlushInc(e, op);
    RenderFlushMov(e1, op);
    RenderApply(e2, op);
    AppendChain(base, Render(e.lines), IncFlushText(e.depth, e.inc, op), MovFlushText(e.depth, e1.mov, op),
      SwitchText(e.depth, op), Render(e1.lines), Render(e2.lines), Render(Apply(e2, op).lines), f0, f1, f2, f3);
  }

  /** The `switch` does not look at the lines written before. */
  lemma ApplyFields(e: Emission, op: Op)
    ensures var f := Apply(e, op); var g := Apply(Emission([], e.depth, e.inc, e.mov), op);
      f.depth == g.depth && f.inc == g.inc && f.mov == g.mov
  {
  }

  lemma EmitPrefixStep(prog: seq<Instr>, i: nat)
    requires i < |prog|
    ensures Emit(prog[..i + 1]) == EmitStep(Emit(prog[..i]), prog[i].op)
  {
    assert prog[..i + 1][..i] == prog[..i];
  }

  /** `fprintf_line` of a prefix, then `fprintf` of the rest: the same as one indented line. */
  lemma IndentedThenRest(depth: int, prefix: string, rest: string)
    ensures Indented(depth, prefix) + rest == Indented(depth, prefix + rest)
  {
  }

  /** The increment flush (src/Brainfork.c:326-332). */
  method WriteFlushInc(file: string, depth: int, inc: int, op: Op) returns (file': string, inc': int)
    ensures file' == file + IncFlushText(depth, inc, op)
    ensures inc' == if inc != 0 && !IsCellOp(op) then 0 else inc
  {
    file', inc' := file, inc;
    if inc != 0 && op != Increment && op != Decrement {
      file' := FprintfIndent(file', depth, "mbuff[sp]+= ");
      IndentedThenRest(depth, "mbuff[sp]+= ", Decimal(inc) + ";\n");
      Associative(file, Indented(depth, "mbuff[sp]+= "), Decimal(inc) + ";\n");
      file' := file' + (Decimal(inc) + ";\n");
      inc' := 0;
    }
  }

  /** The move flush (src/Brainfork.c:334-340). */
  method WriteFlushMov(file: string, depth: int, mov: int, op: Op) returns (file': string, mov': int)
    ensures file' == file + MovFlushText(depth, mov, op)
    ensures mov' == if mov != 0 && !IsMoveOp(op) then 0 else mov
  {
    file', mov' := file, mov;
    if mov != 0 && op != MoveLeft && op != MoveRight {
      file' := FprintfIndent(file', depth, "sp_mov(sp, ");
      IndentedThenRest(depth, "sp_mov(sp, ", Decimal(mov) + ");\n");
      Associative(file, Indented(depth, "sp_mov(sp, "), Decimal(mov) + ");\n");
      file' := file' + (Decimal(mov) + ");\n");
      mov' := 0;
    }
  }

  /** The `switch` (src/Brainfork.c:342-367). */
  method WriteSwitch(file: string, depth: int, inc: int, mov: int, op: Op)
    returns (file': string, depth': int, inc': int, mov': int)
    ensures file' == file + SwitchText(depth, op)
    ensures var e' := Apply(Emission([], depth, inc, mov), op); depth' == e'.depth && inc' == e'.inc && mov' == e'.mov
  {
    file', depth', inc', mov' := file, depth, inc, mov;
    match op {
      case Increment =>
        inc' := inc + 1;
      case Decrement =>
        inc' := inc - 1;
      case MoveRight =>
        mov' := mov + 1;
      case MoveLeft =>
        mov' := mov - 1;
      case _ =>
        file' := WriteStatement(file, depth, op);
        depth' := depth + NestingDelta(op);
    }
    assert file + "" == file;
  }

  /** The cases of the `switch` that write a line: the loop head, the closing brace, `putchar`, the exit comment. */
  method WriteStatement(file: string, depth: int, op: Op) returns (file': string)
    requires op in {Open, Close, Print, Terminate}
    ensures file' == file + SwitchText(depth, op)
  {
    match op {
      case Open =>
        file' := FprintfIndent(file, depth, "while(mbuff[sp]) {\n");
      case Close =>
        file' := FprintfIndent(file, depth - 1, "}\n");
      case Print =>
        file' := FprintfIndent(file, depth, "putchar(mbuff[sp]);\n");
      case Terminate =>
        file' := FprintfIndent(file, depth, "// EXIT PROGRAM\n");
    }
  }

  /** What is written before the loop (src/Brainfork.c:307-323). */
  method WritePrologue() returns (file: string)
    ensures file == Prologue
  {
    file := "#include <stdio.h>\n" + "#include <string.h>\n" + "#include <stdint.h>\n\n";
    file := file + "#define MEMORY_BUFFER_CAP " + "1024" + "\n";
    file := file + "#define sp_mov(sp, inc) sp = (sp + MEMORY_BUFFER_CAP + inc) % MEMORY_BUFFER_CAP\n\n";
    file := file + "typedef char byte;\n\n" + "int main()\n{\n";
    file := FprintfIndent(file, 1, "// BEGIN PROGRAM\n");
    file := FprintfIndent(file, 1, "byte mbuff[MEMORY_BUFFER_CAP];\n");
    file := FprintfIndent(file, 1, "memset(&mbuff, 0, MEMORY_BUFFER_CAP);\n\n");
    file := FprintfIndent(file, 1, "size_t sp = 0;\n\n");
  }

  /** `run_transpiler` without the file handling and the compiler call: the text of the `.c` file. */
  method RunTranspiler(prog: seq<Instr>) returns (file: string)
    ensures file == Transpiled(prog)
  {
    file := WritePrologue();
    ghost var base := file;
    var indentDepth := 1;
    var movAccumulator := 0;
    var incAccumulator := 0;
    var programCounter := 0;
    ghost var emitted := Emit(prog[..0]);
    while programCounter < |prog|
      invariant programCounter <= |prog| && emitted == Emit(prog[..programCounter])
      invariant file == base + Render(emitted.lines) && indentDepth == emitted.depth
      invariant incAccumulator == emitted.inc && movAccumulator == emitted.mov
    {
      var op := prog[programCounter].op;
      ghost var f0 := file;
      file, incAccumulator := WriteFlushInc(file, indentDepth, incAccumulator, op);
      ghost var f1 := file;
      file, movAccumulator := WriteFlushMov(file, indentDepth, movAccumulator, op);
      ghost var f2 := file;
      file, indentDepth, incAccumulator, movAccumulator := WriteSwitch(file, indentDepth, incAccumulator, movAccumulator, op);
      WritesStep(base, emitted, op, f0, f1, f2, file);
      ApplyFields(FlushMov(FlushInc(emitted, op), op), op);
      EmitPrefixStep(prog, programCounter);
      emitted := EmitStep(emitted, op);
      programCounter := programCounter + 1;
    }
    assert prog[..programCounter] == prog;
    file := file + "}\n";
  }
}
