/**
 * The lowering loop of `run_transpiler` in src/brainfork.c (lines 393-448):
 * one line of C per instruction, indented by a depth that an open raises
 * after its line and a close lowers before its line. The file is modelled as
 * the string written to it.
 */
module Transpiler {
  import opened Instructions
  import opened Text
  import opened Brackets
  import opened Folding

  /** The statement written for one instruction (src/brainfork.c:422-436); OP_SHIFT prints the union's `inc`, the same storage as `mov`. */
  function Statement(i: Instruction): string
  {
    match i
    case Write(n) => "mbuff[sp]+=" + Decimal(n) + ";\n"
    case BracketOpen(_) => "while(mbuff[sp]) {\n"
    case BracketClosed(_) => "}\n"
    case Print => "putchar(mbuff[sp]);\n"
    case Shift(n) => "sp_mov(sp," + Decimal(n) + ");\n"
  }

  /** `indent_depth` when instruction `i` is reached: 1, plus the opens, minus the closes before it. */
  function Depth(prog: seq<Instruction>, i: nat): int
    requires i <= |prog|
  {
    if i == 0 then 1 else Depth(prog, i - 1) + DepthChange(prog[i - 1])
  }

  function DepthChange(i: Instruction): int
  {
    match i
    case BracketOpen(_) => 1
    case BracketClosed(_) => -1
    case _ => 0
  }

  /** The depth an instruction reached at `depth` is written at: a close lowers the depth first. */
  function WrittenAt(depth: int, i: Instruction): int
  {
    if i.BracketClosed? then depth - 1 else depth
  }

  function LineDepth(prog: seq<Instruction>, i: nat): int
    requires i < |prog|
  {
    WrittenAt(Depth(prog, i), prog[i])
  }

  datatype Line = Line(depth: int, text: string)

  /** The lines of the program, in order. */
  function Lower(prog: seq<Instruction>): (lines: seq<Line>)
  {
    seq(|prog|, i requires 0 <= i < |prog| => Line(LineDepth(prog, i), Statement(prog[i])))
  }

  /** What the file receives for a list of lines. */
  function Render(lines: seq<Line>): string
    decreases |lines|
  {
    if |lines| == 0 then ""
    else Render(lines[..|lines| - 1]) + Indented(lines[|lines| - 1].depth, lines[|lines| - 1].text)
  }

  /** The preprocessor lines and the start of `main` (src/brainfork.c:402-409). */
  const Preamble: string :=
    "#include <stdio.h>\n" + "#include <string.h>\n\n"
    + "#define MEMORY_STRIP_SIZE 1024\n"
    + "#define sp_mov(sp, inc) sp = (sp + MEMORY_STRIP_SIZE + inc) % MEMORY_STRIP_SIZE\n\n"
    + "typedef char byte;\n\n" + "int main()\n{\n"

  /** Then the tape and cursor declarations, written at depth 1 (src/brainfork.c:411-414). */
  const Prologue: string :=
    Preamble + Indented(1, "byte mbuff[MEMORY_STRIP_SIZE];\n")
    + Indented(1, "memset(&mbuff, 0, MEMORY_STRIP_SIZE);\n\n")
    + Indented(1, "size_t sp = 0;\n\n")

  /** The whole file `run_transpiler` writes for `prog`. */
  function Transpiled(prog: seq<Instruction>): string
  {
    Prologue + Render(Lower(prog)) + "}\n"
  }

  // ---------------------------------------------------------------------
  // Reading a line back

  predicate HasAffixes(s: string, before: string, after: string)
  {
    |before| + |after| <= |s| && s[..|before|] == before && s[|s| - |after|..] == after
  }

  /** The instruction kind (and payload) a statement line was written for. */
  function Recover(s: string): Option<Token>
  {
    if s == "while(mbuff[sp]) {\n" then Some(TOpen)
    else if s == "}\n" then Some(TClose)
    else if s == "putchar(mbuff[sp]);\n" then Some(TPrint)
    else if HasAffixes(s, "mbuff[sp]+=", ";\n") then Some(TWrite(DecimalValue(s[11..|s| - 2])))
    else if HasAffixes(s, "sp_mov(sp,", ");\n") then Some(TShift(DecimalValue(s[10..|s| - 3])))
    else None
  }

  /** A text framed by two affixes has them, and the middle is what lies between. */
  lemma Framed(before: string, middle: string, after: string)
    ensures var s := before + middle + after;
      HasAffixes(s, before, after) && s[|before|..|s| - |after|] == middle
  {
    var s := before + middle + after;
    assert s[..|before|] == before;
    assert s[|s| - |after|..] == after;
  }

  lemma WriteRecovers(n: int)
    ensures Recover(Statement(Write(n))) == Some(TWrite(n))
  {
    var s := Statement(Write(n));
    Framed("mbuff[sp]+=", Decimal(n), ";\n");
    assert s[0] == 'm';
    assert s != "while(mbuff[sp]) {\n" && s != "}\n" && s != "putchar(mbuff[sp]);\n";
    DecimalRoundTrip(n);
  }

  lemma ShiftRecovers(n: int)
    ensures Recover(Statement(Shift(n))) == Some(TShift(n))
  {
    var s := Statement(Shift(n));
    Framed("sp_mov(sp,", Decimal(n), ");\n");
    assert s[0] == 's';
    assert s != "while(mbuff[sp]) {\n" && s != "}\n" && s != "putchar(mbuff[sp]);\n";
    assert !HasAffixes(s, "mbuff[sp]+=", ";\n") by {
      assert s[..11][0] == 's';
    }
    DecimalRoundTrip(n);
  }

  /** Each statement names the instruction it was written for, payload included. */
  lemma StatementRecovers(i: Instruction)
    ensures Recover(Statement(i)) == Some(Erase(i))
  {
    match i
    case Write(n) => WriteRecovers(n);
    case Shift(n) => ShiftRecovers(n);
    case BracketOpen(_) =>
    case BracketClosed(_) =>
    case Print =>
  }

  /** One line per instruction, in order, from which the instruction can be read back. */
  lemma LowerRecovers(prog: seq<Instruction>)
    ensures |Lower(prog)| == |prog|
    ensures forall i :: 0 <= i < |prog| ==> Recover(Lower(prog)[i].text) == Some(Erase(prog[i]))
  {
    forall i | 0 <= i < |prog|
      ensures Recover(Lower(prog)[i].text) == Some(Erase(prog[i]))
    {
      StatementRecovers(prog[i]);
    }
  }

  // ---------------------------------------------------------------------
  // Indentation

  /** On a resolved buffer the depth is one more than the number of pending opens. */
  lemma {:induction false} DepthCountsPendingOpens(prog: seq<Instruction>, i: nat)
    requires Resolved(prog) && i <= |prog|
    ensures Depth(prog, i) == 1 + |OpenPositions(prog[..i])|
    decreases i
  {
    if i > 0 {
      DepthCountsPendingOpens(prog, i - 1);
      assert prog[..i][..i - 1] == prog[..i - 1];
      assert ResolvedAt(prog, i - 1);
    }
  }

  /**
   * For a buffer a successful parse returns, no line is written at a depth
   * below 1 and the depth is back at 1 after the last instruction.
   */
  lemma WellFormedIndentation(prog: seq<Instruction>)
    requires WellFormed(prog)
    ensures forall i :: 0 <= i < |prog| ==> Lower(prog)[i].depth >= 1
    ensures Depth(prog, |prog|) == 1
  {
    forall i | 0 <= i < |prog|
      ensures Lower(prog)[i].depth >= 1
    {
      DepthCountsPendingOpens(prog, i);
      assert ResolvedAt(prog, i);
    }
    DepthCountsPendingOpens(prog, |prog|);
    assert prog[..|prog|] == prog;
  }

  /** So every line of a transpiled parse result is indented by at least one tab, and the lines end back at depth 1. */
  lemma ParsedIndentation(text: seq<char>)
    requires Lexer.IsCString(text) && Lexer.Parse(text).Ok?
    ensures var prog := Lexer.Parse(text).value;
      forall i :: 0 <= i < |prog| ==> Lower(prog)[i].depth >= 1
    ensures Depth(Lexer.Parse(text).value, |Lexer.Parse(text).value|) == 1
  {
    ParseWellFormed(text);
    WellFormedIndentation(Lexer.Parse(text).value);
  }

  // ---------------------------------------------------------------------
  // The code

  lemma RenderPrefix(lines: seq<Line>, i: nat)
    requires i < |lines|
    ensures Render(lines[..i + 1]) == Render(lines[..i]) + Indented(lines[i].depth, lines[i].text)
  {
    assert lines[..i + 1][..i] == lines[..i];
  }

  /** One pass of the lowering loop (src/brainfork.c:418-437). */
  method LowerInstruction(file: string, indentDepth: int, instruction: Instruction)
    returns (file': string, indentDepth': int)
    ensures file' == file + Indented(WrittenAt(indentDepth, instruction), Statement(instruction))
    ensures indentDepth' == indentDepth + DepthChange(instruction)
  {
    indentDepth' := indentDepth;
    match instruction {
      case Write(n) =>
        file' := FprintfIndent(file, indentDepth', "mbuff[sp]+=" + Decimal(n) + ";\n");
      case BracketOpen(_) =>
        file' := FprintfIndent(file, indentDepth', "while(mbuff[sp]) {\n");
        indentDepth' := indentDepth' + 1;
      case BracketClosed(_) =>
        indentDepth' := indentDepth' - 1;
        file' := FprintfIndent(file, indentDepth', "}\n");
      case Print =>
        file' := FprintfIndent(file, indentDepth', "putchar(mbuff[sp]);\n");
      case Shift(n) =>
        file' := FprintfIndent(file, indentDepth', "sp_mov(sp," + Decimal(n) + ");\n");
    }
  }

  /** The preprocessor lines, the start of `main` and the declarations (src/brainfork.c:399-414). */
  method WritePrologue() returns (file: string, indentDepth: int)
    ensures file == Prologue && indentDepth == 1
  {
    indentDepth := 1;
    file := Preamble;
    file := FprintfIndent(file, indentDepth, "byte mbuff[MEMORY_STRIP_SIZE];\n");
    file := FprintfIndent(file, indentDepth, "memset(&mbuff, 0, MEMORY_STRIP_SIZE);\n\n");
    file := FprintfIndent(file, indentDepth, "size_t sp = 0;\n\n");
  }

  /** What the loop has written after `pc` instructions. */
  ghost function Emitted(prog: seq<Instruction>, pc: nat): string
    requires pc <= |prog|
  {
    Render(Lower(prog)[..pc])
  }

  lemma AppendLine(file: string, lines: seq<Line>, i: nat, before: string, after: string)
    requires i < |lines|
    requires before == file + Render(lines[..i])
    requires after == before + Indented(lines[i].depth, lines[i].text)
    ensures after == file + Render(lines[..i + 1])
  {
    RenderPrefix(lines, i);
  }

  lemma LowerAt(prog: seq<Instruction>, pc: nat)
    requires pc < |prog|
    ensures |Lower(prog)| == |prog|
    ensures Lower(prog)[pc] == Line(WrittenAt(Depth(prog, pc), prog[pc]), Statement(prog[pc]))
  {
  }

  lemma EmittedStep(file: string, prog: seq<Instruction>, pc: nat, before: string, after: string)
    requires pc < |prog|
    requires before == file + Emitted(prog, pc)
    requires after == before + Indented(WrittenAt(Depth(prog, pc), prog[pc]), Statement(prog[pc]))
    ensures after == file + Emitted(prog, pc + 1)
  {
    LowerAt(prog, pc);
    AppendLine(file, Lower(prog), pc, before, after);
  }

  /** The loop over the instructions (src/brainfork.c:416-438), appending to what `file` holds. */
  method LowerAll(file: string, prog: seq<Instruction>) returns (file': string, indentDepth: int)
    ensures file' == file + Render(Lower(prog))
    ensures indentDepth == Depth(prog, |prog|)
  {
    indentDepth := 1;
    file' := file;
    var programCounter := 0;
    assert Lower(prog)[..0] == [];
    while programCounter < |prog|
      invariant programCounter <= |prog|
      invariant indentDepth == Depth(prog, programCounter)
      invariant file' == file + Emitted(prog, programCounter)
    {
      ghost var before := file';
      file', indentDepth := LowerInstruction(file', indentDepth, prog[programCounter]);
      EmittedStep(file, prog, programCounter, before, file');
      programCounter := programCounter + 1;
    }
    assert Lower(prog)[..|prog|] == Lower(prog);
  }

  /** The body of `run_transpiler` without the file handling: the text written to the `.c` file. */
  method RunTranspiler(prog: seq<Instruction>) returns (file: string)
    ensures file == Transpiled(prog)
  {
    var indentDepth;
    file, indentDepth := WritePrologue();
    file, indentDepth := LowerAll(file, prog);
    file := file + "}\n";
  }
}
