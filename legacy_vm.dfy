/**
 * The tape machine of the older pipeline, `run_interpreter` in src/Brainfork.c
 * (lines 208-248): unit steps on a zeroed tape of MEMORY_BUFFER_CAP cells,
 * a cursor that wraps at both ends, and `OP_PROGRAM_TERMINATE` to stop.
 * The program is the `stats.no_instructions` entries the lexer wrote; the
 * run is bounded by `fuel` passes.
 */
module LegacyMachine {
  import opened Instructions
  import opened LegacyLexer

  const MemoryBufferCap: nat := 1024

  /** Counter, cursor, tape, what was printed, and whether `OP_PROGRAM_TERMINATE` returned. */
  datatype State = State(pc: nat, sp: nat, tape: seq<Byte>, output: seq<Byte>, terminated: bool)

  predicate Valid(m: State)
  {
    |m.tape| == MemoryBufferCap && m.sp < MemoryBufferCap
  }

  predicate Stopped(prog: seq<Instr>, m: State)
  {
    m.terminated || m.pc >= |prog|
  }

  /** `stack_pointer = (stack_pointer + 1) % MEMORY_BUFFER_CAP` */
  function Right(sp: nat): (r: nat)
    ensures r < MemoryBufferCap
  {
    (sp + 1) % MemoryBufferCap
  }

  /** `stack_pointer = (stack_pointer + MEMORY_BUFFER_CAP - 1) % MEMORY_BUFFER_CAP` */
  function Left(sp: nat): (r: nat)
    ensures r < MemoryBufferCap
  {
    (sp + MemoryBufferCap - 1) % MemoryBufferCap
  }

  /** One pass of the `while` (src/Brainfork.c:217-246): a close with a non-zero cell jumps without the increment. */
  function Step(prog: seq<Instr>, m: State): (r: State)
    requires Valid(m) && !Stopped(prog, m)
    ensures Valid(r)
    ensures forall i :: 0 <= i < |m.tape| && i != m.sp ==> r.tape[i] == m.tape[i]
    ensures r.output == m.output || r.output == m.output + [m.tape[m.sp]]
    ensures r.sp != m.sp ==> prog[m.pc].op in {MoveRight, MoveLeft}
    ensures r.terminated <==> prog[m.pc].op == Terminate
  {
    var cell := m.tape[m.sp];
    var instruction := prog[m.pc];
    match instruction.op
    case Increment => m.(pc := m.pc + 1, tape := m.tape[m.sp := ToByte(cell as int + 1)])
    case Decrement => m.(pc := m.pc + 1, tape := m.tape[m.sp := ToByte(cell as int - 1)])
    case Open => m.(pc := m.pc + 1)
    case Close => if cell == 0 then m.(pc := m.pc + 1) else m.(pc := instruction.link)
    case Print => m.(pc := m.pc + 1, output := m.output + [cell])
    case MoveRight => m.(pc := m.pc + 1, sp := Right(m.sp))
    case MoveLeft => m.(pc := m.pc + 1, sp := Left(m.sp))
    case Terminate => m.(terminated := true)
  }

  function Run(prog: seq<Instr>, m: State, fuel: nat): (r: State)
    requires Valid(m)
    ensures Valid(r)
    decreases fuel
  {
    if fuel == 0 || Stopped(prog, m) then m else Run(prog, Step(prog, m), fuel - 1)
  }

  /** `memset(&memory_buffer, 0, MEMORY_BUFFER_CAP)`, both counters zero. */
  function Initial(): (m: State)
    ensures Valid(m) && forall i :: 0 <= i < |m.tape| ==> m.tape[i] == 0
  {
    State(0, 0, seq(MemoryBufferCap, _ => 0), [], false)
  }

  // ---------------------------------------------------------------------
  // Properties

  /** The two cursor moves undo each other. */
  lemma MovesInverse(sp: nat)
    requires sp < MemoryBufferCap
    ensures Left(Right(sp)) == sp && Right(Left(sp)) == sp
  {
  }

  /** An increment then a decrement leave the cell as it was, wrap-around included. */
  lemma IncrementDecrementCancel(prog: seq<Instr>, m: State)
    requires Valid(m) && m.pc + 1 < |prog| && !m.terminated
    requires prog[m.pc].op == Increment && prog[m.pc + 1].op == Decrement
    ensures Run(prog, m, 2) == m.(pc := m.pc + 2)
  {
    var c := m.tape[m.sp];
    var m1 := m.(pc := m.pc + 1, tape := m.tape[m.sp := ToByte(c as int + 1)]);
    StepIncrement(prog, m);
    StepDecrement(prog, m1);
    IncrementThenDecrement(c);
    RestoreCell(m.tape, m.sp, ToByte(c as int + 1));
    assert Run(prog, m, 2) == Run(prog, m1, 1);
    assert Run(prog, m1, 1) == Run(prog, m.(pc := m.pc + 2), 0);
  }

  lemma StepIncrement(prog: seq<Instr>, m: State)
    requires Valid(m) && m.pc < |prog| && !m.terminated && prog[m.pc].op == Increment
    ensures Step(prog, m) == m.(pc := m.pc + 1, tape := m.tape[m.sp := ToByte(m.tape[m.sp] as int + 1)])
  {
  }

  lemma StepDecrement(prog: seq<Instr>, m: State)
    requires Valid(m) && m.pc < |prog| && !m.terminated && prog[m.pc].op == Decrement
    ensures Step(prog, m) == m.(pc := m.pc + 1, tape := m.tape[m.sp := ToByte(m.tape[m.sp] as int - 1)])
  {
  }

  /** Writing a cell back restores the tape. */
  lemma RestoreCell(tape: seq<Byte>, i: nat, v: Byte)
    requires i < |tape|
    ensures tape[i := v][i := tape[i]] == tape
  {
  }

  lemma IncrementThenDecrement(c: Byte)
    ensures ToByte(ToByte(c as int + 1) as int - 1) == c
  {
  }

  /**
   * What the lexer produces: every instruction but the last is a command
   * and the last is the terminator; a close links to an earlier index.
   */
  predicate Terminated(prog: seq<Instr>)
  {
    && |prog| > 0 && prog[|prog| - 1].op == Terminate
    && (forall k :: 0 <= k < |prog| - 1 ==> prog[k].op != Terminate)
    && (forall k :: 0 <= k < |prog| && prog[k].op == Close ==> prog[k].link < k)
  }

  lemma LexTerminated(text: seq<char>)
    requires Lex(text).Ok?
    ensures Terminated(Lex(text).value)
  {
    LexResult(text);
    var out := Lex(text).value;
    LinksPointBack(out[..|out| - 1]);
    forall k | 0 <= k < |out| - 1
      ensures out[k].op != Terminate && (out[k].op == Close ==> out[k].link < k)
    {
      assert out[..|out| - 1][k] == out[k];
      assert OpOf(Commands(text)[k]) == Some(out[k].op);
    }
  }

  /** On such a program the counter stays inside it. */
  lemma {:induction false} RunStaysInside(prog: seq<Instr>, m: State, fuel: nat)
    requires Valid(m) && Terminated(prog) && m.pc < |prog|
    ensures Run(prog, m, fuel).pc < |prog|
    decreases fuel
  {
    if fuel > 0 && !Stopped(prog, m) {
      var n := Step(prog, m);
      assert n.pc < |prog| by {
        if prog[m.pc].op != Terminate {
          assert m.pc < |prog| - 1;
        }
      }
      RunStaysInside(prog, n, fuel - 1);
    }
  }

  /**
   * So a lexed program only ever stops at its `OP_PROGRAM_TERMINATE`: the
   * `program_counter < stats.no_instructions` bound of the loop is never what
   * ends a run.
   */
  lemma StopsOnlyAtTerminate(text: seq<char>, fuel: nat)
    requires Lex(text).Ok?
    ensures var prog := Lex(text).value;
      var r := Run(prog, Initial(), fuel);
      Stopped(prog, r) ==> r.terminated && r.pc == |prog| - 1
  {
    var prog := Lex(text).value;
    LexTerminated(text);
    RunStaysInside(prog, Initial(), fuel);
    var r := Run(prog, Initial(), fuel);
    if Stopped(prog, r) {
      TerminatedAtEnd(prog, Initial(), fuel);
    }
  }

  lemma {:induction false} TerminatedAtEnd(prog: seq<Instr>, m: State, fuel: nat)
    requires Valid(m) && Terminated(prog) && m.pc < |prog|
    requires m.terminated ==> m.pc == |prog| - 1
    ensures Run(prog, m, fuel).terminated ==> Run(prog, m, fuel).pc == |prog| - 1
    decreases fuel
  {
    if fuel > 0 && !Stopped(prog, m) {
      var n := Step(prog, m);
      assert n.pc < |prog| by {
        if prog[m.pc].op != Terminate {
          assert m.pc < |prog| - 1;
        }
      }
      TerminatedAtEnd(prog, n, fuel - 1);
    }
  }

  /** `+.` prints the byte 1 and then stops at the terminator. */
  lemma PlusPrintsOne()
    ensures var prog := [Instr(Increment, '+', 0), Instr(Op.Print, '.', 0), TerminateInstr];
      var r := Run(prog, Initial(), 3);
      r.output == [1] && r.terminated
  {
    var prog := [Instr(Increment, '+', 0), Instr(Op.Print, '.', 0), TerminateInstr];
    var m0 := Initial();
    var m1 := Step(prog, m0);
    var m2 := Step(prog, m1);
    var m3 := Step(prog, m2);
    assert m1.tape[0] == 1 && m1.pc == 1 && m1.output == [];
    assert m2.output == [1] && m2.pc == 2;
    assert m3.terminated && m3.output == [1];
    assert Run(prog, m2, 1) == m3;
    assert Run(prog, m1, 2) == m3;
  }

  // ---------------------------------------------------------------------
  // The code

  /** `run_interpreter`; `output` is what `putchar` printed, `stopped` whether the run ended within `fuel` passes. */
  method RunInterpreter(prog: seq<Instr>, fuel: nat) returns (output: seq<Byte>, stopped: bool)
    ensures var r := Run(prog, Initial(), fuel); output == r.output && stopped == Stopped(prog, r)
  {
    var memory := new Byte[MemoryBufferCap](_ => 0);
    var programCounter: nat := 0;
    var stackPointer: nat := 0;
    var remaining := fuel;
    output := [];
    assert memory[..] == Initial().tape;
    while programCounter < |prog| && remaining > 0
      invariant memory.Length == MemoryBufferCap && stackPointer < MemoryBufferCap
      invariant Run(prog, State(programCounter, stackPointer, memory[..], output, false), remaining) == Run(prog, Initial(), fuel)
      decreases remaining
    {
      ghost var m := State(programCounter, stackPointer, memory[..], output, false);
      var instruction := prog[programCounter];
      match instruction.op {
        case Increment =>
          memory[stackPointer] := ToByte(memory[stackPointer] as int + 1);
        case Decrement =>
          memory[stackPointer] := ToByte(memory[stackPointer] as int - 1);
        case Open =>
        case Close =>
          if memory[stackPointer] != 0 {
            programCounter := instruction.link;
            assert State(programCounter, stackPointer, memory[..], output, false) == Step(prog, m);
            remaining := remaining - 1;
            continue;
          }
        case Print =>
          output := output + [memory[stackPointer]];
        case MoveRight =>
          stackPointer := Right(stackPointer);
        case MoveLeft =>
          stackPointer := Left(stackPointer);
        case Terminate =>
          assert Run(prog, m, remaining) == Step(prog, m);
          return output, true;
      }
      programCounter := programCounter + 1;
      assert State(programCounter, stackPointer, memory[..], output, false) == Step(prog, m);
      remaining := remaining - 1;
    }
    stopped := programCounter >= |prog|;
  }
}
