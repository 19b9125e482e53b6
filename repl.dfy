/**
 * One command of the interactive session `run_interactive` (src/brainfork.c:482-541).
 * The session owns a tape of BF_MEMORY_STRIP_SIZE cells and a cursor, and each
 * line read from the terminal either quits, dumps, clears or edits the tape,
 * or is compiled by the folding lexer and run on the tape. The line is what
 * `fgets` stores: a C string that holds its newline unless the line was too
 * long. What is printed is a sequence of bytes; the prompt, the error
 * messages and the draining of an overlong line are not part of it.
 */
module Repl {
  import opened Instructions
  import opened Lexer
  import opened Vm = Machine

  /** BF_INTERACTIVE_INPUT_SIZE: `fgets` stores at most this many characters. */
  const InteractiveInputSize: nat := 256

  /** The byte `putchar('\n')` writes after every command. */
  const Newline: Byte := 10

  /** `strchr(input, '\n') != NULL` */
  predicate HasNewline(input: seq<char>)
    requires IsCString(input)
  {
    '\n' in input[..StrLen(input)]
  }

  /** The byte a `char` of the line stores into a cell. */
  function CharByte(c: char): Byte
  {
    ToByte(c as int)
  }

  /** The cells `!` prints: the non-zero ones, in index order. */
  function NonZero(tape: seq<Byte>): (r: seq<Byte>)
    ensures |r| <= |tape|
    ensures forall k :: 0 <= k < |r| ==> r[k] != 0
    decreases |tape|
  {
    if |tape| == 0 then []
    else NonZero(tape[..|tape| - 1]) + (if tape[|tape| - 1] != 0 then [tape[|tape| - 1]] else [])
  }

  /** A zeroed tape prints nothing. */
  lemma {:induction false} NonZeroOfZeros(tape: seq<Byte>)
    requires forall k :: 0 <= k < |tape| ==> tape[k] == 0
    ensures NonZero(tape) == []
    decreases |tape|
  {
    if |tape| > 0 {
      NonZeroOfZeros(tape[..|tape| - 1]);
    }
  }

  /** Every non-zero cell is printed: the dump loses no cell and adds none. */
  lemma {:induction false} NonZeroKeepsCells(tape: seq<Byte>)
    ensures multiset(NonZero(tape)) + multiset{}[0 := CountZeros(tape)] == multiset(tape)
    decreases |tape|
  {
    if |tape| > 0 {
      var front := tape[..|tape| - 1];
      NonZeroKeepsCells(front);
      assert tape == front + [tape[|tape| - 1]];
    }
  }

  function CountZeros(tape: seq<Byte>): nat
    decreases |tape|
  {
    if |tape| == 0 then 0 else CountZeros(tape[..|tape| - 1]) + (if tape[|tape| - 1] == 0 then 1 else 0)
  }

  /** The session after a command, what it printed, and whether the loop returned. */
  datatype Reply = Reply(tape: seq<Byte>, cursor: nat, output: seq<Byte>, quit: bool)

  /**
   * The dispatch on the first character (src/brainfork.c:494-537). A line to
   * interpret runs for at most `fuel` passes of the VM.
   */
  function Respond(tape: seq<Byte>, cursor: nat, input: seq<char>, fuel: nat): (r: Reply)
    requires IsCString(input) && cursor < |tape|
    ensures |r.tape| == |tape| && r.cursor < |tape|
  {
    if !HasNewline(input) then Reply(tape, cursor, [], true)
    else if input[0] == 'x' || input[0] == 'X' then Reply(tape, cursor, [], true)
    else if input[0] == '!' then Reply(tape, cursor, NonZero(tape) + [Newline], false)
    else if input[0] == 'r' || input[0] == 'R' then Reply(seq(|tape|, _ => 0), cursor, [Newline], false)
    else if input[0] == 's' || input[0] == 'S' then Reply(tape, 0, [Newline], false)
    else if input[0] == ',' then
      var value := if input[1] == '\n' then 0 else CharByte(input[1]);
      Reply(tape[cursor := value], cursor, [Newline], false)
    else
      match Parse(input)
      case Err(_) => Reply(tape, cursor, [Newline], false)
      case Ok(prog) =>
        var m := Run(prog, Vm.Machine(0, cursor, tape, []), fuel);
        Reply(m.tape, m.cursor, m.output + [Newline], false)
  }

  // ---------------------------------------------------------------------
  // Properties

  /** A line that does not compile leaves the tape and the cursor as they were. */
  lemma FailedCompileKeepsSession(tape: seq<Byte>, cursor: nat, input: seq<char>, fuel: nat)
    requires IsCString(input) && cursor < |tape| && HasNewline(input)
    requires input[0] !in "xX!rRsS," && Parse(input).Err?
    ensures var r := Respond(tape, cursor, input, fuel);
      r.tape == tape && r.cursor == cursor && r.output == [Newline] && !r.quit
  {
  }

  /** `r` then `!` prints only the newline. */
  lemma ResetThenDumpPrintsNothing(tape: seq<Byte>, cursor: nat, fuel: nat)
    requires cursor < |tape|
    ensures var r1 := Respond(tape, cursor, "r\n\0", fuel);
      Respond(r1.tape, r1.cursor, "!\n\0", fuel).output == [Newline]
  {
    var r := "r\n\0";
    assert StrLen(r) == 2 by {
      assert r[2] == '\0' && r[0] != '\0' && r[1] != '\0';
    }
    assert r[..2][1] == '\n';
    var d := "!\n\0";
    assert StrLen(d) == 2 by {
      assert d[2] == '\0' && d[0] != '\0' && d[1] != '\0';
    }
    assert d[..2][1] == '\n';
    var r1 := Respond(tape, cursor, r, fuel);
    NonZeroOfZeros(r1.tape);
  }

  /** `,A` stores the byte of `A` under the cursor and changes nothing else; `,` alone stores zero. */
  lemma WriteCommand(tape: seq<Byte>, cursor: nat, fuel: nat)
    requires cursor < |tape|
    ensures Respond(tape, cursor, ",A\n\0", fuel) == Reply(tape[cursor := 65], cursor, [Newline], false)
    ensures Respond(tape, cursor, ",\n\0", fuel) == Reply(tape[cursor := 0], cursor, [Newline], false)
  {
    var a := ",A\n\0";
    assert StrLen(a) == 3 by {
      assert a[3] == '\0' && a[0] != '\0' && a[1] != '\0' && a[2] != '\0';
    }
    assert a[..3][2] == '\n';
    var b := ",\n\0";
    assert StrLen(b) == 2 by {
      assert b[2] == '\0' && b[0] != '\0' && b[1] != '\0';
    }
    assert b[..2][1] == '\n';
  }

  /** A line that filled the buffer without its newline ends the session untouched. */
  lemma OverlongLineQuits(tape: seq<Byte>, cursor: nat, input: seq<char>, fuel: nat)
    requires IsCString(input) && cursor < |tape| && !HasNewline(input)
    ensures Respond(tape, cursor, input, fuel) == Reply(tape, cursor, [], true)
  {
  }

  // ---------------------------------------------------------------------
  // The code

  /** The state `run_interactive` keeps across commands. */
  class Session {
    var memory: array<Byte>
    var cursor: nat

    ghost predicate Valid()
      reads this
    {
      memory.Length == MemoryStripSize && cursor < memory.Length
    }

    /** A zeroed strip and the cursor at 0 (src/brainfork.c:486-488). */
    constructor ()
      ensures Valid() && fresh(memory) && cursor == 0
      ensures forall i :: 0 <= i < memory.Length ==> memory[i] == 0
    {
      memory := new Byte[MemoryStripSize](_ => 0);
      cursor := 0;
    }

    /** One pass of the `while(1)`, after `fgets` has stored `input`. */
    method Command(input: seq<char>, fuel: nat) returns (output: seq<Byte>, quit: bool)
      requires Valid() && IsCString(input)
      modifies this, memory
      ensures Valid() && memory == old(memory)
      ensures var r := Respond(old(memory[..]), old(cursor), input, fuel);
        memory[..] == r.tape && cursor == r.cursor && output == r.output && quit == r.quit
    {
      ghost var tape := memory[..];
      if !('\n' in input[..StrLen(input)]) {
        return [], true;
      } else if input[0] == 'x' || input[0] == 'X' {
        return [], true;
      } else if input[0] == '!' {
        output := DumpMemory(memory);
      } else if input[0] == 'r' || input[0] == 'R' {
        EraseMemory(memory);
        output := [];
      } else if input[0] == 's' || input[0] == 'S' {
        cursor := 0;
        output := [];
      } else if input[0] == ',' {
        memory[cursor] := if input[1] == '\n' then 0 else CharByte(input[1]);
        output := [];
      } else {
        var instructions, count := ParseInstructions(input);
        output := [];
        if instructions != null {
          var halted;
          cursor, output, halted := InterpretBf(instructions[..count], memory, cursor, fuel);
        }
      }
      output := output + [Newline];
      quit := false;
    }
  }

  /** The `!` loop: `putchar` of every non-zero cell, in index order. */
  method DumpMemory(memory: array<Byte>) returns (output: seq<Byte>)
    ensures output == NonZero(memory[..])
  {
    output := [];
    var i := 0;
    while i < memory.Length
      invariant i <= memory.Length
      invariant output == NonZero(memory[..i])
    {
      assert memory[..i + 1][..i] == memory[..i];
      if memory[i] != 0 {
        output := output + [memory[i]];
      }
      i := i + 1;
    }
    assert memory[..i] == memory[..];
  }

  /** `memset(&memory_buffer, 0, BF_MEMORY_STRIP_SIZE)` */
  method EraseMemory(memory: array<Byte>)
    modifies memory
    ensures memory[..] == seq(memory.Length, _ => 0)
  {
    var i := 0;
    while i < memory.Length
      invariant i <= memory.Length
      invariant forall k :: 0 <= k < i ==> memory[k] == 0
    {
      memory[i] := 0;
      i := i + 1;
    }
  }
}
