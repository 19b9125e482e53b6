/**
 * The tape machine `interpret_bf` of src/brainfork.c (lines 300-340): a
 * program counter walks the instruction buffer, the cells of a caller-owned
 * tape are bytes, and the cursor into the tape wraps around its size.
 * `putchar` appends to an output sequence. The loop of the source need not
 * end (`+[]`), so the model runs for a given number of steps (`fuel`).
 */
module Machine {
  import opened Instructions

  /** 2^64: `size_t` arithmetic is modulo this. */
  const SizeModulus: nat := 0x1_0000_0000_0000_0000

  /**
   * OP_SHIFT (src/brainfork.c:324): `stack_pointer + mov + buffer_size`
   * computed on `size_t`, where the `long` payload is converted to unsigned,
   * then reduced modulo the tape size.
   */
  function ShiftCursor(sp: nat, mov: int, size: nat): (r: nat)
    requires 0 < size
    ensures r < size
  {
    ((sp + mov + size) % SizeModulus) % size
  }

  lemma MulAtLeast(a: int, n: int)
    requires a >= 1 && n > 0
    ensures a * n >= n
  {
    assert a * n == (a - 1) * n + n;
  }

  /** The Euclidean quotient and remainder are the only ones. */
  lemma ModUnique(x: int, n: int, q: int, r: int)
    requires 0 < n && x == q * n + r && 0 <= r < n
    ensures x % n == r
  {
    var q' := x / n;
    var r' := x % n;
    assert (q - q') * n == r' - r by {
      assert x == q' * n + r';
      assert (q - q') * n == q * n - q' * n;
    }
    if q > q' {
      MulAtLeast(q - q', n);
      assert false;
    } else if q < q' {
      assert (q' - q) * n == r - r';
      MulAtLeast(q' - q, n);
      assert false;
    }
  }

  /** Reducing modulo a multiple of `n` first does not change the remainder modulo `n`. */
  lemma ModOfMod(x: int, m: int, n: int)
    requires 0 < n && m % n == 0 && 0 < m
    ensures (x % m) % n == x % n
  {
    var k := m / n;
    assert m == k * n;
    var q := x / m;
    var r := x % m;
    assert x == q * m + r;
    var r2 := r % n;
    var q2 := r / n;
    assert r == q2 * n + r2;
    assert x == (q * k + q2) * n + r2 by {
      assert q * m == q * k * n;
    }
    ModUnique(x, n, q * k + q2, r2);
  }

  /**
   * When the tape size divides 2^64, as the 1024 cells every caller uses do,
   * the shift is plain modular arithmetic: the cursor moves by `mov` around
   * a ring of `size` cells.
   */
  lemma ShiftIsModular(sp: nat, mov: int, size: nat)
    requires 0 < size && SizeModulus % size == 0
    ensures ShiftCursor(sp, mov, size) == (sp + mov) % size
  {
    ModOfMod(sp + mov + size, SizeModulus, size);
    ModUnique(sp + mov + size, size, (sp + mov) / size + 1, (sp + mov) % size);
  }

  lemma MemoryStripShiftIsModular(sp: nat, mov: int)
    ensures ShiftCursor(sp, mov, MemoryStripSize) == (sp + mov) % MemoryStripSize
  {
    ShiftIsModular(sp, mov, MemoryStripSize);
  }

  /** The machine: program counter, cursor, tape and what `putchar` has printed. */
  datatype Machine = Machine(pc: nat, cursor: nat, tape: seq<Byte>, output: seq<Byte>)

  predicate Valid(m: Machine)
  {
    m.cursor < |m.tape|
  }

  predicate Halted(prog: seq<Instruction>, m: Machine)
  {
    m.pc >= |prog|
  }

  /**
   * One pass of the `while` (src/brainfork.c:307-328). A close with a non-zero
   * cell sets the counter to its open without the increment, so the open (a
   * no-op) is executed again: the loop body runs before its first test.
   */
  function Step(prog: seq<Instruction>, m: Machine): (r: Machine)
    requires Valid(m) && !Halted(prog, m)
    ensures Valid(r) && |r.tape| == |m.tape|
    ensures forall i :: 0 <= i < |m.tape| && i != m.cursor ==> r.tape[i] == m.tape[i]
    ensures r.output == m.output || r.output == m.output + [m.tape[m.cursor]]
    ensures r.tape != m.tape ==> prog[m.pc].Write?
    ensures r.cursor != m.cursor ==> prog[m.pc].Shift?
  {
    var cell := m.tape[m.cursor];
    match prog[m.pc]
    case Write(n) => m.(pc := m.pc + 1, tape := m.tape[m.cursor := ToByte(cell + n)])
    case BracketOpen(_) => m.(pc := m.pc + 1)
    case BracketClosed(t) => if cell == 0 then m.(pc := m.pc + 1) else m.(pc := t)
    case Print => m.(pc := m.pc + 1, output := m.output + [cell])
    case Shift(n) => m.(pc := m.pc + 1, cursor := ShiftCursor(m.cursor, n, |m.tape|))
  }

  /** At most `fuel` passes of the loop, stopping when the counter leaves the program. */
  function Run(prog: seq<Instruction>, m: Machine, fuel: nat): (r: Machine)
    requires Valid(m)
    ensures Valid(r) && |r.tape| == |m.tape|
    decreases fuel
  {
    if fuel == 0 || Halted(prog, m) then m else Run(prog, Step(prog, m), fuel - 1)
  }

  /** Where `run_interpreter` (src/brainfork.c:334-340) starts: a zeroed strip of 1024 cells, cursor 0. */
  function Initial(): (m: Machine)
    ensures Valid(m) && |m.tape| == MemoryStripSize
    ensures forall i :: 0 <= i < |m.tape| ==> m.tape[i] == 0
  {
    Machine(0, 0, seq(MemoryStripSize, _ => 0), [])
  }

  // ---------------------------------------------------------------------
  // Properties of runs

  /** A halted machine stays as it is. */
  lemma {:induction false} HaltedIsFixed(prog: seq<Instruction>, m: Machine, fuel: nat)
    requires Valid(m) && Halted(prog, m)
    ensures Run(prog, m, fuel) == m
  {
  }

  /** Running `a` steps and then `b` more is running `a + b` steps. */
  lemma {:induction false} RunAdditive(prog: seq<Instruction>, m: Machine, a: nat, b: nat)
    requires Valid(m)
    ensures Run(prog, Run(prog, m, a), b) == Run(prog, m, a + b)
    decreases a
  {
    if a == 0 {
    } else if Halted(prog, m) {
      HaltedIsFixed(prog, m, b);
    } else {
      RunAdditive(prog, Step(prog, m), a - 1, b);
    }
  }

  /** What is printed only grows, and the cursor stays on the tape. */
  lemma {:induction false} RunExtendsOutput(prog: seq<Instruction>, m: Machine, fuel: nat)
    requires Valid(m)
    ensures |m.output| <= |Run(prog, m, fuel).output|
    ensures Run(prog, m, fuel).output[..|m.output|] == m.output
    decreases fuel
  {
    if fuel > 0 && !Halted(prog, m) {
      var n := Step(prog, m);
      RunExtendsOutput(prog, n, fuel - 1);
      assert n.output[..|m.output|] == m.output;
    }
  }

  /** A program without `OP_WRITE` never changes the tape. */
  lemma {:induction false} NoWriteKeepsTape(prog: seq<Instruction>, m: Machine, fuel: nat)
    requires Valid(m) && forall k :: 0 <= k < |prog| ==> !prog[k].Write?
    ensures Run(prog, m, fuel).tape == m.tape
    decreases fuel
  {
    if fuel > 0 && !Halted(prog, m) {
      NoWriteKeepsTape(prog, Step(prog, m), fuel - 1);
    }
  }

  /**
   * The body of a loop runs once even when the cell is zero on entry:
   * `[.]` on a zeroed tape prints one zero byte, then halts.
   */
  lemma LoopBodyRunsFirst()
    ensures var r := Run([BracketOpen(0), Print, BracketClosed(0)], Initial(), 3);
      r.output == [0] && r.pc == 3
  {
    var prog := [BracketOpen(0), Print, BracketClosed(0)];
    var m0 := Initial();
    var m1 := Step(prog, m0);
    var m2 := Step(prog, m1);
    var m3 := Step(prog, m2);
    assert m1 == m0.(pc := 1);
    assert m2 == m0.(pc := 2, output := [0]);
    assert m3 == m2.(pc := 3);
    assert Run(prog, m2, 1) == m3;
    assert Run(prog, m1, 2) == m3;
  }

  /**
   * `+[-]` as the lexer stores it clears the cell again: after the four
   * instructions and one jump back the counter has left the program.
   */
  lemma CountdownClearsCell()
    ensures var r := Run([Write(1), BracketOpen(1), Write(-1), BracketClosed(1)], Initial(), 4);
      r.pc == 4 && r.tape == Initial().tape && r.output == []
  {
    var prog := [Write(1), BracketOpen(1), Write(-1), BracketClosed(1)];
    var m0 := Initial();
    var m1 := Step(prog, m0);
    assert m1 == m0.(pc := 1, tape := m0.tape[0 := 1]);
    var m2 := Step(prog, m1);
    assert m2 == m1.(pc := 2);
    var m3 := Step(prog, m2);
    assert m3.tape == m0.tape && m3.pc == 3;
    var m4 := Step(prog, m3);
    assert m4 == m3.(pc := 4);
    assert Run(prog, m3, 1) == m4;
    assert Run(prog, m2, 2) == m4;
    assert Run(prog, m1, 3) == m4;
  }

  // ---------------------------------------------------------------------
  // The code

  /**
   * `interpret_bf`: runs the program on `memory` in place from `cursor` and
   * returns the final cursor (written back through the pointer in the source)
   * with what was printed. `halted` says whether the counter left the program
   * within `fuel` passes.
   */
  method InterpretBf(prog: seq<Instruction>, memory: array<Byte>, cursor: nat, fuel: nat)
    returns (cursor': nat, output: seq<Byte>, halted: bool)
    requires cursor < memory.Length
    modifies memory
    ensures var r := Run(prog, Machine(0, cursor, old(memory[..]), []), fuel);
      && memory[..] == r.tape && cursor' == r.cursor && output == r.output
      && halted == Halted(prog, r)
  {
    var programCounter: nat := 0;
    var stackPointer: nat := cursor;
    var remaining := fuel;
    output := [];
    ghost var start := Machine(0, cursor, memory[..], []);
    while programCounter < |prog| && remaining > 0
      invariant stackPointer < memory.Length
      invariant Run(prog, Machine(programCounter, stackPointer, memory[..], output), remaining) == Run(prog, start, fuel)
      decreases remaining
    {
      ghost var m := Machine(programCounter, stackPointer, memory[..], output);
      match prog[programCounter] {
        case Write(n) =>
          memory[stackPointer] := ToByte(memory[stackPointer] + n);
          programCounter := programCounter + 1;
        case BracketOpen(_) =>
          programCounter := programCounter + 1;
        case BracketClosed(t) =>
          if memory[stackPointer] == 0 {
            programCounter := programCounter + 1;
          } else {
            programCounter := t;
          }
        case Print =>
          output := output + [memory[stackPointer]];
          programCounter := programCounter + 1;
        case Shift(n) =>
          stackPointer := ShiftCursor(stackPointer, n, memory.Length);
          programCounter := programCounter + 1;
      }
      assert Machine(programCounter, stackPointer, memory[..], output) == Step(prog, m);
      remaining := remaining - 1;
    }
    cursor' := stackPointer;
    halted := programCounter >= |prog|;
  }

  /** `run_interpreter`: a fresh zeroed strip of 1024 cells and cursor 0. */
  method RunInterpreter(prog: seq<Instruction>, fuel: nat) returns (output: seq<Byte>, halted: bool)
    ensures var r := Run(prog, Initial(), fuel); output == r.output && halted == Halted(prog, r)
  {
    var memory := new Byte[MemoryStripSize](_ => 0);
    assert memory[..] == Initial().tape;
    var cursor;
    cursor, output, halted := InterpretBf(prog, memory, 0, fuel);
  }
}
