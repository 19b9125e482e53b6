/**
 * The folding lexer and bracket resolver `parse_instructions` of
 * src/brainfork.c (lines 171-298).
 *
 * The source walks a NUL-terminated buffer with one cursor. Each pass of
 * its loop skips whitespace and at most one `//` comment, may flush a pending
 * `+`/`-` or `<`/`>` run without consuming input, and otherwise dispatches
 * one character. `Iterate` is that pass as a function of the loop state,
 * `ParseLoop` the whole loop, and `ParseInstructions` the code itself, proved
 * to compute `Parse`.
 */
module Lexer {
  import opened Instructions
  import opened LoopStacks

  predicate IsWhitespace(c: char)
  {
    c == ' ' || c == '\t' || c == '\n' || c == '\r' || c == '\U{C}' || c == '\U{B}'
  }

  predicate IsEndComment(c: char)
  {
    c == '\n' || c == '\0'
  }

  predicate IsAdditive(c: char)
  {
    c == '+' || c == '-'
  }

  predicate IsShiftChar(c: char)
  {
    c == '<' || c == '>'
  }

  /** The seven symbols the lexer dispatches without error. */
  predicate IsCommand(c: char)
  {
    IsAdditive(c) || IsShiftChar(c) || c == '[' || c == ']' || c == '.'
  }

  /** A character buffer as C sees it: its last character is the terminator. */
  predicate IsCString(text: seq<char>)
  {
    |text| > 0 && text[|text| - 1] == '\0'
  }

  /** `strlen`: the index of the first NUL. */
  function StrLen(text: seq<char>): (n: nat)
    requires IsCString(text)
    ensures n < |text| && text[n] == '\0'
    ensures forall k :: 0 <= k < n ==> text[k] != '\0'
  {
    FirstNulFrom(text, 0)
  }

  function FirstNulFrom(text: seq<char>, i: nat): (n: nat)
    requires IsCString(text) && i < |text|
    requires forall k :: 0 <= k < i ==> text[k] != '\0'
    ensures i <= n < |text| && text[n] == '\0'
    ensures forall k :: 0 <= k < n ==> text[k] != '\0'
    decreases |text| - i
  {
    if text[i] == '\0' then i else FirstNulFrom(text, i + 1)
  }

  /** First position at or after `p` that is not whitespace. */
  function SkipWhitespace(text: seq<char>, p: nat): (q: nat)
    requires IsCString(text) && p < |text|
    ensures p <= q < |text| && !IsWhitespace(text[q])
    ensures forall k :: p <= k < q ==> IsWhitespace(text[k])
    decreases |text| - p
  {
    if IsWhitespace(text[p]) then SkipWhitespace(text, p + 1) else p
  }

  /** First position at or after `p` holding a newline or the terminator. */
  function SkipToLineEnd(text: seq<char>, p: nat): (q: nat)
    requires IsCString(text) && p < |text|
    ensures p <= q < |text| && IsEndComment(text[q])
    ensures forall k :: p <= k < q ==> !IsEndComment(text[k])
    decreases |text| - p
  {
    if IsEndComment(text[p]) then p else SkipToLineEnd(text, p + 1)
  }

  /** BF_SEEK_COMMENT: two slashes start at `p`. */
  predicate AtComment(text: seq<char>, p: nat)
    requires IsCString(text) && p < |text|
  {
    text[p] == '/' && text[p + 1] == '/'
  }

  /** Skips a comment that starts at `p`, and the newline that ends it. */
  function SkipComment(text: seq<char>, p: nat): (q: nat)
    requires IsCString(text) && p < |text| && AtComment(text, p)
    ensures p + 2 <= q < |text|
    ensures forall k :: p <= k < q ==> text[k] != '\0'
    ensures q == |text| - 1 || text[q - 1] == '\n' || text[q] == '\0'
  {
    var e := SkipToLineEnd(text, p + 2);
    if text[e] == '\n' then e + 1 else e
  }

  /** Where one pass of the loop looks after skipping whitespace, then at most one comment. */
  function SkipBlank(text: seq<char>, p: nat): (q: nat)
    requires IsCString(text) && p < |text|
    ensures p <= q < |text|
    ensures forall k :: p <= k < q ==> text[k] != '\0'
  {
    var w := SkipWhitespace(text, p);
    if AtComment(text, w) then SkipComment(text, w) else w
  }

  /**
   * The loop's variables: the cursor, the two accumulators, the pending
   * opens (their buffer indices, innermost last) and the instructions stored.
   */
  datatype ParseState = ParseState(pos: nat, inc: int, mov: int, stack: seq<nat>, out: seq<Instruction>)

  const InitialState := ParseState(0, 0, 0, [], [])

  /** How many accumulators still hold a run to flush. */
  function Pending(st: ParseState): (n: nat)
    ensures n <= 2
    ensures n == 0 <==> st.inc == 0 && st.mov == 0
  {
    (if st.inc != 0 then 1 else 0) + (if st.mov != 0 then 1 else 0)
  }

  datatype Iteration = Next(state: ParseState) | Fail(error: ParseError)

  /**
   * One pass of the while body (src/brainfork.c:190-284): skip blanks, then
   * act on the character found there.
   */
  function Iterate(text: seq<char>, st: ParseState): (r: Iteration)
    requires IsCString(text) && st.pos < |text| && text[st.pos] != '\0'
    ensures r.Next? ==> st.pos <= r.state.pos < |text|
    ensures r.Next? ==> st.pos < r.state.pos || Pending(r.state) < Pending(st)
    ensures r.Next? ==> forall k :: st.pos <= k < r.state.pos ==> text[k] != '\0'
  {
    var p := SkipBlank(text, st.pos);
    Dispatch(st, p, text[p])
  }

  /**
   * What a pass does with the character `c` found at `p` after the skips
   * (src/brainfork.c:207-284). A flush stores the run and leaves the cursor
   * on the character that ended it; reaching the terminator leaves the cursor
   * there, so the loop test fails.
   */
  function Dispatch(st: ParseState, p: nat, c: char): (r: Iteration)
    ensures r.Next? && r.state.pos == p ==> c == '\0' || Pending(r.state) < Pending(st)
    ensures r.Next? && r.state.pos != p ==> r.state.pos == p + 1 && c != '\0'
  {
    if st.inc != 0 && !IsAdditive(c) then
      Next(st.(pos := p, inc := 0, out := st.out + [Write(st.inc)]))
    else if st.mov != 0 && !IsShiftChar(c) then
      Next(st.(pos := p, mov := 0, out := st.out + [Shift(st.mov)]))
    else if c == '\0' then
      Next(st.(pos := p))
    else if c == '+' then
      Next(st.(pos := p + 1, inc := st.inc + 1))
    else if c == '-' then
      Next(st.(pos := p + 1, inc := st.inc - 1))
    else if c == '[' then
      Next(st.(pos := p + 1, stack := st.stack + [|st.out|], out := st.out + [BracketOpen(|st.out|)]))
    else if c == ']' then
      if |st.stack| == 0 then Fail(UnmatchedClose)
      else Next(st.(pos := p + 1, stack := st.stack[..|st.stack| - 1],
                    out := st.out + [BracketClosed(st.stack[|st.stack| - 1])]))
    else if c == '.' then
      Next(st.(pos := p + 1, out := st.out + [Print]))
    else if c == '>' then
      Next(st.(pos := p + 1, mov := st.mov + 1))
    else if c == '<' then
      Next(st.(pos := p + 1, mov := st.mov - 1))
    else
      Fail(UnknownToken(c))
  }

  /** After the loop (DEFER_END): a pending open is an error, otherwise the stored instructions. */
  function Finish(st: ParseState): Result<seq<Instruction>>
  {
    if |st.stack| != 0 then Err(UnmatchedOpen) else Ok(st.out)
  }

  /** The loop `while (*program_content)` from state `st` on. */
  function ParseLoop(text: seq<char>, st: ParseState): Result<seq<Instruction>>
    requires IsCString(text) && st.pos < |text|
    decreases |text| - st.pos, Pending(st)
  {
    if text[st.pos] == '\0' then Finish(st)
    else match Iterate(text, st)
      case Fail(e) => Err(e)
      case Next(st') => ParseLoop(text, st')
  }

  /** What `parse_instructions` computes: the instructions, or the error it reports. */
  function Parse(text: seq<char>): Result<seq<Instruction>>
    requires IsCString(text)
  {
    ParseLoop(text, InitialState)
  }

  // ---------------------------------------------------------------------
  // The loop stack's capacity

  /** sizeof(Instruction) on the usual 64-bit targets: a 4-byte tag, padding, an 8-byte union. */
  const InstructionBytes: nat := 16

  /**
   * Whole entries `allocate_loop_stack` makes room for as written: it asks
   * for `sizeof(Instruction) * program_size / 2 + 1` BYTES (src/brainfork.c:128).
   */
  function AsWrittenStackEntries(programSize: nat): (n: nat)
    ensures n == programSize / 2
  {
    (InstructionBytes * programSize / 2 + 1) / InstructionBytes
  }

  /** Entries a state may have pushed: never more than the characters consumed before it. */
  predicate Bounded(text: seq<char>, st: ParseState)
    requires IsCString(text)
  {
    && st.pos < |text|
    && (forall k :: 0 <= k < st.pos ==> text[k] != '\0')
    && |st.stack| <= st.pos
  }

  lemma BoundedWithinLength(text: seq<char>, st: ParseState)
    requires IsCString(text) && Bounded(text, st)
    ensures |st.stack| <= st.pos <= StrLen(text)
  {
  }

  /**
   * Every pass keeps the pending opens within the characters consumed, so a
   * stack of `strlen` entries never overflows.
   */
  lemma IterateBounded(text: seq<char>, st: ParseState)
    requires IsCString(text) && Bounded(text, st) && text[st.pos] != '\0'
    ensures Iterate(text, st).Next? ==> Bounded(text, Iterate(text, st).state)
    ensures Iterate(text, st).Next? ==> |Iterate(text, st).state.stack| <= StrLen(text)
  {
    if Iterate(text, st).Next? {
      BoundedWithinLength(text, Iterate(text, st).state);
    }
  }

  /**
   * The source's stack is too small: on the one-character program `[` (which
   * it rejects only after the loop) the first pass pushes an entry onto a
   * stack with room for none.
   */
  lemma SingleOpenOverflowsStack()
    ensures var text := "[\0";
      && AsWrittenStackEntries(StrLen(text)) == 0
      && Iterate(text, InitialState).Next?
      && |Iterate(text, InitialState).state.stack| == 1
  {
    var text := "[\0";
    assert StrLen(text) == 1 by {
      assert text[0] != '\0' && text[1] == '\0';
    }
    assert SkipBlank(text, 0) == 0;
  }

  /** The pending opens as the `Instruction`s the source pushes onto its stack. */
  function AsOpens(s: seq<nat>): (r: seq<Instruction>)
    ensures |r| == |s|
    ensures forall k :: 0 <= k < |s| ==> r[k] == BracketOpen(s[k])
  {
    seq(|s|, k requires 0 <= k < |s| => BracketOpen(s[k]))
  }

  // ---------------------------------------------------------------------
  // The code

  /**
   * PUSH_TOKEN (src/brainfork.c:270-281): a full buffer is reallocated at
   * twice its capacity, keeping its entries, before the instruction is stored.
   */
  method PushInstruction(instructions: array<Instruction>, size: nat, instruction: Instruction)
    returns (grown: array<Instruction>, size': nat)
    requires 0 < instructions.Length && size <= instructions.Length
    modifies instructions
    ensures size' == size + 1 && size' <= grown.Length
    ensures grown[..size'] == old(instructions[..size]) + [instruction]
    ensures grown.Length == if size == instructions.Length then 2 * instructions.Length else instructions.Length
    ensures if size == instructions.Length then fresh(grown) else grown == instructions
  {
    grown := instructions;
    if size == instructions.Length {
      grown := new Instruction[2 * instructions.Length];
      var i := 0;
      while i < size
        invariant 0 <= i <= size
        invariant grown[..i] == instructions[..i]
        invariant instructions[..] == old(instructions[..])
      {
        grown[i] := instructions[i];
        i := i + 1;
      }
    }
    grown[size] := instruction;
    size' := size + 1;
  }

  /** src/brainfork.c:194-203: skips whitespace, then at most one comment and its newline. */
  method SkipBlanks(text: seq<char>, p: nat) returns (q: nat)
    requires IsCString(text) && p < |text|
    ensures q == SkipBlank(text, p)
  {
    q := SkipSpaces(text, p);
    if text[q] == '/' && text[q + 1] == '/' {
      q := SkipLineComment(text, q);
    }
  }

  /** The whitespace loop of one pass (src/brainfork.c:194-197). */
  method SkipSpaces(text: seq<char>, p: nat) returns (q: nat)
    requires IsCString(text) && p < |text|
    ensures q == SkipWhitespace(text, p)
  {
    q := p;
    if IsWhitespace(text[q]) {
      q := q + 1;
      while IsWhitespace(text[q])
        invariant p < q < |text|
        invariant SkipWhitespace(text, q) == SkipWhitespace(text, p)
        decreases |text| - q
      {
        q := q + 1;
      }
    }
  }

  /** The comment of one pass and the newline that ends it (src/brainfork.c:198-203). */
  method SkipLineComment(text: seq<char>, w: nat) returns (q: nat)
    requires IsCString(text) && w < |text| && AtComment(text, w)
    ensures q == SkipComment(text, w)
  {
    q := w + 2;
    while !IsEndComment(text[q])
      invariant w + 2 <= q < |text|
      invariant SkipToLineEnd(text, q) == SkipToLineEnd(text, w + 2)
      decreases |text| - q
    {
      q := q + 1;
    }
    if text[q] == '\n' {
      q := q + 1;
    }
  }

  /**
   * The rest of one pass (src/brainfork.c:207-284), on the character `c` found
   * at `q`: flush a run, extend one, or dispatch a symbol, storing what it
   * emits. `ok` is false where the source reports an error.
   */
  method Dispatched(loopStack: LoopStack<Instruction>, buffer: array<Instruction>, size: nat,
                    inc: int, mov: int, q: nat, c: char, ghost st: ParseState)
    returns (ok: bool, buffer': array<Instruction>, size': nat, inc': int, mov': int, p': nat)
    requires loopStack.Valid() && 0 < buffer.Length && size <= buffer.Length
    requires buffer != loopStack.stack
    requires st.inc == inc && st.mov == mov && st.out == buffer[..size]
    requires loopStack.Contents() == AsOpens(st.stack)
    requires Dispatch(st, q, c).Next? ==> |Dispatch(st, q, c).state.stack| <= loopStack.stack.Length
    modifies loopStack`pointer, loopStack.stack, buffer
    ensures ok <==> Dispatch(st, q, c).Next?
    ensures loopStack.stack == old(loopStack.stack) && loopStack.Valid()
    ensures buffer' == buffer || fresh(buffer')
    ensures buffer'.Length == buffer.Length || buffer'.Length == 2 * buffer.Length
    ensures buffer' != loopStack.stack && size' <= buffer'.Length
    ensures ok ==>
      var next := Dispatch(st, q, c).state;
      && next == ParseState(p', inc', mov', next.stack, buffer'[..size'])
      && loopStack.Contents() == AsOpens(next.stack)
  {
    buffer', size', inc', mov' := buffer, size, inc, mov;
    ok := true;
    var emit := false;
    var instruction := Print;
    if inc != 0 && c != '+' && c != '-' {
      emit, instruction := true, Write(inc);
      inc' := 0;
      p' := q;
    } else if mov != 0 && c != '<' && c != '>' {
      emit, instruction := true, Shift(mov);
      mov' := 0;
      p' := q;
    } else if c == '\0' {
      p' := q;
    } else if c == '+' {
      inc' := inc + 1;
      p' := q + 1;
    } else if c == '-' {
      inc' := inc - 1;
      p' := q + 1;
    } else if c == '[' {
      emit, instruction := true, BracketOpen(size);
      loopStack.Push(instruction);
      p' := q + 1;
    } else if c == ']' {
      if loopStack.pointer == 0 {
        return false, buffer, size, inc, mov, q;
      }
      var i := loopStack.Pop();
      emit, instruction := true, BracketClosed(i.position);
      p' := q + 1;
    } else if c == '.' {
      emit, instruction := true, Print;
      p' := q + 1;
    } else if c == '>' {
      mov' := mov + 1;
      p' := q + 1;
    } else if c == '<' {
      mov' := mov - 1;
      p' := q + 1;
    } else {
      return false, buffer, size, inc, mov, q;
    }
    if emit {
      buffer', size' := PushInstruction(buffer, size, instruction);
    }
  }

  /** The loop goes on from the state a pass reaches, or stops with the pass's error. */
  lemma ParseLoopUnfold(text: seq<char>, st: ParseState)
    requires IsCString(text) && st.pos < |text| && text[st.pos] != '\0'
    ensures Iterate(text, st).Fail? ==> ParseLoop(text, st).Err?
    ensures Iterate(text, st).Next? ==> ParseLoop(text, st) == ParseLoop(text, Iterate(text, st).state)
  {
  }

  /**
   * The loop's variables agree with the state `st`: the real loop stack
   * holds the pending opens, the buffer the stored instructions.
   */
  ghost predicate Tracks(text: seq<char>, st: ParseState, loopStack: LoopStack<Instruction>,
                         buffer: array<Instruction>, size: nat)
    reads loopStack, loopStack.stack, buffer
  {
    && IsCString(text) && Bounded(text, st)
    && loopStack.Valid() && loopStack.stack.Length == StrLen(text)
    && loopStack.Contents() == AsOpens(st.stack)
    && 0 < buffer.Length && size <= buffer.Length && buffer != loopStack.stack
    && st.out == buffer[..size]
  }

  /**
   * One pass of the `while` body (src/brainfork.c:190-284): the skips, then
   * the dispatch. `ok` is false where the source reports an error.
   */
  method Pass(text: seq<char>, loopStack: LoopStack<Instruction>, buffer: array<Instruction>, size: nat,
              inc: int, mov: int, p: nat, ghost st: ParseState, ghost growths: nat)
    returns (ok: bool, buffer': array<Instruction>, size': nat, inc': int, mov': int, p': nat, ghost growths': nat)
    requires Tracks(text, st, loopStack, buffer, size)
    requires buffer.Length == Capacity(growths)
    requires st.pos == p && st.inc == inc && st.mov == mov && text[p] != '\0'
    modifies loopStack`pointer, loopStack.stack, buffer
    ensures ok <==> Iterate(text, st).Next?
    ensures loopStack.stack == old(loopStack.stack) && loopStack.Valid() && buffer' != loopStack.stack
    ensures buffer' == buffer || fresh(buffer')
    ensures buffer'.Length == Capacity(growths')
    ensures ok ==>
      var next := Iterate(text, st).state;
      && next.pos == p' && next.inc == inc' && next.mov == mov'
      && Tracks(text, next, loopStack, buffer', size')
  {
    IterateBounded(text, st);
    var q := SkipBlanks(text, p);
    assert Iterate(text, st) == Dispatch(st, q, text[q]);
    ok, buffer', size', inc', mov', p' := Dispatched(loopStack, buffer, size, inc, mov, q, text[q], st);
    growths' := if buffer'.Length == buffer.Length then growths else growths + 1;
  }

  /**
   * The `while (*program_content)` loop of `parse_instructions`, from the
   * initial state to the terminator or to the first error.
   */
  method LexLoop(text: seq<char>, loopStack: LoopStack<Instruction>, initial: array<Instruction>)
    returns (ok: bool, buffer: array<Instruction>, size: nat, ghost st: ParseState, ghost growths: nat)
    requires IsCString(text) && initial.Length == BufferInitialCap
    requires loopStack.Valid() && loopStack.stack.Length == StrLen(text) && loopStack.Contents() == []
    requires initial != loopStack.stack
    modifies loopStack`pointer, loopStack.stack, initial
    ensures loopStack.Valid() && buffer != loopStack.stack
    ensures buffer == initial || fresh(buffer)
    ensures !ok ==> Parse(text).Err?
    ensures ok ==>
      && st.pos < |text| && text[st.pos] == '\0'
      && ParseLoop(text, st) == Parse(text)
      && size <= buffer.Length && st.out == buffer[..size]
      && loopStack.Contents() == AsOpens(st.stack)
      && buffer.Length == Capacity(growths)
  {
    buffer, size := initial, 0;
    growths := 0;
    var p: nat := 0;
    var movAccumulator := 0;
    var incAccumulator := 0;
    st := InitialState;

    while text[p] != '\0'
      invariant Tracks(text, st, loopStack, buffer, size)
      invariant st.pos == p && st.inc == incAccumulator && st.mov == movAccumulator
      invariant buffer.Length == Capacity(growths)
      invariant ParseLoop(text, st) == Parse(text)
      invariant loopStack.stack == old(loopStack.stack)
      invariant buffer == initial || fresh(buffer)
      decreases |text| - p, Pending(st)
    {
      ghost var st0 := st;
      var ok := false;
      ok, buffer, size, incAccumulator, movAccumulator, p, growths :=
        Pass(text, loopStack, buffer, size, incAccumulator, movAccumulator, p, st0, growths);
      ParseLoopUnfold(text, st0);
      if !ok {
        return false, buffer, size, st, growths;
      }
      st := Iterate(text, st0).state;
    }
    ok := true;
  }

  /**
   * `parse_instructions`: NULL (here `null`) on an error, otherwise the buffer
   * and, in `len`, the number of instructions stored in it. The loop stack is
   * given `strlen` entries, enough by `IterateBounded`.
   */
  method ParseInstructions(programContent: seq<char>) returns (instructions: array?<Instruction>, len: nat)
    requires IsCString(programContent)
    ensures instructions == null <==> Parse(programContent).Err?
    ensures instructions != null ==>
      && fresh(instructions)
      && len <= instructions.Length
      && instructions[..len] == Parse(programContent).value
      && exists k: nat :: instructions.Length == Capacity(k)
  {
    var loopStack := new LoopStack<Instruction>(StrLen(programContent));
    var initial := new Instruction[BufferInitialCap];
    var ok, buffer, size, st, growths := LexLoop(programContent, loopStack, initial);
    if !ok {
      return null, 0;
    }
    assert ParseLoop(programContent, st) == Finish(st);
    assert |st.stack| == |loopStack.Contents()| == loopStack.pointer;
    if loopStack.pointer != 0 {
      return null, 0;
    }
    return buffer, size;
  }
}
