/**
 * The lexer of the older pipeline, `parse_to_instructions` in src/Brainfork.c
 * (lines 144-206). It does not fold: every command character becomes one
 * instruction, every other character is skipped, and an
 * `OP_PROGRAM_TERMINATE` closes the buffer. A close with no pending open
 * ends the program with an error; an open still pending at the end is
 * accepted. The file is modelled as the characters `fgetc` returns.
 */
module LegacyLexer {
  import I = Instructions
  import opened LoopStacks

  /** The operations of src/instructions.h, with the `OP_PROGRAM_TERMINATE` src/Brainfork.c:200 uses. */
  datatype Op = Increment | Decrement | Open | Close | Print | MoveRight | MoveLeft | Terminate

  /**
   * An instruction: its operation, the character it was read from, and the
   * union `_position`/`_point_to` (one word): an open's own index, a
   * close's open, zero for the rest.
   */
  datatype Instr = Instr(op: Op, ch: char, link: nat)

  /** The operation a character stands for, if it is a command (src/Brainfork.c:157-188). */
  function OpOf(c: char): (r: I.Option<Op>)
    ensures r.Some? ==> r.value != Terminate
  {
    match c
    case '+' => I.Some(Increment)
    case '-' => I.Some(Decrement)
    case '[' => I.Some(Open)
    case ']' => I.Some(Close)
    case '.' => I.Some(Print)
    case '>' => I.Some(MoveRight)
    case '<' => I.Some(MoveLeft)
    case _ => I.None
  }

  /** What the loop holds: the indices of the pending opens, and the instructions written so far. */
  datatype LexState = LexState(stack: seq<nat>, out: seq<Instr>)

  /** The entries `loop_stack` holds for pending opens: whole copies of the open instructions. */
  function AsOpenInstrs(stack: seq<nat>): (r: seq<Instr>)
    ensures |r| == |stack|
    ensures forall k :: 0 <= k < |stack| ==> r[k] == Instr(Open, '[', stack[k])
  {
    seq(|stack|, k requires 0 <= k < |stack| => Instr(Open, '[', stack[k]))
  }

  /** One pass of the `fgetc` loop; `stats.no_instructions` is the length of what is written. */
  function LexStep(st: LexState, c: char): I.Result<LexState>
  {
    match OpOf(c)
    case None => I.Ok(st)
    case Some(op) =>
      if op == Open then
        I.Ok(LexState(st.stack + [|st.out|], st.out + [Instr(Open, c, |st.out|)]))
      else if op == Close then
        if |st.stack| == 0 then I.Err(I.UnmatchedClose)
        else I.Ok(LexState(st.stack[..|st.stack| - 1], st.out + [Instr(Close, c, st.stack[|st.stack| - 1])]))
      else
        I.Ok(LexState(st.stack, st.out + [Instr(op, c, 0)]))
  }

  /** The state after the loop has read `text`. */
  function LexPrefix(text: seq<char>): I.Result<LexState>
    decreases |text|
  {
    if |text| == 0 then I.Ok(LexState([], []))
    else
      match LexPrefix(text[..|text| - 1])
      case Err(e) => I.Err(e)
      case Ok(st) => LexStep(st, text[|text| - 1])
  }

  const TerminateInstr := Instr(Terminate, '\0', 0)

  /** What `parse_to_instructions` leaves in the buffer, or the error it exits with. */
  function Lex(text: seq<char>): I.Result<seq<Instr>>
  {
    match LexPrefix(text)
    case Err(e) => I.Err(e)
    case Ok(st) => I.Ok(st.out + [TerminateInstr])
  }

  // ---------------------------------------------------------------------
  // A description of the result that does not follow the loop

  /** The command characters of `text`, in order. */
  function Commands(text: seq<char>): (r: seq<char>)
    ensures |r| <= |text|
    decreases |text|
  {
    if |text| == 0 then []
    else Commands(text[..|text| - 1]) + (if OpOf(text[|text| - 1]).Some? then [text[|text| - 1]] else [])
  }

  /** Opens minus closes in `text`. */
  function Balance(text: seq<char>): int
    decreases |text|
  {
    if |text| == 0 then 0
    else Balance(text[..|text| - 1]) + (if text[|text| - 1] == '[' then 1 else if text[|text| - 1] == ']' then -1 else 0)
  }

  /** No prefix of `text` closes more than it opened. */
  predicate NeverNegative(text: seq<char>)
  {
    forall i :: 0 <= i <= |text| ==> Balance(text[..i]) >= 0
  }

  /** The buffer holds one instruction per command character read so far, with that character. */
  predicate Transcribes(out: seq<Instr>, commands: seq<char>)
  {
    && |out| == |commands|
    && forall k :: 0 <= k < |out| ==> out[k].ch == commands[k] && OpOf(commands[k]) == I.Some(out[k].op)
  }

  /** Indices of the opens of `out` that no later close has taken, innermost last. */
  function PendingOpens(out: seq<Instr>): seq<nat>
    decreases |out|
  {
    if |out| == 0 then []
    else
      var s := PendingOpens(out[..|out| - 1]);
      match out[|out| - 1].op
      case Open => s + [|out| - 1]
      case Close => if |s| == 0 then [] else s[..|s| - 1]
      case _ => s
  }

  /**
   * The link of instruction `k`, judged by what precedes it: an open stores
   * its own index, a close the innermost open still pending before it, the
   * rest zero.
   */
  predicate LinkedAt(out: seq<Instr>, k: nat)
    requires k < |out|
  {
    match out[k].op
    case Open => out[k].link == k
    case Close =>
      var pending := PendingOpens(out[..k]);
      |pending| > 0 && out[k].link == pending[|pending| - 1]
    case _ => out[k].link == 0
  }

  predicate Linked(out: seq<Instr>)
  {
    forall k :: 0 <= k < |out| ==> LinkedAt(out, k)
  }

  /** The loop stack holds exactly the pending opens of the buffer. */
  predicate StackOfOpens(st: LexState)
  {
    st.stack == PendingOpens(st.out)
  }

  /** `s` lists, in increasing order, indices of opens of `out`. */
  predicate OpenIndices(out: seq<Instr>, s: seq<nat>)
  {
    && (forall i :: 0 <= i < |s| ==> s[i] < |out| && out[s[i]].op == Open)
    && (forall i, j :: 0 <= i < j < |s| ==> s[i] < s[j])
  }

  /** The pending opens are increasing indices of opens. */
  lemma {:induction false} PendingOpensAreOpens(out: seq<Instr>)
    ensures OpenIndices(out, PendingOpens(out))
    decreases |out|
  {
    if |out| > 0 {
      var front := out[..|out| - 1];
      PendingOpensAreOpens(front);
      var s := PendingOpens(front);
      assert OpenIndices(out, s) by {
        forall i | 0 <= i < |s|
          ensures s[i] < |out| && out[s[i]].op == Open
        {
          assert out[s[i]] == front[s[i]];
        }
      }
    }
  }

  /** So a linked close jumps back to an open. */
  lemma LinksPointBack(out: seq<Instr>)
    requires Linked(out)
    ensures forall k :: 0 <= k < |out| && out[k].op == Close ==> out[k].link < k && out[out[k].link].op == Open
  {
    forall k | 0 <= k < |out| && out[k].op == Close
      ensures out[k].link < k && out[out[k].link].op == Open
    {
      assert LinkedAt(out, k);
      PendingOpensAreOpens(out[..k]);
      var pending := PendingOpens(out[..k]);
      var j := pending[|pending| - 1];
      assert j < k && out[..k][j].op == Open;
      assert out[..k][j] == out[j];
    }
  }

  /** How one character moves `Balance`. */
  function BalanceChange(c: char): int
  {
    if c == '[' then 1 else if c == ']' then -1 else 0
  }

  /** The commands one character adds. */
  function CommandOf(c: char): seq<char>
  {
    if OpOf(c).Some? then [c] else []
  }

  lemma LinkedStep(st: LexState, c: char)
    requires Linked(st.out) && StackOfOpens(st) && LexStep(st, c).Ok?
    ensures Linked(LexStep(st, c).value.out)
  {
    var next := LexStep(st, c).value;
    forall k | 0 <= k < |next.out|
      ensures LinkedAt(next.out, k)
    {
      assert next.out[..k] == st.out[..k] by {
        assert next.out[..|st.out|] == st.out;
      }
      if k < |st.out| {
        assert next.out[k] == st.out[k];
        assert LinkedAt(st.out, k);
      }
    }
  }

  lemma StackStep(st: LexState, c: char)
    requires StackOfOpens(st) && LexStep(st, c).Ok?
    ensures StackOfOpens(LexStep(st, c).value)
    ensures |LexStep(st, c).value.stack| == |st.stack| + BalanceChange(c)
  {
    var next := LexStep(st, c).value;
    if next.out != st.out {
      assert next.out[..|next.out| - 1] == st.out;
    }
  }

  lemma TranscribesStep(st: LexState, c: char, commands: seq<char>)
    requires Transcribes(st.out, commands) && LexStep(st, c).Ok?
    ensures Transcribes(LexStep(st, c).value.out, commands + CommandOf(c))
  {
    var next := LexStep(st, c).value;
    forall k | 0 <= k < |st.out|
      ensures next.out[k] == st.out[k]
    {
    }
  }

  lemma NeverNegativeStep(text: seq<char>)
    requires |text| > 0 && NeverNegative(text[..|text| - 1]) && Balance(text) >= 0
    ensures NeverNegative(text)
  {
    var front := text[..|text| - 1];
    forall i | 0 <= i <= |text|
      ensures Balance(text[..i]) >= 0
    {
      if i < |text| {
        assert text[..i] == front[..i];
      } else {
        assert text[..i] == text;
      }
    }
  }

  /**
   * While the loop runs without error it has transcribed every command read,
   * linked every bracket, and holds exactly `Balance` pending opens.
   */
  lemma {:induction false} LexPrefixInvariant(text: seq<char>)
    requires LexPrefix(text).Ok?
    ensures var st := LexPrefix(text).value;
      && Transcribes(st.out, Commands(text)) && Linked(st.out) && StackOfOpens(st)
      && |st.stack| == Balance(text) && NeverNegative(text)
    decreases |text|
  {
    if |text| > 0 {
      var front := text[..|text| - 1];
      var c := text[|text| - 1];
      LexPrefixInvariant(front);
      var st := LexPrefix(front).value;
      assert LexPrefix(text) == LexStep(st, c);
      LinkedStep(st, c);
      StackStep(st, c);
      TranscribesStep(st, c, Commands(front));
      assert Commands(text) == Commands(front) + CommandOf(c);
      assert Balance(text) == Balance(front) + BalanceChange(c);
      NeverNegativeStep(text);
    } else {
      forall i | 0 <= i <= |text|
        ensures Balance(text[..i]) >= 0
      {
        assert text[..i] == [];
      }
    }
  }

  /** An error, once reported, is the result of every longer text. */
  lemma {:induction false} ErrorPersists(text: seq<char>, i: nat)
    requires i <= |text| && LexPrefix(text[..i]).Err?
    ensures LexPrefix(text).Err?
    decreases |text| - i
  {
    if i < |text| {
      assert text[..i + 1][..i] == text[..i];
      ErrorPersists(text, i + 1);
    } else {
      assert text[..i] == text;
    }
  }

  /**
   * The lexer fails exactly when some prefix of the file closes more
   * brackets than it opened: a misplaced character, a stray `[` left open,
   * or anything else never stops it.
   */
  lemma {:induction false} LexFailsIffUnderflow(text: seq<char>)
    ensures Lex(text).Err? <==> !NeverNegative(text)
    ensures Lex(text).Err? ==> Lex(text).error == I.UnmatchedClose
    decreases |text|
  {
    if LexPrefix(text).Ok? {
      LexPrefixInvariant(text);
    } else {
      UnderflowWitness(text);
    }
  }

  lemma {:induction false} UnderflowWitness(text: seq<char>)
    requires LexPrefix(text).Err?
    ensures !NeverNegative(text) && LexPrefix(text).error == I.UnmatchedClose
    decreases |text|
  {
    var front := text[..|text| - 1];
    if LexPrefix(front).Err? {
      UnderflowWitness(front);
      var i :| 0 <= i <= |front| && Balance(front[..i]) < 0;
      assert text[..i] == front[..i];
    } else {
      LexPrefixInvariant(front);
      assert text[..|text|] == text;
    }
  }

  /**
   * On success the buffer is one instruction per command character, in
   * order and carrying it, every bracket linked, then the terminator;
   * `stats.no_instructions` is that count, at most `file_length + 1`, the
   * size `main` allocates (src/Brainfork.c:395).
   */
  lemma LexResult(text: seq<char>)
    requires Lex(text).Ok?
    ensures var out := Lex(text).value;
      && |out| == |Commands(text)| + 1 <= |text| + 1
      && Transcribes(out[..|out| - 1], Commands(text)) && Linked(out[..|out| - 1])
      && out[|out| - 1] == TerminateInstr
  {
    LexPrefixInvariant(text);
    var out := Lex(text).value;
    assert out[..|out| - 1] == LexPrefix(text).value.out;
  }

  /** Reading one more character is one more `LexStep`. */
  lemma LexPrefixSnoc(text: seq<char>, c: char)
    ensures LexPrefix(text + [c]) == match LexPrefix(text)
      case Err(e) => I.Err(e)
      case Ok(st) => LexStep(st, c)
  {
    assert (text + [c])[..|text|] == text;
  }

  /** A `[` pushes its own index. */
  lemma OpenStep(st: LexState)
    ensures LexStep(st, '[') == I.Ok(LexState(st.stack + [|st.out|], st.out + [Instr(Open, '[', |st.out|)]))
  {
    assert OpOf('[') == I.Some(Open);
  }

  /** A `]` pops the innermost pending open into its link. */
  lemma CloseStep(st: LexState)
    requires |st.stack| > 0
    ensures LexStep(st, ']') ==
      I.Ok(LexState(st.stack[..|st.stack| - 1], st.out + [Instr(Close, ']', st.stack[|st.stack| - 1])]))
  {
    assert OpOf(']') == I.Some(Close);
  }

  /** `[[` leaves both opens pending. */
  lemma TwoOpensPending()
    ensures LexPrefix("[[") == I.Ok(LexState([0, 1], [Instr(Open, '[', 0), Instr(Open, '[', 1)]))
  {
    var s0 := LexState([], []);
    var s1 := LexState([0], [Instr(Open, '[', 0)]);
    OpenStep(s0);
    assert s0.stack + [0] == s1.stack && s0.out + [Instr(Open, '[', 0)] == s1.out;
    OpenStep(s1);
    assert s1.stack + [1] == [0, 1] && s1.out + [Instr(Open, '[', 1)] == [Instr(Open, '[', 0), Instr(Open, '[', 1)];
    assert LexPrefix("") == I.Ok(s0);
    LexPrefixSnoc("", '[');
    assert "" + ['['] == "[";
    LexPrefixSnoc("[", '[');
    assert "[" + ['['] == "[[";
  }

  /** In `[[]]` the first close takes the inner open, the second the outer one. */
  lemma NestedClosesTakeInnermost()
    ensures Lex("[[]]") == I.Ok([Instr(Open, '[', 0), Instr(Open, '[', 1), Instr(Close, ']', 1),
                                 Instr(Close, ']', 0), TerminateInstr])
  {
    var o0, o1 := Instr(Open, '[', 0), Instr(Open, '[', 1);
    var c1, c0 := Instr(Close, ']', 1), Instr(Close, ']', 0);
    var s2 := LexState([0, 1], [o0, o1]);
    var s3 := LexState([0], [o0, o1, c1]);
    var s4 := LexState([], [o0, o1, c1, c0]);
    TwoOpensPending();
    CloseStep(s2);
    assert s2.stack[..1] == s3.stack && s2.out + [c1] == s3.out;
    CloseStep(s3);
    assert s3.stack[..0] == s4.stack && s3.out + [c0] == s4.out;
    LexPrefixSnoc("[[", ']');
    assert "[[" + [']'] == "[[]";
    LexPrefixSnoc("[[]", ']');
    assert "[[]" + [']'] == "[[]]";
    assert s4.out + [TerminateInstr] == [o0, o1, c1, c0, TerminateInstr];
  }

  // ---------------------------------------------------------------------
  // The loop stack's capacity

  /** Entries `allocate_loop_stack(&loop_stack, file_length / 2 + 1)` makes room for (src/Brainfork.c:146). */
  function AsWrittenStackEntries(fileLength: nat): nat
  {
    fileLength / 2 + 1
  }

  /** Three opens in a three-byte file are three pending entries on a stack with room for two. */
  lemma TripleOpenOverflowsStack()
    ensures AsWrittenStackEntries(|"[[["|) == 2
    ensures LexPrefix("[[[").Ok? && |LexPrefix("[[[").value.stack| == 3
  {
    LexPrefixInvariant("[[[");
    assert "[[["[..2] == "[[";
    assert "[["[..1] == "[";
    assert "["[..0] == "";
  }

  /** The pending opens never outnumber the characters read, so a stack of `file_length` entries suffices. */
  lemma {:induction false} PendingWithinLength(text: seq<char>)
    requires LexPrefix(text).Ok?
    ensures |LexPrefix(text).value.stack| <= |text|
    ensures |LexPrefix(text).value.out| <= |text|
    decreases |text|
  {
    if |text| > 0 {
      PendingWithinLength(text[..|text| - 1]);
    }
  }

  /** A stray `[` is kept and terminated like any other program. */
  lemma UnmatchedOpenAccepted()
    ensures Lex("[") == I.Ok([Instr(Open, '[', 0), TerminateInstr])
  {
    assert "["[..0] == "";
    assert LexPrefix("") == I.Ok(LexState([], []));
    assert OpOf('[') == I.Some(Open);
    var r := LexStep(LexState([], []), '[');
    assert r.Ok?;
    assert r.value.stack == [0];
    assert r.value.out == [Instr(Open, '[', 0)];
    assert LexPrefix("[") == r;
    assert [Instr(Open, '[', 0)] + [TerminateInstr] == [Instr(Open, '[', 0), TerminateInstr];
    assert LexPrefix("[") == I.Ok(LexState([0], [Instr(Open, '[', 0)]));
  }

  // ---------------------------------------------------------------------
  // The code

  /**
   * `parse_to_instructions`, with `stats.no_instructions` zero on entry (it is
   * called once) and returned. `ok` is false where the source exits with
   * "Misaligned loop brackets". The stack gets room for `file_length`
   * entries, not `file_length / 2 + 1`.
   */
  method ParseToInstructions(text: seq<char>, buffer: array<Instr>) returns (ok: bool, noInstructions: nat)
    requires buffer.Length == |text| + 1
    modifies buffer
    ensures ok <==> Lex(text).Ok?
    ensures ok ==> noInstructions <= buffer.Length && buffer[..noInstructions] == Lex(text).value
  {
    var loopStack := new LoopStack<Instr>(|text|);
    noInstructions := 0;
    var i := 0;
    ghost var stack: seq<nat> := [];
    assert text[..0] == [];
    while i < |text|
      invariant i <= |text| && noInstructions <= i
      invariant LexPrefix(text[..i]) == I.Ok(LexState(stack, buffer[..noInstructions]))
      invariant loopStack.Valid() && loopStack.stack.Length == |text|
      invariant loopStack.Contents() == AsOpenInstrs(stack)
      invariant fresh(loopStack) && fresh(loopStack.stack)
    {
      if LexPrefix(text[..i + 1]).Ok? {
        PendingWithinLength(text[..i + 1]);
      }
      ok, noInstructions, stack := LexCharacter(text, i, buffer, noInstructions, loopStack, stack);
      if !ok {
        ErrorPersists(text, i + 1);
        return false, noInstructions;
      }
      i := i + 1;
    }
    assert text[..i] == text;
    buffer[noInstructions] := TerminateInstr;
    noInstructions := noInstructions + 1;
    ok := true;
  }

  /** One pass of the `fgetc` loop. */
  method LexCharacter(text: seq<char>, i: nat, buffer: array<Instr>, count: nat, loopStack: LoopStack<Instr>, ghost stack: seq<nat>)
    returns (ok: bool, count': nat, ghost stack': seq<nat>)
    requires i < |text| && count <= i && buffer.Length == |text| + 1
    requires LexPrefix(text[..i]) == I.Ok(LexState(stack, buffer[..count]))
    requires loopStack.Valid() && loopStack.stack.Length == |text| && loopStack.stack != buffer
    requires loopStack.Contents() == AsOpenInstrs(stack)
    requires LexPrefix(text[..i + 1]).Ok? ==> |LexPrefix(text[..i + 1]).value.stack| <= |text|
    modifies buffer, loopStack`pointer, loopStack.stack
    ensures ok <==> LexPrefix(text[..i + 1]).Ok?
    ensures loopStack.stack == old(loopStack.stack) && loopStack.Valid()
    ensures ok ==> (count' <= i + 1
      && LexPrefix(text[..i + 1]) == I.Ok(LexState(stack', buffer[..count']))
      && loopStack.Contents() == AsOpenInstrs(stack'))
  {
    assert text[..i + 1][..i] == text[..i];
    var c := text[i];
    var st := LexState(stack, buffer[..count]);
    assert LexPrefix(text[..i + 1]) == LexStep(st, c);
    var instruction := Instr(Print, c, 0);
    match OpOf(c) {
      case None =>
        return true, count, stack;
      case Some(op) =>
        if op == Open {
          instruction := Instr(Open, c, count);
          loopStack.Push(instruction);
          stack' := stack + [count];
        } else if op == Close {
          if loopStack.pointer == 0 {
            return false, count, stack;
          }
          var top := loopStack.Pop();
          instruction := Instr(Close, c, top.link);
          stack' := stack[..|stack| - 1];
        } else {
          instruction := Instr(op, c, 0);
          stack' := stack;
        }
    }
    ghost var written := buffer[..count];
    buffer[count] := instruction;
    count' := count + 1;
    assert buffer[..count'] == written + [instruction];
    ok := true;
  }
}
