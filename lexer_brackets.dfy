/**
 * What the bracket resolution of `parse_instructions` guarantees about the
 * buffer it returns (src/brainfork.c:236-252, 288-297): every
 * `OP_BRACKET_CLOSED` points at the most recent still-unmatched open, that
 * open stores its own index, every open is closed later, and folded payloads
 * are never zero.
 */
module Brackets {
  import opened Instructions
  import opened Lexer

  /** Indices of the opens of `prog` not yet closed, innermost last. */
  function OpenPositions(prog: seq<Instruction>): seq<nat>
    decreases |prog|
  {
    if |prog| == 0 then []
    else
      var s := OpenPositions(prog[..|prog| - 1]);
      match prog[|prog| - 1]
      case BracketOpen(_) => s + [|prog| - 1]
      case BracketClosed(_) => if |s| == 0 then [] else s[..|s| - 1]
      case _ => s
  }

  /** Instruction `i` is as the resolver leaves it, judged by what precedes it. */
  predicate ResolvedAt(prog: seq<Instruction>, i: nat)
    requires i < |prog|
  {
    match prog[i]
    case Write(n) => n != 0
    case Shift(n) => n != 0
    case BracketOpen(p) => p == i
    case BracketClosed(t) =>
      var open := OpenPositions(prog[..i]);
      |open| > 0 && t == open[|open| - 1]
    case Print => true
  }

  predicate Resolved(prog: seq<Instruction>)
  {
    forall i :: 0 <= i < |prog| ==> ResolvedAt(prog, i)
  }

  /** A buffer `parse_instructions` can return: resolved, and no open left pending. */
  predicate WellFormed(prog: seq<Instruction>)
  {
    Resolved(prog) && OpenPositions(prog) == []
  }

  /** What the lexer keeps true while it runs: its stack is the pending opens of what it stored. */
  predicate Consistent(st: ParseState)
  {
    Resolved(st.out) && st.stack == OpenPositions(st.out)
  }

  lemma ResolvedAtPrefix(prog: seq<Instruction>, x: Instruction, i: nat)
    requires i < |prog|
    ensures ResolvedAt(prog + [x], i) == ResolvedAt(prog, i)
  {
    assert (prog + [x])[..i] == prog[..i];
  }

  lemma ResolvedExtend(prog: seq<Instruction>, x: Instruction)
    requires Resolved(prog) && ResolvedAt(prog + [x], |prog|)
    ensures Resolved(prog + [x])
  {
    forall i | 0 <= i < |prog| + 1
      ensures ResolvedAt(prog + [x], i)
    {
      if i < |prog| {
        ResolvedAtPrefix(prog, x, i);
      }
    }
  }

  /** Storing `x` keeps the lexer consistent when `x` is resolved where it lands. */
  lemma StoreConsistent(st: ParseState, next: ParseState, x: Instruction)
    requires Consistent(st) && next.out == st.out + [x]
    requires ResolvedAt(next.out, |st.out|)
    requires next.stack == match x
      case BracketOpen(_) => st.stack + [|st.out|]
      case BracketClosed(_) => st.stack[..|st.stack| - 1]
      case _ => st.stack
    requires x.BracketClosed? ==> |st.stack| > 0
    ensures Consistent(next)
  {
    assert next.out[..|st.out|] == st.out;
    ResolvedExtend(st.out, x);
  }

  /** One pass of the loop keeps the lexer consistent. */
  lemma DispatchConsistent(st: ParseState, p: nat, c: char)
    requires Consistent(st) && Dispatch(st, p, c).Next?
    ensures Consistent(Dispatch(st, p, c).state)
  {
    var next := Dispatch(st, p, c).state;
    if st.inc != 0 && !IsAdditive(c) {
      StoreConsistent(st, next, Write(st.inc));
    } else if st.mov != 0 && !IsShiftChar(c) {
      StoreConsistent(st, next, Shift(st.mov));
    } else if c == '[' {
      assert next.out[..|st.out|] == st.out;
      StoreConsistent(st, next, BracketOpen(|st.out|));
    } else if c == ']' {
      assert next.out[..|st.out|] == st.out;
      StoreConsistent(st, next, BracketClosed(st.stack[|st.stack| - 1]));
    } else if c == '.' {
      StoreConsistent(st, next, Print);
    }
  }

  lemma {:induction false} ParseLoopWellFormed(text: seq<char>, st: ParseState)
    requires IsCString(text) && st.pos < |text| && Consistent(st)
    requires ParseLoop(text, st).Ok?
    ensures WellFormed(ParseLoop(text, st).value)
    decreases |text| - st.pos, Pending(st)
  {
    if text[st.pos] != '\0' {
      var p := SkipBlank(text, st.pos);
      DispatchConsistent(st, p, text[p]);
      ParseLoopWellFormed(text, Iterate(text, st).state);
    }
  }

  /** Every buffer `parse_instructions` returns is well formed. */
  lemma ParseWellFormed(text: seq<char>)
    requires IsCString(text) && Parse(text).Ok?
    ensures WellFormed(Parse(text).value)
  {
    ParseLoopWellFormed(text, InitialState);
  }

  /** The pending opens of a resolved buffer are earlier indices holding opens that store themselves. */
  lemma {:induction false} OpenPositionsAreOpens(prog: seq<Instruction>)
    requires Resolved(prog)
    ensures forall k :: 0 <= k < |OpenPositions(prog)| ==>
      OpenPositions(prog)[k] < |prog| && prog[OpenPositions(prog)[k]] == BracketOpen(OpenPositions(prog)[k])
    decreases |prog|
  {
    if |prog| > 0 {
      var front := prog[..|prog| - 1];
      forall i | 0 <= i < |front|
        ensures ResolvedAt(front, i)
      {
        assert front[..i] == prog[..i];
        assert ResolvedAt(prog, i);
      }
      OpenPositionsAreOpens(front);
      assert ResolvedAt(prog, |prog| - 1);
    }
  }

  /**
   * A close in a well-formed buffer jumps back to an earlier open whose own
   * field is that same index.
   */
  lemma CloseTargetsOpen(prog: seq<Instruction>, i: nat)
    requires WellFormed(prog) && i < |prog| && prog[i].BracketClosed?
    ensures prog[i].pointTo < i
    ensures prog[prog[i].pointTo] == BracketOpen(prog[i].pointTo)
  {
    var front := prog[..i];
    forall j | 0 <= j < |front|
      ensures ResolvedAt(front, j)
    {
      assert front[..j] == prog[..j];
      assert ResolvedAt(prog, j);
    }
    OpenPositionsAreOpens(front);
    assert ResolvedAt(prog, i);
  }

  /** An open pending after `m` instructions and gone after `n` was closed in between. */
  lemma {:induction false} ClosedBetween(prog: seq<Instruction>, o: nat, m: nat, n: nat)
    requires Resolved(prog) && m <= n <= |prog|
    requires o in OpenPositions(prog[..m]) && o !in OpenPositions(prog[..n])
    ensures exists j :: m <= j < n && prog[j] == BracketClosed(o)
    decreases n - m
  {
    assert m < n;
    assert prog[..m + 1][..m] == prog[..m];
    if o in OpenPositions(prog[..m + 1]) {
      ClosedBetween(prog, o, m + 1, n);
    } else {
      var s := OpenPositions(prog[..m]);
      assert ResolvedAt(prog, m);
      match prog[m]
      case BracketClosed(t) =>
        assert s == s[..|s| - 1] + [s[|s| - 1]];
      case BracketOpen(_) =>
        assert false;
      case Write(_) =>
        assert false;
      case Shift(_) =>
        assert false;
      case Print =>
        assert false;
    }
  }

  /**
   * The reciprocal link the instruction format leaves out: in a well-formed
   * buffer every open is closed by a later `OP_BRACKET_CLOSED` pointing to it.
   */
  lemma EveryOpenCloses(prog: seq<Instruction>, i: nat)
    requires WellFormed(prog) && i < |prog| && prog[i].BracketOpen?
    ensures exists j :: i < j < |prog| && prog[j] == BracketClosed(i)
  {
    assert prog[..i + 1][..i] == prog[..i];
    assert ResolvedAt(prog, i);
    assert i in OpenPositions(prog[..i + 1]);
    assert prog[..|prog|] == prog;
    ClosedBetween(prog, i, i + 1, |prog|);
  }
}
