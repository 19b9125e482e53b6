/**
 * An independent description of what `parse_instructions`
 * (src/brainfork.c:171-298) computes on texts without comments: `Fold` cuts
 * the text into maximal runs and single symbols, `Resolve` numbers them and
 * links the brackets, and `ParseIsFoldThenResolve` proves the loop of the
 * source equal to the two. Beside it, the lexer's quirks on comments and on
 * the terminator are pinned down on small inputs.
 */
module Folding {
  import opened Instructions
  import opened Lexer

  /** A text with no terminator and no slash before its end: no comments. */
  predicate Clean(w: seq<char>)
  {
    forall k :: 0 <= k < |w| ==> w[k] != '\0' && w[k] != '/'
  }

  /** The two families of symbols the lexer folds. */
  datatype RunKind = Additive | Shifting

  predicate InRun(kind: RunKind, c: char)
  {
    match kind
    case Additive => IsAdditive(c)
    case Shifting => IsShiftChar(c)
  }

  function KindOf(c: char): RunKind
  {
    if IsAdditive(c) then Additive else Shifting
  }

  /** Net effect of the run symbols in `w[s..e]`: #`+` − #`-`, or #`>` − #`<`. */
  function Net(kind: RunKind, w: seq<char>, s: nat, e: nat): int
    requires s <= e <= |w|
  {
    match kind
    case Additive => Count('+', w, s, e) - Count('-', w, s, e)
    case Shifting => Count('>', w, s, e) - Count('<', w, s, e)
  }

  /** The end of the region from `s` made of symbols of `kind` and whitespace. */
  function RunEnd(w: seq<char>, kind: RunKind, s: nat): (e: nat)
    requires s <= |w|
    ensures s <= e <= |w|
    ensures forall k :: s <= k < e ==> InRun(kind, w[k]) || IsWhitespace(w[k])
    ensures e < |w| ==> !InRun(kind, w[e]) && !IsWhitespace(w[e])
    decreases |w| - s
  {
    if s < |w| && (InRun(kind, w[s]) || IsWhitespace(w[s])) then RunEnd(w, kind, s + 1) else s
  }

  /** The instruction kinds before bracket resolution. */
  datatype Token = TWrite(n: int) | TShift(n: int) | TOpen | TClose | TPrint | TUnknown(c: char)

  function RunToken(kind: RunKind, n: int): Token
  {
    match kind
    case Additive => TWrite(n)
    case Shifting => TShift(n)
  }

  /**
   * The tokens of `w[s..]`. A run (whitespace inside it included) becomes one
   * token carrying its net effect, and none when that is zero or when the run
   * is the very end of the text; a character outside the language ends the
   * list with `TUnknown`.
   */
  function Fold(w: seq<char>, s: nat): seq<Token>
    requires s <= |w|
    decreases |w| - s
  {
    if s == |w| then []
    else if IsWhitespace(w[s]) then Fold(w, s + 1)
    else if IsAdditive(w[s]) || IsShiftChar(w[s]) then
      var kind := KindOf(w[s]);
      var e := RunEnd(w, kind, s + 1);
      var n := Net(kind, w, s, e);
      (if n != 0 && (e < |w| || IsWhitespace(w[e - 1])) then [RunToken(kind, n)] else []) + Fold(w, e)
    else if w[s] == '[' then [TOpen] + Fold(w, s + 1)
    else if w[s] == ']' then [TClose] + Fold(w, s + 1)
    else if w[s] == '.' then [TPrint] + Fold(w, s + 1)
    else [TUnknown(w[s])]
  }

  /**
   * Numbers the tokens after the `out` already stored and links each close
   * to the innermost pending open in `stack`.
   */
  function Resolve(toks: seq<Token>, stack: seq<nat>, out: seq<Instruction>): Result<seq<Instruction>>
    decreases |toks|
  {
    if |toks| == 0 then
      if |stack| != 0 then Err(UnmatchedOpen) else Ok(out)
    else
      match toks[0]
      case TWrite(n) => Resolve(toks[1..], stack, out + [Write(n)])
      case TShift(n) => Resolve(toks[1..], stack, out + [Shift(n)])
      case TOpen => Resolve(toks[1..], stack + [|out|], out + [BracketOpen(|out|)])
      case TClose =>
        if |stack| == 0 then Err(UnmatchedClose)
        else Resolve(toks[1..], stack[..|stack| - 1], out + [BracketClosed(stack[|stack| - 1])])
      case TPrint => Resolve(toks[1..], stack, out + [Print])
      case TUnknown(c) => Err(UnknownToken(c))
  }

  /** An instruction without its bracket link. */
  function Erase(i: Instruction): Token
  {
    match i
    case Write(n) => TWrite(n)
    case Shift(n) => TShift(n)
    case BracketOpen(_) => TOpen
    case BracketClosed(_) => TClose
    case Print => TPrint
  }

  function EraseAll(prog: seq<Instruction>): (r: seq<Token>)
    ensures |r| == |prog|
    ensures forall k :: 0 <= k < |prog| ==> r[k] == Erase(prog[k])
  {
    seq(|prog|, k requires 0 <= k < |prog| => Erase(prog[k]))
  }

  /** A successful resolution stores one instruction per token, in order. */
  lemma {:induction false} ResolveKeepsTokens(toks: seq<Token>, stack: seq<nat>, out: seq<Instruction>)
    requires Resolve(toks, stack, out).Ok?
    ensures EraseAll(Resolve(toks, stack, out).value) == EraseAll(out) + toks
    decreases |toks|
  {
    if |toks| > 0 {
      var x := toks[0];
      assert toks == [x] + toks[1..];
      match x
      case TWrite(n) =>
        ResolveKeepsTokens(toks[1..], stack, out + [Write(n)]);
        assert EraseAll(out + [Write(n)]) == EraseAll(out) + [x];
      case TShift(n) =>
        ResolveKeepsTokens(toks[1..], stack, out + [Shift(n)]);
        assert EraseAll(out + [Shift(n)]) == EraseAll(out) + [x];
      case TOpen =>
        ResolveKeepsTokens(toks[1..], stack + [|out|], out + [BracketOpen(|out|)]);
        assert EraseAll(out + [BracketOpen(|out|)]) == EraseAll(out) + [x];
      case TClose =>
        var t := stack[|stack| - 1];
        ResolveKeepsTokens(toks[1..], stack[..|stack| - 1], out + [BracketClosed(t)]);
        assert EraseAll(out + [BracketClosed(t)]) == EraseAll(out) + [x];
      case TPrint =>
        ResolveKeepsTokens(toks[1..], stack, out + [Print]);
        assert EraseAll(out + [Print]) == EraseAll(out) + [x];
    }
  }

  // ---------------------------------------------------------------------
  // Facts about one pass

  /** A pass writes the cursor in every branch, so where it started does not matter. */
  lemma DispatchIgnoresPos(st: ParseState, p: nat, c: char, pos: nat)
    ensures Dispatch(st.(pos := pos), p, c) == Dispatch(st, p, c)
  {
  }

  /**
   * Whitespace under the cursor changes nothing, except right before the
   * terminator with a run pending (that run is then flushed instead of
   * dropped).
   */
  lemma WhitespaceTransparent(text: seq<char>, st: ParseState)
    requires IsCString(text) && st.pos + 1 < |text| && IsWhitespace(text[st.pos])
    requires Pending(st) == 0 || text[st.pos + 1] != '\0'
    ensures ParseLoop(text, st) == ParseLoop(text, st.(pos := st.pos + 1))
  {
    var next := st.(pos := st.pos + 1);
    assert SkipWhitespace(text, st.pos) == SkipWhitespace(text, next.pos);
    var p := SkipBlank(text, st.pos);
    DispatchIgnoresPos(st, p, text[p], next.pos);
    if text[next.pos] == '\0' {
      assert p == next.pos;
      assert Iterate(text, st) == Next(next);
    }
  }

  lemma {:induction false} CountSkips(c: char, w: seq<char>, k: nat, q: nat, e: nat)
    requires k <= q <= e <= |w|
    requires forall j :: k <= j < q ==> w[j] != c
    ensures Count(c, w, k, e) == Count(c, w, q, e)
    decreases q - k
  {
    if k < q {
      CountSkips(c, w, k + 1, q, e);
    }
  }

  lemma NetSkipsWhitespace(kind: RunKind, w: seq<char>, k: nat, q: nat, e: nat)
    requires k <= q <= e <= |w|
    requires forall j :: k <= j < q ==> IsWhitespace(w[j])
    ensures Net(kind, w, k, e) == Net(kind, w, q, e)
  {
    CountSkips('+', w, k, q, e);
    CountSkips('-', w, k, q, e);
    CountSkips('>', w, k, q, e);
    CountSkips('<', w, k, q, e);
  }

  function Acc(st: ParseState, kind: RunKind): int
  {
    match kind
    case Additive => st.inc
    case Shifting => st.mov
  }

  function Other(st: ParseState, kind: RunKind): int
  {
    match kind
    case Additive => st.mov
    case Shifting => st.inc
  }

  function RunInstruction(kind: RunKind, n: int): Instruction
  {
    match kind
    case Additive => Write(n)
    case Shifting => Shift(n)
  }

  /** The state after a run: accumulators clear, and the run stored if `emit` holds and its net is not zero. */
  function AfterRun(st: ParseState, kind: RunKind, n: int, e: nat, emit: bool): ParseState
  {
    st.(pos := e, inc := 0, mov := 0,
        out := st.out + if emit && n != 0 then [RunInstruction(kind, n)] else [])
  }

  /** `w[k..e]` is a run region of `kind` that ends at `e`: the end of the text or a character outside it. */
  predicate RunRegion(w: seq<char>, kind: RunKind, k: nat, e: nat)
  {
    && k < e <= |w|
    && (forall j :: k <= j < e ==> InRun(kind, w[j]) || IsWhitespace(w[j]))
    && (e < |w| ==> !InRun(kind, w[e]) && !IsWhitespace(w[e]))
  }

  /** Whether the loop stores a run ending at `e`: only if it is left by a character or by trailing whitespace. */
  predicate RunLeft(w: seq<char>, e: nat)
    requires 0 < e <= |w|
  {
    e < |w| || IsWhitespace(w[e - 1])
  }

  /**
   * From inside a run region `w[k..e]`, the loop reaches its end with the
   * run's net effect accumulated, and has stored it once the region is left
   * by a character (or by whitespace before the terminator).
   */
  lemma {:induction false} RunFolds(w: seq<char>, text: seq<char>, kind: RunKind, k: nat, e: nat, st: ParseState)
    requires text == w + ['\0'] && Clean(w) && RunRegion(w, kind, k, e)
    requires st.pos == k && Other(st, kind) == 0
    ensures IsCString(text)
    ensures ParseLoop(text, st) ==
      ParseLoop(text, AfterRun(st, kind, Acc(st, kind) + Net(kind, w, k, e), e, RunLeft(w, e)))
    decreases e - k, 1
  {
    assert IsCString(text);
    assert !IsWhitespace(text[e]);
    var q := SkipWhitespace(text, k);
    assert q <= e;
    forall j | k <= j < q
      ensures IsWhitespace(w[j])
    {
      assert text[j] == w[j];
    }
    NetSkipsWhitespace(kind, w, k, q, e);
    assert SkipBlank(text, k) == q;
    if q < e {
      RunAdvance(w, text, kind, k, q, e, st);
    } else {
      RunLeave(w, text, kind, k, e, st);
    }
  }

  /** A pass that meets a run symbol at `q` adds it to the accumulator. */
  lemma {:induction false} RunAdvance(w: seq<char>, text: seq<char>, kind: RunKind, k: nat, q: nat, e: nat, st: ParseState)
    requires text == w + ['\0'] && Clean(w) && RunRegion(w, kind, k, e)
    requires st.pos == k && Other(st, kind) == 0
    requires k <= q < e && IsCString(text) && SkipBlank(text, k) == q
    requires Net(kind, w, k, e) == Net(kind, w, q, e)
    ensures ParseLoop(text, st) ==
      ParseLoop(text, AfterRun(st, kind, Acc(st, kind) + Net(kind, w, k, e), e, RunLeft(w, e)))
    decreases e - k, 0
  {
    assert text[k] == w[k] && text[q] == w[q];
    RunSymbolStep(kind, w, q, e, st);
    var next := Dispatch(st, q, w[q]).state;
    PassTo(text, st, q);
    var n := Acc(st, kind) + Net(kind, w, k, e);
    assert AfterRun(next, kind, n, e, RunLeft(w, e)) == AfterRun(st, kind, n, e, RunLeft(w, e));
    if q + 1 < e {
      RunFolds(w, text, kind, q + 1, e, next);
    } else if e < |w| {
      RunExit(w, text, kind, e, next);
      assert Net(kind, w, e, e) == 0;
    } else {
      assert !RunLeft(w, e) && text[e] == '\0';
      assert st.out + [] == st.out;
    }
  }

  /** A pass that lands on `q` and goes on continues the loop from where it left the state. */
  lemma PassTo(text: seq<char>, st: ParseState, q: nat)
    requires IsCString(text) && st.pos < |text| && text[st.pos] != '\0' && SkipBlank(text, st.pos) == q
    requires Dispatch(st, q, text[q]).Next?
    ensures ParseLoop(text, st) == ParseLoop(text, Dispatch(st, q, text[q]).state)
  {
  }

  /** The symbol goes into its accumulator; the rest of the state stays. */
  lemma RunSymbolStep(kind: RunKind, w: seq<char>, q: nat, e: nat, st: ParseState)
    requires q < e <= |w| && InRun(kind, w[q]) && Other(st, kind) == 0
    ensures var r := Dispatch(st, q, w[q]);
      && r.Next? && Other(r.state, kind) == 0 && r.state.pos == q + 1
      && r.state.stack == st.stack && r.state.out == st.out
      && Acc(r.state, kind) + Net(kind, w, q + 1, e) == Acc(st, kind) + Net(kind, w, q, e)
  {
  }

  /** A run left by a character at `e` is flushed there, unless its net is zero. */
  lemma RunExit(w: seq<char>, text: seq<char>, kind: RunKind, e: nat, next: ParseState)
    requires text == w + ['\0'] && Clean(w) && e < |w| && IsCString(text)
    requires !InRun(kind, w[e]) && !IsWhitespace(w[e])
    requires Other(next, kind) == 0 && next.pos == e
    ensures ParseLoop(text, next) == ParseLoop(text, AfterRun(next, kind, Acc(next, kind), e, true))
  {
    assert text[e] == w[e];
    assert SkipBlank(text, e) == e;
    assert Iterate(text, next) == Dispatch(next, e, w[e]);
    var target := AfterRun(next, kind, Acc(next, kind), e, true);
    if Acc(next, kind) != 0 {
      assert Dispatch(next, e, w[e]) == Next(target);
    } else {
      assert next.out + [] == next.out;
      assert next == target;
    }
  }

  /** A pass that skips the rest of the region to its end flushes the accumulator, or finds the next character. */
  lemma RunLeave(w: seq<char>, text: seq<char>, kind: RunKind, k: nat, e: nat, st: ParseState)
    requires text == w + ['\0'] && Clean(w) && RunRegion(w, kind, k, e)
    requires st.pos == k && Other(st, kind) == 0
    requires IsCString(text) && SkipBlank(text, k) == e
    requires forall j :: k <= j < e ==> IsWhitespace(w[j])
    requires Net(kind, w, k, e) == Net(kind, w, e, e)
    ensures ParseLoop(text, st) ==
      ParseLoop(text, AfterRun(st, kind, Acc(st, kind) + Net(kind, w, k, e), e, RunLeft(w, e)))
  {
    assert Net(kind, w, k, e) == 0;
    assert IsWhitespace(w[e - 1]);
    var target := AfterRun(st, kind, Acc(st, kind), e, true);
    var c := text[e];
    assert e < |w| ==> c == w[e];
    if Acc(st, kind) != 0 {
      assert Dispatch(st, e, c) == Next(target);
    } else if c == '\0' {
      assert Dispatch(st, e, c) == Next(target);
    } else {
      assert target == st.(pos := e);
      assert SkipBlank(text, e) == e;
      DispatchIgnoresPos(st, e, c, e);
    }
  }

  /** From a state with nothing pending at `s`, the loop resolves the fold of the rest of the text. */
  lemma {:induction false} FoldAgrees(w: seq<char>, text: seq<char>, s: nat, st: ParseState)
    requires text == w + ['\0'] && Clean(w) && s <= |w|
    requires st.pos == s && st.inc == 0 && st.mov == 0
    ensures IsCString(text)
    ensures ParseLoop(text, st) == Resolve(Fold(w, s), st.stack, st.out)
    decreases |w| - s, 1
  {
    assert IsCString(text);
    if s < |w| {
      var c := w[s];
      assert text[s] == c;
      if IsWhitespace(c) {
        WhitespaceTransparent(text, st);
        FoldAgrees(w, text, s + 1, st.(pos := s + 1));
      } else if IsAdditive(c) || IsShiftChar(c) {
        FoldAgreesRun(w, text, s, st);
      } else {
        FoldAgreesSymbol(w, text, s, st);
      }
    }
  }

  lemma {:induction false} FoldAgreesRun(w: seq<char>, text: seq<char>, s: nat, st: ParseState)
    requires text == w + ['\0'] && Clean(w) && s < |w| && (IsAdditive(w[s]) || IsShiftChar(w[s]))
    requires st.pos == s && st.inc == 0 && st.mov == 0
    ensures IsCString(text)
    ensures ParseLoop(text, st) == Resolve(Fold(w, s), st.stack, st.out)
    decreases |w| - s, 0
  {
    var kind := KindOf(w[s]);
    var e := RunEnd(w, kind, s + 1);
    var n := Net(kind, w, s, e);
    var emit := RunLeft(w, e);
    RunStarts(w, kind, s, e);
    assert Acc(st, kind) == 0 && Other(st, kind) == 0;
    RunFolds(w, text, kind, s, e, st);
    var after := AfterRun(st, kind, n, e, emit);
    assert AfterRun(st, kind, Acc(st, kind) + n, e, emit) == after;
    assert after.pos == e && after.inc == 0 && after.mov == 0 && after.stack == st.stack;
    FoldAgrees(w, text, e, after);
    FoldRunResolves(w, s, kind, e, n, emit, st.stack, st.out);
    assert Resolve(Fold(w, s), st.stack, st.out) == Resolve(Fold(w, e), after.stack, after.out);
  }

  /** A run symbol at `s` opens the region of its kind that `RunEnd` closes. */
  lemma RunStarts(w: seq<char>, kind: RunKind, s: nat, e: nat)
    requires s < |w| && (IsAdditive(w[s]) || IsShiftChar(w[s])) && kind == KindOf(w[s])
    requires e == RunEnd(w, kind, s + 1)
    ensures RunRegion(w, kind, s, e)
  {
    assert InRun(kind, w[s]);
  }

  /** The token of a run is resolved into the instruction the loop stores for it, if any. */
  lemma FoldRunResolves(w: seq<char>, s: nat, kind: RunKind, e: nat, n: int, emit: bool,
                        stack: seq<nat>, out: seq<Instruction>)
    requires s < |w| && (IsAdditive(w[s]) || IsShiftChar(w[s])) && kind == KindOf(w[s])
    requires e == RunEnd(w, kind, s + 1) && n == Net(kind, w, s, e) && emit == RunLeft(w, e)
    ensures Resolve(Fold(w, s), stack, out) ==
      Resolve(Fold(w, e), stack, out + if emit && n != 0 then [RunInstruction(kind, n)] else [])
  {
    var rest := Fold(w, e);
    if n != 0 && emit {
      var toks := [RunToken(kind, n)] + rest;
      assert Fold(w, s) == toks;
      assert toks[0] == RunToken(kind, n) && toks[1..] == rest;
    } else {
      assert Fold(w, s) == rest;
      assert out + [] == out;
    }
  }

  lemma {:induction false} FoldAgreesSymbol(w: seq<char>, text: seq<char>, s: nat, st: ParseState)
    requires text == w + ['\0'] && Clean(w) && s < |w|
    requires !IsWhitespace(w[s]) && !IsAdditive(w[s]) && !IsShiftChar(w[s])
    requires st.pos == s && st.inc == 0 && st.mov == 0
    ensures IsCString(text)
    ensures ParseLoop(text, st) == Resolve(Fold(w, s), st.stack, st.out)
    decreases |w| - s, 0
  {
    var c := w[s];
    assert text[s] == c;
    assert SkipBlank(text, s) == s;
    if c == '[' || c == ']' || c == '.' {
      assert Fold(w, s)[1..] == Fold(w, s + 1);
      if Iterate(text, st).Next? {
        FoldAgrees(w, text, s + 1, Iterate(text, st).state);
      }
    }
  }

  /**
   * On a text without comments, `parse_instructions` is folding followed by
   * bracket resolution.
   */
  lemma ParseIsFoldThenResolve(w: seq<char>)
    requires Clean(w)
    ensures IsCString(w + ['\0'])
    ensures Parse(w + ['\0']) == Resolve(Fold(w, 0), [], [])
  {
    FoldAgrees(w, w + ['\0'], 0, InitialState);
  }

  /** So on such a text a successful parse stores exactly the folded tokens, in order. */
  lemma ParseStoresFold(w: seq<char>)
    requires Clean(w) && IsCString(w + ['\0']) && Parse(w + ['\0']).Ok?
    ensures EraseAll(Parse(w + ['\0']).value) == Fold(w, 0)
  {
    ParseIsFoldThenResolve(w);
    ResolveKeepsTokens(Fold(w, 0), [], []);
    assert EraseAll([]) == [];
  }

  // ---------------------------------------------------------------------
  // The quirks, on small inputs

  /** A run that ends the text is dropped; trailing whitespace makes the loop store it. */
  lemma TrailingRunNeedsWhitespace()
    ensures Parse("+\0") == Ok([])
    ensures Parse("+ \0") == Ok([Write(1)])
  {
    var t := "+ \0";
    var s1 := ParseState(1, 1, 0, [], []);
    var s2 := ParseState(2, 0, 0, [], [Write(1)]);
    assert SkipBlank(t, 0) == 0 && Iterate(t, InitialState) == Next(s1);
    assert SkipWhitespace(t, 1) == 2 && SkipBlank(t, 1) == 2 && Iterate(t, s1) == Next(s2);
    assert ParseLoop(t, s1) == ParseLoop(t, s2);
  }

  /** A flush re-reads the character that ended the run. */
  lemma FlushRereads()
    ensures Parse("+[-]\0") == Ok([Write(1), BracketOpen(1), Write(-1), BracketClosed(1)])
  {
    var t := "+[-]\0";
    var s1 := ParseState(1, 1, 0, [], []);
    var s2 := ParseState(1, 0, 0, [], [Write(1)]);
    var s3 := ParseState(2, 0, 0, [1], [Write(1), BracketOpen(1)]);
    var s4 := ParseState(3, -1, 0, [1], [Write(1), BracketOpen(1)]);
    var s5 := ParseState(3, 0, 0, [1], [Write(1), BracketOpen(1), Write(-1)]);
    var s6 := ParseState(4, 0, 0, [], [Write(1), BracketOpen(1), Write(-1), BracketClosed(1)]);
    assert SkipBlank(t, 0) == 0 && Iterate(t, InitialState) == Next(s1);
    assert SkipBlank(t, 1) == 1 && Iterate(t, s1) == Next(s2) && Iterate(t, s2) == Next(s3);
    assert SkipBlank(t, 2) == 2 && Iterate(t, s3) == Next(s4);
    assert SkipBlank(t, 3) == 3 && Iterate(t, s4) == Next(s5) && Iterate(t, s5) == Next(s6);
    assert ParseLoop(t, s5) == ParseLoop(t, s6);
    assert ParseLoop(t, s4) == ParseLoop(t, s5);
    assert ParseLoop(t, s3) == ParseLoop(t, s4);
    assert ParseLoop(t, s2) == ParseLoop(t, s3);
    assert ParseLoop(t, s1) == ParseLoop(t, s2);
  }

  /** A run whose net is zero stores nothing. */
  lemma ZeroRunVanishes()
    ensures Parse("+-.\0") == Ok([Print])
  {
    var t := "+-.\0";
    var s1 := ParseState(1, 1, 0, [], []);
    var s2 := ParseState(2, 0, 0, [], []);
    var s3 := ParseState(3, 0, 0, [], [Print]);
    assert SkipBlank(t, 0) == 0 && Iterate(t, InitialState) == Next(s1);
    assert SkipBlank(t, 1) == 1 && Iterate(t, s1) == Next(s2);
    assert SkipBlank(t, 2) == 2 && Iterate(t, s2) == Next(s3);
    assert ParseLoop(t, s2) == ParseLoop(t, s3);
    assert ParseLoop(t, s1) == ParseLoop(t, s2);
  }

  /** After a comment the next character is taken as it is: indentation or a second comment is an error. */
  lemma CommentSkipsOnce()
    ensures Parse("//a\n//b\n\0") == Err(UnknownToken('/'))
    ensures Parse("//a\n +\0") == Err(UnknownToken(' '))
  {
    var t := "//a\n//b\n\0";
    assert SkipWhitespace(t, 0) == 0 && AtComment(t, 0);
    assert SkipToLineEnd(t, 2) == 3 && SkipComment(t, 0) == 4;
    assert Iterate(t, InitialState) == Fail(UnknownToken('/'));
    var u := "//a\n +\0";
    assert SkipWhitespace(u, 0) == 0 && AtComment(u, 0);
    assert SkipToLineEnd(u, 2) == 3 && SkipComment(u, 0) == 4;
    assert Iterate(u, InitialState) == Fail(UnknownToken(' '));
  }

  /**
   * With a run pending, the flush leaves the cursor just after the first
   * comment, so the next pass skips a second comment.
   */
  lemma PendingRunSkipsTwoComments()
    ensures Parse("+//a\n//b\n.\0") == Ok([Write(1), Print])
  {
    var t := "+//a\n//b\n.\0";
    var s1 := ParseState(1, 1, 0, [], []);
    var s2 := ParseState(5, 0, 0, [], [Write(1)]);
    var s3 := ParseState(10, 0, 0, [], [Write(1), Print]);
    TwoCommentsPasses();
    assert ParseLoop(t, s2) == ParseLoop(t, s3);
    assert ParseLoop(t, s1) == ParseLoop(t, s2);
  }

  /** The three passes over `+//a\n//b\n.`: the run, its flush after the first comment, the print after the second. */
  lemma TwoCommentsPasses()
    ensures IsCString("+//a\n//b\n.\0")
    ensures Iterate("+//a\n//b\n.\0", InitialState) == Next(ParseState(1, 1, 0, [], []))
    ensures Iterate("+//a\n//b\n.\0", ParseState(1, 1, 0, [], [])) == Next(ParseState(5, 0, 0, [], [Write(1)]))
    ensures Iterate("+//a\n//b\n.\0", ParseState(5, 0, 0, [], [Write(1)])) == Next(ParseState(10, 0, 0, [], [Write(1), Print]))
  {
    var t := "+//a\n//b\n.\0";
    assert IsCString(t);
    assert SkipBlank(t, 0) == 0;
    assert SkipWhitespace(t, 1) == 1 && AtComment(t, 1);
    assert SkipToLineEnd(t, 3) == 4 && SkipComment(t, 1) == 5;
    assert SkipWhitespace(t, 5) == 5 && AtComment(t, 5);
    assert SkipToLineEnd(t, 7) == 8 && SkipComment(t, 5) == 9;
  }

  /** A run symbol straight after the comment continues the pending run: `+//a\n+ ` stores one run of 2. */
  lemma CommentInsideRunKeeps()
    ensures Parse("+//a\n+ \0") == Ok([Write(2)])
  {
    var t := "+//a\n+ \0";
    var s1 := ParseState(1, 1, 0, [], []);
    var s2 := ParseState(6, 2, 0, [], []);
    var s3 := ParseState(7, 0, 0, [], [Write(2)]);
    assert SkipBlank(t, 0) == 0 && Iterate(t, InitialState) == Next(s1);
    assert SkipWhitespace(t, 1) == 1 && AtComment(t, 1);
    assert SkipToLineEnd(t, 3) == 4 && SkipComment(t, 1) == 5;
    assert Iterate(t, s1) == Next(s2);
    assert SkipWhitespace(t, 6) == 7 && SkipBlank(t, 6) == 7 && Iterate(t, s2) == Next(s3);
    assert ParseLoop(t, s2) == ParseLoop(t, s3);
    assert ParseLoop(t, s1) == ParseLoop(t, s2);
  }

  /** With a run pending, a blank after the comment flushes it, so one run can be stored as two. */
  lemma CommentSplitsRun()
    ensures Parse("+//a\n + \0") == Ok([Write(1), Write(1)])
  {
    var t := "+//a\n + \0";
    var s1 := ParseState(1, 1, 0, [], []);
    var s2 := ParseState(5, 0, 0, [], [Write(1)]);
    var s3 := ParseState(7, 1, 0, [], [Write(1)]);
    var s4 := ParseState(8, 0, 0, [], [Write(1), Write(1)]);
    assert SkipBlank(t, 0) == 0 && Iterate(t, InitialState) == Next(s1);
    assert SkipWhitespace(t, 1) == 1 && AtComment(t, 1);
    assert SkipToLineEnd(t, 3) == 4 && SkipComment(t, 1) == 5;
    assert Iterate(t, s1) == Next(s2);
    assert SkipWhitespace(t, 5) == 6 && SkipBlank(t, 5) == 6 && Iterate(t, s2) == Next(s3);
    assert SkipWhitespace(t, 7) == 8 && SkipBlank(t, 7) == 8 && Iterate(t, s3) == Next(s4);
    assert ParseLoop(t, s3) == ParseLoop(t, s4);
    assert ParseLoop(t, s2) == ParseLoop(t, s3);
    assert ParseLoop(t, s1) == ParseLoop(t, s2);
  }
}
