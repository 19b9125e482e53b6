/**
 * The first tokenizer, `parse_to_tokens` (Interpreter/BrainfuckInterpreter.c:42-86):
 * every character of the file becomes one token that keeps the character,
 * and a character outside the seven commands and the two line ends stops
 * the program with an error. The file is the sequence of its characters.
 */
module Tokenizer {
  import opened Instructions

  /** `TokenType` (Interpreter/tokens.h). */
  datatype TokenType =
    | TokenIncrement
    | TokenDecrement
    | TokenBracketOpen
    | TokenBracketClosed
    | TokenPeriod
    | TokenMoveRight
    | TokenMoveLeft
    | TokenLineIndicator

  /** `Token`: its type and the character it was read from. */
  datatype Token = Token(kind: TokenType, ch: char)

  /** The characters the `switch` accepts. */
  const Supported: set<char> := {'+', '-', '[', ']', '.', '>', '<', '\n', '\r'}

  /** The `switch` on the character; None is the `default` branch. */
  function TokenOf(c: char): (r: Option<TokenType>)
    ensures r.Some? <==> c in Supported
    ensures r == Some(TokenLineIndicator) <==> c == '\n' || c == '\r'
  {
    match c
    case '+' => Some(TokenIncrement)
    case '-' => Some(TokenDecrement)
    case '[' => Some(TokenBracketOpen)
    case ']' => Some(TokenBracketClosed)
    case '.' => Some(TokenPeriod)
    case '>' => Some(TokenMoveRight)
    case '<' => Some(TokenMoveLeft)
    case '\n' => Some(TokenLineIndicator)
    case '\r' => Some(TokenLineIndicator)
    case _ => None
  }

  /** Either every character was tokenized, or the first unsupported one and where it is. */
  datatype Outcome = Tokenized(tokens: seq<Token>) | Unsupported(at: nat, c: char)

  /** The outcome of reading `text` character by character. */
  function Tokenize(text: seq<char>): Outcome
    decreases |text|
  {
    if |text| == 0 then Tokenized([])
    else
      var c := text[|text| - 1];
      match Tokenize(text[..|text| - 1])
      case Unsupported(at, d) => Unsupported(at, d)
      case Tokenized(tokens) =>
        match TokenOf(c)
        case None => Unsupported(|text| - 1, c)
        case Some(kind) => Tokenized(tokens + [Token(kind, c)])
  }

  // ---------------------------------------------------------------------
  // Properties

  /** The tokens written for a prefix that has only supported characters. */
  predicate TokensOf(text: seq<char>, tokens: seq<Token>)
  {
    && |tokens| == |text|
    && forall i :: 0 <= i < |text| ==> TokenOf(text[i]) == Some(tokens[i].kind) && tokens[i].ch == text[i]
  }

  predicate AllSupported(text: seq<char>)
  {
    forall i :: 0 <= i < |text| ==> text[i] in Supported
  }

  /**
   * Tokenizing succeeds exactly when every character is supported, and then
   * writes one token per character, in order, each keeping its character.
   */
  lemma {:induction false} TokenizeSucceeds(text: seq<char>)
    ensures Tokenize(text).Tokenized? <==> AllSupported(text)
    ensures Tokenize(text).Tokenized? ==> TokensOf(text, Tokenize(text).tokens)
    decreases |text|
  {
    if |text| > 0 {
      var front := text[..|text| - 1];
      TokenizeSucceeds(front);
      if AllSupported(text) {
        assert AllSupported(front) by {
          forall i | 0 <= i < |front| ensures front[i] in Supported {
            assert front[i] == text[i];
          }
        }
      }
      if Tokenize(text).Tokenized? {
        assert Tokenize(front).Tokenized?;
        forall i | 0 <= i < |text| ensures text[i] in Supported {
          if i < |front| {
            assert front[i] == text[i];
          }
        }
      }
    }
  }

  /** A failure names the first unsupported character, everything before it tokenizes. */
  lemma {:induction false} TokenizeFails(text: seq<char>)
    requires Tokenize(text).Unsupported?
    ensures var r := Tokenize(text);
      && r.at < |text| && text[r.at] == r.c && r.c !in Supported
      && AllSupported(text[..r.at])
    decreases |text|
  {
    var front := text[..|text| - 1];
    if Tokenize(front).Unsupported? {
      TokenizeFails(front);
      assert front[..Tokenize(front).at] == text[..Tokenize(front).at];
    } else {
      TokenizeSucceeds(front);
    }
  }

  /** A space is not a token: `+ -` stops at index 1. */
  lemma SpaceIsUnsupported()
    ensures Tokenize("+ -") == Unsupported(1, ' ')
  {
    var t := "+ -";
    assert t[..1] == "+" && t[..2] == "+ " && t[..1][..0] == [];
    assert Tokenize("+") == Tokenized([Token(TokenIncrement, '+')]);
  }

  /** Both line ends give the same token, and each keeps its own character. */
  lemma LineEndsAgree()
    ensures Tokenize("\r\n") == Tokenized([Token(TokenLineIndicator, '\r'), Token(TokenLineIndicator, '\n')])
  {
    var t := "\r\n";
    assert t[..1] == "\r" && t[..1][..0] == [];
  }

  // ---------------------------------------------------------------------
  // The code

  /**
   * The `fgetc` loop: each token goes through the advancing buffer pointer.
   * `ok` is false where the source exits; `count` tokens were written then.
   */
  method ParseToTokens(text: seq<char>, tokenBuffer: array<Token>) returns (ok: bool, count: nat)
    requires |text| <= tokenBuffer.Length
    modifies tokenBuffer
    ensures ok <==> Tokenize(text).Tokenized?
    ensures count <= |text| && tokenBuffer[count..] == old(tokenBuffer[count..])
    ensures ok ==> count == |text| && tokenBuffer[..count] == Tokenize(text).tokens
    ensures !ok ==> count == Tokenize(text).at && Tokenize(text[..count]) == Tokenized(tokenBuffer[..count])
  {
    count := 0;
    while count < |text|
      invariant count <= |text|
      invariant Tokenize(text[..count]) == Tokenized(tokenBuffer[..count])
      invariant tokenBuffer[count..] == old(tokenBuffer[count..])
    {
      var c := text[count];
      assert text[..count + 1][..count] == text[..count];
      var kind := TokenOf(c);
      if kind.None? {
        TokenizeStops(text, count);
        return false, count;
      }
      tokenBuffer[count] := Token(kind.value, c);
      assert tokenBuffer[..count + 1] == tokenBuffer[..count] + [Token(kind.value, c)];
      assert tokenBuffer[count + 1..] == old(tokenBuffer[count + 1..]) by {
        assert old(tokenBuffer[count..])[1..] == old(tokenBuffer[count + 1..]);
      }
      count := count + 1;
    }
    assert text[..count] == text;
    ok := true;
  }

  /** Once a prefix fails, every longer text fails at the same place. */
  lemma {:induction false} TokenizeStops(text: seq<char>, n: nat)
    requires n < |text| && Tokenize(text[..n]).Tokenized? && TokenOf(text[n]).None?
    ensures Tokenize(text) == Unsupported(n, text[n])
    decreases |text|
  {
    if |text| - 1 > n {
      var front := text[..|text| - 1];
      assert front[..n] == text[..n] && front[n] == text[n];
      TokenizeStops(front, n);
    } else {
      assert text[..|text| - 1] == text[..n];
    }
  }
}
