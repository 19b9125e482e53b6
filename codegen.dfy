/**
 * The text primitives of both transpilers: `fprintf_indent`
 * (src/brainfork.c:352-360), whose twin `fprintf_line` (src/Brainfork.c:259-263)
 * behaves the same, and the decimal rendering of `%ld`.
 */
module Text {

  function Tabs(n: nat): (r: string)
    ensures |r| == n && forall k :: 0 <= k < n ==> r[k] == '\t'
  {
    seq(n, _ => '\t')
  }

  /** How many tabs `while (indent_depth-- > 0)` writes: none for a depth below one. */
  function TabCount(depth: int): nat
  {
    if depth > 0 then depth else 0
  }

  /** A line as the file receives it: its indentation, then its text. */
  function Indented(depth: int, text: string): (r: string)
    ensures |r| == TabCount(depth) + |text|
    ensures forall k :: 0 <= k < TabCount(depth) ==> r[k] == '\t'
    ensures r[TabCount(depth)..] == text
  {
    Tabs(TabCount(depth)) + text
  }

  /** `fprintf_indent` (and `fprintf_line`): appends the indented text to the file written so far. */
  method FprintfIndent(file: string, indentDepth: int, text: string) returns (file': string)
    ensures file' == file + Indented(indentDepth, text)
  {
    var depth := indentDepth;
    file' := file;
    while depth > 0
      invariant depth <= TabCount(indentDepth)
      invariant file' == file + Tabs(TabCount(indentDepth) - TabCount(depth))
      decreases depth
    {
      assert Tabs(TabCount(indentDepth) - TabCount(depth) + 1)
        == Tabs(TabCount(indentDepth) - TabCount(depth)) + "\t";
      file' := file' + "\t";
      depth := depth - 1;
    }
    file' := file' + text;
  }

  predicate IsDigit(c: char)
  {
    '0' <= c <= '9'
  }

  function DigitChar(d: nat): (c: char)
    requires d < 10
    ensures IsDigit(c)
  {
    "0123456789"[d]
  }

  function DigitValue(c: char): nat
  {
    if IsDigit(c) then (c as int) - ('0' as int) else 0
  }

  lemma DigitRoundTrip(d: nat)
    requires d < 10
    ensures DigitValue(DigitChar(d)) == d
  {
  }

  /** The decimal digits of `n`, most significant first, with no leading zero. */
  function Digits(n: nat): (s: string)
    ensures 0 < |s| && forall k :: 0 <= k < |s| ==> IsDigit(s[k])
    ensures |s| > 1 ==> s[0] != '0'
    decreases n
  {
    if n < 10 then [DigitChar(n)] else Digits(n / 10) + [DigitChar(n % 10)]
  }

  /** `%ld`: a minus sign for a negative value, then the digits of its magnitude. */
  function Decimal(n: int): (s: string)
    ensures 0 < |s|
  {
    if n < 0 then "-" + Digits(-n) else Digits(n)
  }

  function DigitsValue(s: string): nat
    decreases |s|
  {
    if |s| == 0 then 0 else 10 * DigitsValue(s[..|s| - 1]) + DigitValue(s[|s| - 1])
  }

  /** Reads back what `Decimal` writes. */
  function DecimalValue(s: string): int
  {
    if 0 < |s| && s[0] == '-' then 0 - DigitsValue(s[1..]) else DigitsValue(s) as int
  }

  lemma {:induction false} DigitsRoundTrip(n: nat)
    ensures DigitsValue(Digits(n)) == n
    decreases n
  {
    var s := Digits(n);
    if n < 10 {
      DigitRoundTrip(n);
    } else {
      DigitsRoundTrip(n / 10);
      DigitRoundTrip(n % 10);
      assert s[..|s| - 1] == Digits(n / 10);
    }
  }

  /** The text of `%ld` determines the value printed. */
  lemma DecimalRoundTrip(n: int)
    ensures DecimalValue(Decimal(n)) == n
  {
    if n < 0 {
      var s := "-" + Digits(-n);
      assert s[0] == '-' && s[1..] == Digits(-n);
      DigitsRoundTrip(-n);
      assert DecimalValue(s) == 0 - DigitsValue(Digits(-n));
    } else {
      var s := Digits(n);
      assert IsDigit(s[0]);
      DigitsRoundTrip(n);
      assert DecimalValue(s) == DigitsValue(s) as int;
    }
  }
}
