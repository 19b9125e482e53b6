/**
 * The output-file-name helpers `strdup_dot_x` and `strdup_dot_x_strip`
 * (src/brainfork.c:79-114, the same code at src/Brainfork.c:40-73). A C
 * string is its characters without the terminating NUL, `None` is the NULL
 * pointer, and a copy that is cut short by writing a NUL into it is read back
 * up to its first NUL.
 */
module FileNames {
  import opened Instructions

  /** A C string cannot hold a NUL before its end. */
  predicate IsCStr(s: Option<string>)
  {
    s.Some? ==> '\0' !in s.value
  }

  /** `strrchr`: the index of the last occurrence of `c`, if any. */
  function LastIndex(s: string, c: char): (r: Option<nat>)
    ensures r.None? <==> c !in s
    ensures r.Some? ==> r.value < |s| && s[r.value] == c
    ensures r.Some? ==> forall j :: r.value < j < |s| ==> s[j] != c
    decreases |s|
  {
    if |s| == 0 then None
    else if s[|s| - 1] == c then Some(|s| - 1)
    else
      assert s == s[..|s| - 1] + [s[|s| - 1]];
      LastIndex(s[..|s| - 1], c)
  }

  /** The string a buffer holds when read as a C string: everything before its first NUL. */
  function ReadCStr(buffer: string): (r: string)
    ensures |r| <= |buffer| && r == buffer[..|r|] && '\0' !in r
    ensures |r| < |buffer| ==> buffer[|r|] == '\0'
    decreases |buffer|
  {
    if |buffer| == 0 || buffer[0] == '\0' then ""
    else [buffer[0]] + ReadCStr(buffer[1..])
  }

  /**
   * `strdup_dot_x(s, ext)`: NULL without a dot or when the last dot is the
   * final character; otherwise a copy of `s` with `ext` written just after
   * the last dot and a NUL after that.
   */
  function StrdupDotX(s: Option<string>, ext: char): (r: Option<string>)
    requires IsCStr(s)
    ensures r.None? <==> s.None? || '.' !in s.value || s.value[|s.value| - 1] == '.'
    ensures r.Some? && ext != '\0' ==>
      var k := |r.value| - 1;
      && 0 < k < |s.value| && s.value[k - 1] == '.'
      && r.value == s.value[..k] + [ext]
      && forall j :: k <= j < |s.value| ==> s.value[j] != '.'
  {
    if s.None? then None
    else
      var t := s.value;
      var dot := LastIndex(t, '.');
      if dot.Some? && dot.value + 1 < |t| then
        var offset := dot.value + 1;
        var copy := t + ['\0'];
        var written := copy[offset := ext][offset + 1 := '\0'];
        if ext != '\0' then
          assert written == (t[..offset] + [ext]) + written[offset + 1..];
          ReadPrefix(t[..offset] + [ext], written[offset + 1..]);
          Some(ReadCStr(written))
        else
          Some(ReadCStr(written))
      else
        None
  }

  /** `strdup_dot_x_strip(s)`: NULL without a dot; otherwise the copy cut at the last dot. */
  function StrdupDotXStrip(s: Option<string>): (r: Option<string>)
    requires IsCStr(s)
    ensures r.None? <==> s.None? || '.' !in s.value
    ensures r.Some? ==>
      var k := |r.value|;
      && k < |s.value| && s.value[k] == '.' && r.value == s.value[..k]
      && forall j :: k < j < |s.value| ==> s.value[j] != '.'
  {
    if s.None? then None
    else
      var t := s.value;
      var dot := LastIndex(t, '.');
      if dot.Some? then
        var copy := t + ['\0'];
        var written := copy[dot.value := '\0'];
        assert written == t[..dot.value] + written[dot.value..];
        ReadPrefix(t[..dot.value], written[dot.value..]);
        Some(ReadCStr(written))
      else
        None
  }

  /** The last dot of a string is unique, so the two descriptions of it agree. */
  lemma LastDotUnique(t: string, a: nat, b: nat)
    requires a < |t| && b < |t| && t[a] == '.' && t[b] == '.'
    requires forall j :: a < j < |t| ==> t[j] != '.'
    requires forall j :: b < j < |t| ==> t[j] != '.'
    ensures a == b
  {
  }

  /**
   * Where `strdup_dot_x` gives a name, `strdup_dot_x_strip` gives one too,
   * and the first is the second followed by the dot and the extension.
   */
  lemma DotXIsStripDotExt(s: Option<string>, ext: char)
    requires IsCStr(s) && ext != '\0' && StrdupDotX(s, ext).Some?
    ensures StrdupDotXStrip(s).Some?
    ensures StrdupDotX(s, ext).value == StrdupDotXStrip(s).value + "." + [ext]
  {
    var t := s.value;
    var x := StrdupDotX(s, ext).value;
    var p := StrdupDotXStrip(s).value;
    LastDotUnique(t, |x| - 2, |p|);
    assert x == t[..|p|] + [t[|p|]] + [ext];
  }

  /** An extension of NUL writes the terminator twice: the name keeps its last dot and nothing after. */
  lemma NulExtensionKeepsDot(s: Option<string>)
    requires IsCStr(s) && StrdupDotX(s, '\0').Some?
    ensures StrdupDotXStrip(s).Some?
    ensures StrdupDotX(s, '\0').value == StrdupDotXStrip(s).value + "."
  {
    var t := s.value;
    var dot := LastIndex(t, '.').value;
    var written := (t + ['\0'])[dot + 1 := '\0'][dot + 2 := '\0'];
    assert written == t[..dot + 1] + ['\0'] + written[dot + 2..];
    ReadPrefix(t[..dot + 1], written[dot + 1..]);
    var p := StrdupDotXStrip(s).value;
    LastDotUnique(t, dot, |p|);
    assert t[..dot + 1] == t[..dot] + ".";
  }

  /** Reading a buffer that starts with a C string and then a NUL gives that string. */
  lemma {:induction false} ReadPrefix(t: string, rest: string)
    requires '\0' !in t && |rest| > 0 && rest[0] == '\0'
    ensures ReadCStr(t + rest) == t
    decreases |t|
  {
    if |t| > 0 {
      assert (t + rest)[1..] == t[1..] + rest;
      ReadPrefix(t[1..], rest);
      assert t == [t[0]] + t[1..];
    }
  }

  /** The names `run_transpiler` and `main` derive for a source file `prog.bf`. */
  lemma SourceFileNames()
    ensures StrdupDotX(Some("prog.bf"), 'c') == Some("prog.c")
    ensures StrdupDotXStrip(Some("prog.bf")) == Some("prog")
    ensures StrdupDotX(Some("prog."), 'c') == None
    ensures StrdupDotX(Some("prog"), 'c') == None
    ensures StrdupDotXStrip(Some("a.b.bf")) == Some("a.b")
  {
    var t := "prog.bf";
    assert '.' in t && t[4] == '.';
    assert forall j :: 4 < j < |t| ==> t[j] != '.';
    LastDotUnique(t, 4, |StrdupDotXStrip(Some(t)).value|);
    assert t[..4] == "prog";
    DotXIsStripDotExt(Some(t), 'c');
    assert StrdupDotX(Some(t), 'c').value == "prog" + "." + ['c'];
    assert "prog" + "." + ['c'] == "prog.c";
    var u := "a.b.bf";
    assert '.' in u && u[3] == '.';
    assert forall j :: 3 < j < |u| ==> u[j] != '.';
    LastDotUnique(u, 3, |StrdupDotXStrip(Some(u)).value|);
    assert u[..3] == "a.b";
    assert "prog."[4] == '.';
  }
}
