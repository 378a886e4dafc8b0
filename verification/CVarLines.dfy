/// Configuration files are read a line at a time (executeConfig in engine/core/src/cvar.cpp). Cutting the text
/// at line feeds and trimming each line gives the statements, or the failure, of tokenizing the whole text.
module CVarLines {
  import opened Options
  import opened CVarText

  /// What precedes the first line feed.
  function FirstLine(text: string): (line: string)
    ensures '\n' !in line && |line| <= |text|
    ensures '\n' in text ==> |line| < |text| && text[|line|] == '\n' && text == line + ("\n" + AfterLine(text))
    ensures '\n' !in text ==> line == text
  {
    if text == "" || text[0] == '\n' then "" else [text[0]] + FirstLine(text[1..])
  }

  function Lines(text: string): (lines: seq<string>)
    ensures lines != [] && forall k :: 0 <= k < |lines| ==> '\n' !in lines[k]
    decreases |text|
  {
    [FirstLine(text)] + if '\n' in text then Lines(AfterLine(text)) else []
  }

  function TrimLeft(s: string): (t: string)
    ensures |t| <= |s| && forall c :: c in t ==> c in s
  {
    if s != "" && IsSpace(s[0]) then TrimLeft(s[1..]) else s
  }

  function TrimRight(s: string): (t: string)
    ensures |t| <= |s| && forall c :: c in t ==> c in s
  {
    if s != "" && IsSpace(s[|s| - 1]) then TrimRight(s[..|s| - 1]) else s
  }

  function Trim(s: string): (t: string)
    ensures |t| <= |s| && forall c :: c in t ==> c in s
  {
    TrimRight(TrimLeft(s))
  }

  /// The statements of all the lines, or None when one line fails.
  function TokensOf(lines: seq<string>): Option<seq<Statement>> {
    if lines == [] then Some([])
    else
      var first := Tokens(Trim(lines[0]));
      var more := TokensOf(lines[1..]);
      if first.None? || more.None? then None else Some(first.value + more.value)
  }

  // -- A line within a text ------------------------------------------------------------------

  predicate Harmless(tail: string) {
    tail == "" || (tail[0] != '"' && tail[0] != '\\' && tail[0] != '/')
  }

  /// The lexer looks one character ahead only for a quote, a backslash or a slash.
  lemma StepIgnores(l: Lexer, s: string, tail: string)
    requires s != "" && Harmless(tail)
    ensures s + tail != "" && Step(l, s + tail) == Step(l, s)
    ensures l.inQuotes || !StartsComment(l, s) ==> Rest(l, s + tail) == Rest(l, s) + tail
    ensures StartsComment(l, s + tail) == StartsComment(l, s)
  {
    var t := s + tail;
    assert t[0] == s[0] && t[1..] == s[1..] + tail;
    if |s| > 1 {
      assert t[1] == s[1] && t[2..] == s[2..] + tail;
    }
  }

  lemma {:induction false} AfterLinePast(s: string, tail: string)
    requires '\n' !in s
    ensures AfterLine(s + tail) == AfterLine(tail)
  {
    if s == "" {
      assert s + tail == tail;
    } else {
      assert (s + tail)[1..] == s[1..] + tail;
      AfterLinePast(s[1..], tail);
    }
  }

  lemma AfterWholeLine(s: string)
    requires '\n' !in s
    ensures AfterLine(s) == ""
  {
    AfterLinePast(s, "");
    assert s + "" == s;
  }

  function AtLineFeed(l: Lexer, rest: string): Option<Lexer> {
    if l.inQuotes then None else Scan(EndStatement(l), rest)
  }

  /// A line followed by a line feed is scanned to its end, where a quoted string must be over.
  lemma {:induction false} LineEnds(l: Lexer, line: string, rest: string)
    requires '\n' !in line
    ensures Scan(l, line + ("\n" + rest)) ==
            var m := Scan(l, line); if m.None? then None else AtLineFeed(m.value, rest)
    decreases |line|
  {
    var tail := "\n" + rest;
    if line == "" {
      assert line + tail == tail && tail[1..] == rest;
    } else {
      StepIgnores(l, line, tail);
      if Step(l, line).Some? {
        var next := Step(l, line).value;
        if !l.inQuotes && StartsComment(l, line) {
          AfterLinePast(line, tail);
          AfterWholeLine(line);
          assert tail[1..] == rest && AfterLine(tail) == rest;
          assert EndStatement(EndStatement(l)) == EndStatement(l);
        } else {
          RestIsPart(l, line);
          LineEnds(next, Rest(l, line), rest);
        }
      }
    }
  }

  lemma RestIsPart(l: Lexer, s: string)
    requires s != "" && '\n' !in s
    ensures '\n' !in Rest(l, s)
  {
    if !l.inQuotes && StartsComment(l, s) {
      AfterWholeLine(s);
    }
  }

  // -- The statements already finished do not matter -----------------------------------------

  function Behind(done: seq<Statement>, l: Lexer): Lexer {
    l.(done := done + l.done)
  }

  lemma StepBehind(done: seq<Statement>, l: Lexer, t: string)
    requires t != ""
    ensures Rest(Behind(done, l), t) == Rest(l, t)
    ensures Step(Behind(done, l), t) == var n := Step(l, t); if n.None? then None else Some(Behind(done, n.value))
  {
    var e := EndToken(l);
    assert done + (l.done + [e.current]) == done + l.done + [e.current];
  }

  lemma {:induction false} ScanBehind(done: seq<Statement>, l: Lexer, t: string)
    ensures Scan(Behind(done, l), t) == var n := Scan(l, t); if n.None? then None else Some(Behind(done, n.value))
    decreases |t|
  {
    if t != "" {
      StepBehind(done, l, t);
      if Step(l, t).Some? {
        ScanBehind(done, Step(l, t).value, Rest(l, t));
      }
    }
  }

  // -- White space around a line -------------------------------------------------------------

  function Outcome(l: Option<Lexer>): Option<seq<Statement>> {
    if l.None? then None else Finished(l.value)
  }

  lemma {:induction false} SpaceBehind(l: Lexer, s: string, c: char)
    requires '\n' !in s && IsSpace(c)
    ensures Outcome(Scan(l, s + [c])) == Outcome(Scan(l, s))
    decreases |s|
  {
    if s == "" {
      assert s + [c] == [c] && [c][1..] == "";
      assert Scan(Step(l, [c]).value, "") == Step(l, [c]);
    } else {
      StepIgnores(l, s, [c]);
      if Step(l, s).Some? {
        if !l.inQuotes && StartsComment(l, s) {
          AfterLinePast(s, [c]);
          AfterWholeLine(s);
          assert [c][1..] == "" && AfterLine([c]) == "";
        } else {
          RestIsPart(l, s);
          SpaceBehind(Step(l, s).value, Rest(l, s), c);
        }
      }
    }
  }

  lemma {:induction false} TrimRightKeeps(s: string)
    requires '\n' !in s
    ensures Tokens(TrimRight(s)) == Tokens(s)
  {
    if s != "" && IsSpace(s[|s| - 1]) {
      var head := s[..|s| - 1];
      TrimRightKeeps(head);
      SpaceBehind(Fresh([]), head, s[|s| - 1]);
      assert head + [s[|s| - 1]] == s;
    }
  }

  lemma {:induction false} TrimLeftKeeps(s: string)
    ensures Tokens(TrimLeft(s)) == Tokens(s)
  {
    if s != "" && IsSpace(s[0]) {
      TrimLeftKeeps(s[1..]);
      assert Step(Fresh([]), s) == Some(Fresh([])) && Rest(Fresh([]), s) == s[1..];
    }
  }

  lemma TrimKeeps(s: string)
    requires '\n' !in s
    ensures Tokens(Trim(s)) == Tokens(s)
  {
    TrimLeftKeeps(s);
    TrimRightKeeps(TrimLeft(s));
  }

  // -- Line by line ---------------------------------------------------------------------------

  function After(done: seq<Statement>, more: Option<seq<Statement>>): Option<seq<Statement>> {
    if more.None? then None else Some(done + more.value)
  }

  lemma FromFresh(done: seq<Statement>, line: string)
    ensures Outcome(Scan(Fresh(done), line)) == After(done, Tokens(line))
  {
    ScanBehind(done, Fresh([]), line);
    assert done + [] == done;
    assert Fresh(done) == Behind(done, Fresh([]));
    var n := Scan(Fresh([]), line);
    if n.Some? {
      var e := EndToken(n.value);
      assert done + (e.done + [e.current]) == done + e.done + [e.current];
      assert done + (e.done + []) == done + e.done + [];
    }
  }

  lemma EndIsFresh(m: Lexer)
    requires !m.inQuotes
    ensures Finished(m) == Some(EndStatement(m).done)
    ensures EndStatement(m) == Fresh(EndStatement(m).done)
  {
    assert EndToken(m).done + [] == EndToken(m).done;
  }

  /// The statements of the first line come before those of the others.
  lemma TokensOfMore(line: string, lines: seq<string>)
    requires '\n' !in line
    ensures TokensOf([line] + lines) == if Tokens(line).None? then None else After(Tokens(line).value, TokensOf(lines))
  {
    hide Tokens, Trim;
    TrimKeeps(line);
    assert ([line] + lines)[1..] == lines;
  }

  lemma AfterBoth(done: seq<Statement>, first: seq<Statement>, more: Option<seq<Statement>>)
    ensures After(done, After(first, more)) == After(done + first, more)
  {
    if more.Some? {
      assert done + (first + more.value) == done + first + more.value;
    }
  }

  /// What the first line leaves for the others to start from.
  lemma FirstLineDone(done: seq<Statement>, line: string, rest: string)
    requires '\n' !in line
    ensures Scan(Fresh(done), line + ("\n" + rest)) ==
            if Tokens(line).None? then None else Scan(Fresh(done + Tokens(line).value), rest)
  {
    FromFresh(done, line);
    LineEnds(Fresh(done), line, rest);
    var m := Scan(Fresh(done), line);
    hide Scan, Tokens, EndStatement;
    if m.Some? && !m.value.inQuotes {
      EndIsFresh(m.value);
    }
  }

  lemma {:induction false} LineByLineFrom(done: seq<Statement>, text: string)
    ensures Outcome(Scan(Fresh(done), text)) == After(done, TokensOf(Lines(text)))
    decreases |text|
  {
    var line := FirstLine(text);
    if '\n' !in text {
      FromFresh(done, line);
      TokensOfMore(line, []);
      assert Lines(text) == [line] + [];
      hide Scan, Tokens;
      if Tokens(line).Some? {
        assert Tokens(line).value + [] == Tokens(line).value;
      }
    } else {
      var rest := AfterLine(text);
      assert Lines(text) == [line] + Lines(rest);
      hide Scan, Tokens, TokensOf, Lines, Finished;
      TokensOfMore(line, Lines(rest));
      FirstLineDone(done, line, rest);
      if Tokens(line).Some? {
        LineByLineFrom(done + Tokens(line).value, rest);
        AfterBoth(done, Tokens(line).value, TokensOf(Lines(rest)));
      }
    }
  }

  /// Reading a configuration line by line gives exactly the statements of reading it whole, and one line fails
  /// just when the whole text does.
  lemma LineByLine(text: string)
    ensures Tokens(text) == TokensOf(Lines(text))
  {
    LineByLineFrom([], text);
    if TokensOf(Lines(text)).Some? {
      assert [] + TokensOf(Lines(text)).value == TokensOf(Lines(text)).value;
    }
  }
}
