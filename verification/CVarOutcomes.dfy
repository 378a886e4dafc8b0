/// What console text means: the statements a text stands for, what one statement does, and what a text and a
/// configuration make of their statements and lines (engine/core/src/cvar.cpp:40-99, 296-408).
module CVarOutcomes {
  import opened CVarConfig
  import opened CVarLines
  import opened CVarSaved
  import opened CVarText
  import opened Options

  // -- The statements of a text --------------------------------------------------------------

  /// How a statement may end.
  datatype Ending = Semicolon | Feed | Slashes(comment: string) | Hash(comment: string)

  datatype Written = Written(tokens: Statement, ending: Ending)

  function Ended(e: Ending): string {
    match e
    case Semicolon => ";"
    case Feed => "\n"
    case Slashes(comment) => " //" + (comment + "\n")
    case Hash(comment) => " #" + (comment + "\n")
  }

  /// The tokens with spaces between them, each quoted when it must be.
  function Shown(tokens: Statement): string {
    if tokens == [] then ""
    else Quoted(tokens[0]) + if |tokens| == 1 then "" else " " + Shown(tokens[1..])
  }

  function Program(statements: seq<Written>): string {
    if statements == [] then ""
    else Shown(statements[0].tokens) + (Ended(statements[0].ending) + Program(statements[1..]))
  }

  predicate WellWritten(s: Written) {
    && s.tokens != [] && (forall k :: 0 <= k < |s.tokens| ==> Safe(s.tokens[k]))
    && (s.ending.Slashes? || s.ending.Hash? ==> '\n' !in s.ending.comment)
  }

  function StatementsOf(written: seq<Written>): (statements: seq<Statement>)
    ensures |statements| == |written| && forall k :: 0 <= k < |written| ==> statements[k] == written[k].tokens
  {
    seq(|written|, k requires 0 <= k < |written| => written[k].tokens)
  }

  predicate BetweenTokens(l: Lexer) {
    !l.inQuotes && !l.inToken && l.token == ""
  }

  lemma {:induction false} TokensScan(l: Lexer, tokens: Statement, rest: string)
    requires BetweenTokens(l) && tokens != [] && forall k :: 0 <= k < |tokens| ==> Safe(tokens[k])
    ensures var n := |tokens| - 1;
      Scan(l, Shown(tokens) + rest)
      == Scan(l.(current := l.current + tokens[..n], token := tokens[n], inToken := true), rest)
    decreases |tokens|
  {
    hide Scan, Quoted, Safe;
    if |tokens| == 1 {
      assert Shown(tokens) + rest == Quoted(tokens[0]) + rest;
      QuotedScan(l, tokens[0], rest);
      assert l.current + tokens[..0] == l.current;
    } else {
      var more := Shown(tokens[1..]) + rest;
      assert Shown(tokens) + rest == Quoted(tokens[0]) + ([' '] + more);
      QuotedScan(l, tokens[0], [' '] + more);
      SpaceScan(l.(token := tokens[0], inToken := true), more);
      var next := l.(current := l.current + [tokens[0]]);
      TokensScan(next, tokens[1..], rest);
      assert next.current + tokens[1..][..|tokens| - 2] == l.current + tokens[..|tokens| - 1];
    }
  }

  lemma CommentScan(l: Lexer, mark: string, comment: string, rest: string)
    requires !l.inQuotes && !l.inToken && '\n' !in comment && (mark == "//" || mark == "#")
    ensures Scan(l, mark + (comment + "\n") + rest) == Scan(EndStatement(l), rest)
  {
    var text := mark + (comment + "\n") + rest;
    assert text == (mark + comment) + ("\n" + rest);
    AfterLinePast(mark + comment, "\n" + rest);
    assert ("\n" + rest)[1..] == rest;
    assert text[0] == mark[0] && (mark == "//" ==> text[1] == '/');
    assert Step(l, text) == Some(EndStatement(l)) && Rest(l, text) == rest;
  }

  lemma EndScan(l: Lexer, c: char, rest: string)
    requires !l.inQuotes && (c == ';' || c == '\n')
    ensures Scan(l, [c] + rest) == Scan(EndStatement(l), rest)
  {
    assert ([c] + rest)[1..] == rest;
    assert Step(l, [c] + rest) == Some(EndStatement(l)) && Rest(l, [c] + rest) == rest;
  }

  lemma EndsOnce(l: Lexer)
    ensures EndStatement(EndToken(l)) == EndStatement(l)
    ensures !EndToken(l).inToken && EndToken(l).inQuotes == l.inQuotes
  {
  }

  lemma EndingScan(l: Lexer, e: Ending, rest: string)
    requires !l.inQuotes && (e.Slashes? || e.Hash? ==> '\n' !in e.comment)
    ensures Scan(l, Ended(e) + rest) == Scan(EndStatement(l), rest)
  {
    hide Scan, EndStatement, EndToken;
    EndsOnce(l);
    match e
    case Semicolon => EndScan(l, ';', rest);
    case Feed => EndScan(l, '\n', rest);
    case Slashes(comment) =>
      assert Ended(e) + rest == [' '] + ("//" + (comment + "\n") + rest);
      SpaceScan(l, "//" + (comment + "\n") + rest);
      CommentScan(EndToken(l), "//", comment, rest);
    case Hash(comment) =>
      assert Ended(e) + rest == [' '] + ("#" + (comment + "\n") + rest);
      SpaceScan(l, "#" + (comment + "\n") + rest);
      CommentScan(EndToken(l), "#", comment, rest);
  }

  lemma WrittenScan(done: seq<Statement>, s: Written, more: string)
    requires WellWritten(s)
    ensures Scan(Fresh(done), Shown(s.tokens) + (Ended(s.ending) + more)) == Scan(Fresh(done + [s.tokens]), more)
  {
    hide Scan, Shown, Ended, Safe;
    var n := |s.tokens| - 1;
    TokensScan(Fresh(done), s.tokens, Ended(s.ending) + more);
    var l := Fresh(done).(current := [] + s.tokens[..n], token := s.tokens[n], inToken := true);
    EndingScan(l, s.ending, more);
    assert [] + s.tokens[..n] + [s.tokens[n]] == s.tokens;
  }

  /// What a text is tokenized to once it was scanned.
  lemma ScannedAll(text: string, l: Lexer)
    requires Scan(Fresh([]), text) == Scan(l, "") && !l.inQuotes
    ensures Tokens(text) == Some(EndToken(l).done + if EndToken(l).current == [] then [] else [EndToken(l).current])
  {
  }

  /// Any statements, each ended by a semicolon, a line feed or a comment of either kind, are tokenized to themselves.
  lemma ProgramReadsBack(written: seq<Written>)
    requires forall k :: 0 <= k < |written| ==> WellWritten(written[k])
    ensures Tokens(Program(written)) == Some(StatementsOf(written))
  {
    hide Scan, Program, WellWritten, Tokens;
    ScanOn(Fresh([]), written, "");
    assert Program(written) + "" == Program(written) && [] + StatementsOf(written) == StatementsOf(written);
    ScannedAll(Program(written), Fresh(StatementsOf(written)));
    assert StatementsOf(written) + [] == StatementsOf(written);
  }

  lemma QuotedStep(l: Lexer, v: string, rest: string)
    requires l.inQuotes && v != "" && v[0] != '"' && v[0] != '\\' && v[0] != '\n'
    ensures Scan(l, v + rest) == Scan(l.(token := l.token + [v[0]]), v[1..] + rest)
  {
    assert (v + rest)[0] == v[0] && (v + rest)[1..] == v[1..] + rest;
    assert Step(l, v + rest) == Some(l.(token := l.token + [v[0]]));
  }

  lemma {:induction false} InQuotes(l: Lexer, v: string, rest: string)
    requires l.inQuotes && '"' !in v && '\\' !in v && '\n' !in v && (rest == "" || rest[0] == '\n')
    ensures Scan(l, v + rest) == if rest == "" then Some(l.(token := l.token + v)) else None
    decreases |v|
  {
    if v == "" {
      assert v + rest == rest && l.token + v == l.token;
    } else {
      QuotedStep(l, v, rest);
      hide Step, Rest, EscapesNext;
      InQuotes(l.(token := l.token + [v[0]]), v[1..], rest);
      assert l.token + [v[0]] + v[1..] == l.token + v;
    }
  }

  /// A quoted string that is not closed before its line or the text ends makes the text unreadable, whatever precedes
  /// it.
  lemma UnclosedFails(written: seq<Written>, v: string, rest: string)
    requires forall k :: 0 <= k < |written| ==> WellWritten(written[k])
    requires '"' !in v && '\\' !in v && '\n' !in v && (rest == "" || rest[0] == '\n')
    ensures Tokens(Program(written) + ("\"" + (v + rest))) == None
  {
    ScanOn(Fresh([]), written, "\"" + (v + rest));
    var l := Fresh([] + StatementsOf(written));
    assert ("\"" + (v + rest))[1..] == v + rest;
    InQuotes(l.(inQuotes := true, inToken := true), v, rest);
  }

  lemma ProgramSplits(written: seq<Written>, rest: string)
    requires written != []
    ensures Program(written) + rest
            == Shown(written[0].tokens) + (Ended(written[0].ending) + (Program(written[1..]) + rest))
  {
    Reassociated(Shown(written[0].tokens), Ended(written[0].ending), Program(written[1..]), rest);
  }

  lemma Reassociated(a: string, b: string, c: string, d: string)
    ensures a + (b + c) + d == a + (b + (c + d))
  {
  }

  lemma StatementsSplit(done: seq<Statement>, written: seq<Written>)
    requires written != []
    ensures done + [written[0].tokens] + StatementsOf(written[1..]) == done + StatementsOf(written)
  {
  }

  lemma {:induction false} ScanOn(l: Lexer, written: seq<Written>, rest: string)
    requires forall k :: 0 <= k < |written| ==> WellWritten(written[k])
    requires l == Fresh(l.done)
    ensures Scan(l, Program(written) + rest) == Scan(Fresh(l.done + StatementsOf(written)), rest)
    decreases |written|
  {
    hide Scan, Shown, Ended, WellWritten;
    if written == [] {
      assert Program(written) + rest == rest && l.done + StatementsOf(written) == l.done;
    } else {
      ProgramSplits(written, rest);
      StatementsSplit(l.done, written);
      hide Program, StatementsOf;
      WrittenScan(l.done, written[0], Program(written[1..]) + rest);
      ScanOn(Fresh(l.done + [written[0].tokens]), written[1..], rest);
    }
  }

  /// Inside a token a number sign is a character like any other.
  lemma HashInToken(first: string, second: string)
    requires PlainName(first) && PlainText(second)
    ensures Tokens(first + ("#" + second)) == Some([[first + ("#" + second)]])
  {
    hide Scan, Tokens;
    var text := first + ("#" + second);
    var l := Fresh([]).(token := first, inToken := true);
    assert "" + first == first;
    PlainScan(Fresh([]), first, "#" + second);
    HashStep(l, second);
    PlainScan(l.(token := first + "#"), second, "");
    assert second + "" == second && first + "#" + second == text && (second == "" ==> first + "#" == text);
    ScannedAll(text, l.(token := text));
    assert [] + [text] == [text] && [] + [[text]] == [[text]];
  }

  lemma HashStep(l: Lexer, rest: string)
    requires !l.inQuotes && l.inToken
    ensures Scan(l, "#" + rest) == Scan(l.(token := l.token + "#"), rest)
  {
    assert ("#" + rest)[1..] == rest;
    assert Step(l, "#" + rest) == Some(l.(token := l.token + "#"));
  }

  // -- Saving --------------------------------------------------------------------------------

  predicate Special(c: char) {
    c == ' ' || c == '\t' || c == ';' || c == '"' || c == '/' || c == '#'
  }

  /// A value is written as it is unless it is empty or has a space, a tab, a semicolon, a quote, a slash or a number
  /// sign; then it stands in quotes.
  lemma QuotedOnlyWhenNeeded(value: string)
    ensures Quoted(value)
            == if value != "" && forall i :: 0 <= i < |value| ==> !Special(value[i]) then value
               else "\"" + Escaped(value) + "\""
    ensures |Escaped(value)| >= |value|
    ensures '"' !in value && '\\' !in value ==> Escaped(value) == value
  {
    EscapedLength(value);
    if c :| c in value && IsSpecial(c) {
      var i :| 0 <= i < |value| && value[i] == c;
      assert Special(value[i]);
    }
    if i :| 0 <= i < |value| && Special(value[i]) { assert value[i] in value; }
  }

  lemma {:induction false} EscapedLength(value: string)
    ensures |Escaped(value)| >= |value|
    ensures '"' !in value && '\\' !in value ==> Escaped(value) == value
    decreases |value|
  {
    if value != "" {
      EscapedLength(value[1..]);
      assert value == [value[0]] + value[1..];
    }
  }

  /// What restorable means for one variable: nothing to save, or a value without line feeds, with a carriage return
  /// only where something else has it quoted, in a variable that this side may write.
  lemma RestorableIff(v: Variable, client: bool)
    ensures Restorable(v, client) <==>
            || !v.saved || v.value == v.defaultValue
            || (&& (forall i :: 0 <= i < |v.value| ==> v.value[i] != '\n')
                && ((forall i :: 0 <= i < |v.value| ==> v.value[i] != '\r')
                    || exists i :: 0 <= i < |v.value| && Special(v.value[i]))
                && !(v.replicated && client))
  {
    if c :| c in v.value && IsSpecial(c) {
      var i :| 0 <= i < |v.value| && v.value[i] == c;
      assert Special(v.value[i]);
    }
    if i :| 0 <= i < |v.value| && Special(v.value[i]) { assert v.value[i] in v.value; }
  }

  /// The line of a saved variable that differs from its default, and nothing for any other.
  function SavedLine(v: Variable): string {
    if v.saved && v.value != v.defaultValue then v.name + " " + Quoted(v.value) + "\n" else ""
  }

  /// The saved text is the lines of the saved variables that differ from their defaults, in key order.
  lemma {:induction false} SavedLines(vars: map<string, Variable>, keys: seq<string>) returns (parts: seq<string>)
    requires forall key :: key in keys ==> key in vars
    ensures |parts| == |keys| && forall k :: 0 <= k < |keys| ==> parts[k] == SavedLine(vars[keys[k]])
    ensures Serialized(vars, keys) == Concat(parts)
    decreases |keys|
  {
    parts := [];
    if keys != [] {
      var rest := SavedLines(vars, keys[1..]);
      hide Quoted;
      parts := [SavedLine(vars[keys[0]])] + rest;
      assert parts[1..] == rest;
    }
  }

  function Concat(lines: seq<string>): string {
    if lines == [] then "" else lines[0] + Concat(lines[1..])
  }

  // -- One statement -------------------------------------------------------------------------

  function Key(tokens: Statement, k: nat): string
    requires k < |tokens|
  {
    LowerKey(tokens[k])
  }

  /// Names are compared without regard to the case of ASCII letters.
  lemma KeyFoldsCase(a: string, b: string)
    ensures LowerKey(a) == LowerKey(b) <==>
            |a| == |b| && forall i :: 0 <= i < |a| ==>
              a[i] == b[i] || ('A' <= a[i] <= 'Z' && b[i] as int == a[i] as int + 32)
              || ('A' <= b[i] <= 'Z' && a[i] as int == b[i] as int + 32)
  {
    if LowerKey(a) == LowerKey(b) {
      forall i | 0 <= i < |a|
        ensures a[i] == b[i] || ('A' <= a[i] <= 'Z' && b[i] as int == a[i] as int + 32)
                || ('A' <= b[i] <= 'Z' && a[i] as int == b[i] as int + 32)
      {
        assert LowerKey(a)[i] == LowerKey(b)[i];
      }
    }
  }

  predicate IsVerb(key: string) {
    key == "set" || key == "get" || key == "reset" || key == "toggle" || key == "list" || key == "help"
  }

  /// What the statement gives the variable called `key`, if it is about giving it a value.
  function Given(r: Registry, tokens: Statement, key: string): Option<string> {
    if |tokens| == 3 && Key(tokens, 0) == "set" && Key(tokens, 1) == key then Some(tokens[2])
    else if |tokens| == 2 && Key(tokens, 0) == key && !IsVerb(key) then Some(tokens[1])
    else if |tokens| == 2 && Key(tokens, 0) == "reset" && Key(tokens, 1) == key && key in r.vars
    then Some(r.vars[key].defaultValue)
    else None
  }

  predicate Locked(r: Registry, key: string) {
    key in r.vars && r.vars[key].replicated && r.client
  }

  /// A statement writes a variable exactly when it gives it a value and the variable is not one that the server
  /// writes for this client; a value given to an unknown name waits for it, and nothing else changes.
  lemma StatementWrites(r: Registry, tokens: Statement, key: string)
    ensures var t := Perform(r, tokens).registry; var given := Given(r, tokens, key);
      && (key in t.vars <==> key in r.vars)
      && (key in r.vars ==>
            t.vars[key] == if given.Some? && !Locked(r, key) then r.vars[key].(value := given.value) else r.vars[key])
      && (key in t.pending <==> key in r.pending || (given.Some? && key !in r.vars))
      && (key in t.pending ==>
            t.pending[key] == if given.Some? && key !in r.vars then given.value else r.pending[key])
      && t.client == r.client
  {
  }

  /// When and how a statement fails: a wrong number of words, a name that no variable has, or a locked variable.
  lemma StatementFails(r: Registry, tokens: Statement)
    ensures var failure := Perform(r, tokens).failure;
      if tokens == [] then failure == None
      else
        var n, verb := |tokens|, Key(tokens, 0);
        && (failure == Some(InvalidArgument) <==>
              || (verb == "set" && n != 3)
              || ((verb == "get" || verb == "reset" || verb == "toggle") && n != 2)
              || (verb == "toggle" && n == 2 && Key(tokens, 1) in r.vars)
              || (!IsVerb(verb) && verb in r.vars && n > 2))
        && (failure == Some(NotFound) <==>
              || ((verb == "get" || verb == "reset" || verb == "toggle") && n == 2 && Key(tokens, 1) !in r.vars)
              || (!IsVerb(verb) && verb !in r.vars && n != 2))
        && (failure == Some(PermissionDenied) <==>
              || (verb == "set" && n == 3 && Locked(r, Key(tokens, 1)))
              || (verb == "reset" && n == 2 && Locked(r, Key(tokens, 1)))
              || (!IsVerb(verb) && n == 2 && Locked(r, verb)))
        && failure != Some(ParseError)
  {
  }

  // -- Texts and configurations --------------------------------------------------------------

  /// A text that cannot be tokenized does nothing. Otherwise its statements run in order, each on what the one before
  /// left, up to the first that fails, whose failure is that of the text.
  lemma TextRunsStatements(r: Registry, text: string) returns (states: seq<Registry>)
    ensures Tokens(text) == None ==> Execute(r, text) == Executed(r, Some(ParseError))
    ensures Tokens(text).Some? ==>
              var statements, done := Tokens(text).value, Execute(r, text);
              && 0 < |states| <= |statements| + 1 && states[0] == r && states[|states| - 1] == done.registry
              && (forall i :: 0 <= i < |states| - 1 ==> states[i + 1] == Perform(states[i], statements[i]).registry)
              && (forall i :: 0 <= i < |states| - 2 ==> Perform(states[i], statements[i]).failure == None)
              && (done.failure == None ==>
                    |states| == |statements| + 1
                    && forall i :: 0 <= i < |statements| ==> Perform(states[i], statements[i]).failure == None)
              && (done.failure.Some? ==>
                    |states| > 1 && Perform(states[|states| - 2], statements[|states| - 2]).failure == done.failure)
  {
    states := [];
    if Tokens(text).Some? { states := RunsUpToFailure(r, Tokens(text).value); }
  }

  lemma {:induction false} RunsUpToFailure(r: Registry, statements: seq<Statement>) returns (states: seq<Registry>)
    ensures var done := PerformAll(r, statements);
      && 0 < |states| <= |statements| + 1 && states[0] == r && states[|states| - 1] == done.registry
      && (forall i :: 0 <= i < |states| - 1 ==> states[i + 1] == Perform(states[i], statements[i]).registry)
      && (forall i :: 0 <= i < |states| - 2 ==> Perform(states[i], statements[i]).failure == None)
      && (done.failure == None ==>
            |states| == |statements| + 1
            && forall i :: 0 <= i < |statements| ==> Perform(states[i], statements[i]).failure == None)
      && (done.failure.Some? ==>
            |states| > 1 && Perform(states[|states| - 2], statements[|states| - 2]).failure == done.failure)
    decreases |statements|
  {
    hide Perform;
    states := [r];
    if statements != [] {
      var first := Perform(r, statements[0]);
      var later := [first.registry];
      if first.failure.None? { later := RunsUpToFailure(first.registry, statements[1..]); }
      states := [r] + later;
    }
  }

  predicate Blank(line: string) {
    Trim(line) == ""
  }

  predicate LineFails(r: Registry, line: string) {
    !Blank(line) && Execute(r, Trim(line)).failure.Some?
  }

  function LineRun(r: Registry, line: string): Registry {
    if Blank(line) then r else Execute(r, Trim(line)).registry
  }

  /// A configuration runs every line that is not blank, whether or not lines before it failed, and counts those that
  /// fail.
  lemma ConfigRunsEveryLine(r: Registry, lines: seq<string>) returns (states: seq<Registry>, failed: seq<nat>)
    ensures |states| == |failed| == |lines| + 1
    ensures states[0] == r && states[|lines|] == ConfigLines(r, lines).registry
    ensures forall i :: 0 <= i < |lines| ==> states[i + 1] == LineRun(states[i], lines[i])
    ensures failed[0] == 0 && failed[|lines|] == ConfigLines(r, lines).failures
    ensures forall i :: 0 <= i < |lines| ==>
              failed[i + 1] == failed[i] + if LineFails(states[i], lines[i]) then 1 else 0
  {
    states, failed := ConfigRunsFrom(r, lines, 0);
  }

  lemma {:induction false} ConfigRunsFrom(r: Registry, lines: seq<string>, before: nat)
      returns (states: seq<Registry>, failed: seq<nat>)
    ensures |states| == |failed| == |lines| + 1
    ensures states[0] == r && states[|lines|] == ConfigLines(r, lines).registry
    ensures forall i :: 0 <= i < |lines| ==> states[i + 1] == LineRun(states[i], lines[i])
    ensures failed[0] == before && failed[|lines|] == before + ConfigLines(r, lines).failures
    ensures forall i :: 0 <= i < |lines| ==>
              failed[i + 1] == failed[i] + if LineFails(states[i], lines[i]) then 1 else 0
    decreases |lines|
  {
    states, failed := [r], [before];
    if lines != [] {
      FirstLineRuns(r, lines);
      hide LineRun, LineFails, ConfigLines;
      var more, counts := ConfigRunsFrom(LineRun(r, lines[0]), lines[1..],
                                         before + if LineFails(r, lines[0]) then 1 else 0);
      states, failed := [r] + more, [before] + counts;
    }
  }

  lemma FirstLineRuns(r: Registry, lines: seq<string>)
    requires lines != []
    ensures ConfigLines(r, lines).registry == ConfigLines(LineRun(r, lines[0]), lines[1..]).registry
    ensures ConfigLines(r, lines).failures
            == (if LineFails(r, lines[0]) then 1 else 0) + ConfigLines(LineRun(r, lines[0]), lines[1..]).failures
  {
    hide Execute, Trim;
  }

  /// Trimming cuts the spaces, tabs and carriage returns at both ends, and nothing else.
  lemma TrimIsExact(s: string) returns (from: nat, end: nat)
    ensures from <= end <= |s| && Trim(s) == s[from..end]
    ensures forall k :: 0 <= k < from || end <= k < |s| ==> s[k] == ' ' || s[k] == '\t' || s[k] == '\r'
    ensures from < end ==>
              && s[from] != ' ' && s[from] != '\t' && s[from] != '\r'
              && s[end - 1] != ' ' && s[end - 1] != '\t' && s[end - 1] != '\r'
  {
    from := LeftTrimmed(s);
    var n := RightTrimmed(s[from..]);
    end := from + n;
    assert s[from..][..n] == s[from..end];
    forall k | end <= k < |s| ensures s[k] == ' ' || s[k] == '\t' || s[k] == '\r' {
      assert s[from..][k - from] == s[k];
    }
  }

  lemma {:induction false} LeftTrimmed(s: string) returns (from: nat)
    ensures from <= |s| && TrimLeft(s) == s[from..]
    ensures forall k :: 0 <= k < from ==> IsSpace(s[k])
    ensures from < |s| ==> !IsSpace(s[from])
    decreases |s|
  {
    from := 0;
    if s != "" && IsSpace(s[0]) {
      var more := LeftTrimmed(s[1..]);
      from := more + 1;
      assert s[1..][more..] == s[from..];
      forall k | 0 < k < from ensures IsSpace(s[k]) { assert s[1..][k - 1] == s[k]; }
    }
  }

  lemma {:induction false} RightTrimmed(s: string) returns (end: nat)
    ensures end <= |s| && TrimRight(s) == s[..end]
    ensures forall k :: end <= k < |s| ==> IsSpace(s[k])
    ensures end > 0 ==> !IsSpace(s[end - 1])
    decreases |s|
  {
    end := |s|;
    if s != "" && IsSpace(s[|s| - 1]) {
      end := RightTrimmed(s[..|s| - 1]);
      assert s[..|s| - 1][..end] == s[..end];
    }
  }
}
