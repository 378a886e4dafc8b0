/// The text form of console variables: quoting and the tokenizer (quoteIfNeeded and tokenize in
/// engine/core/src/cvar.cpp).
module CVarText {
  import opened Options

  predicate IsSpace(c: char) {
    c == ' ' || c == '\t' || c == '\r'
  }

  /// The characters for which a value is quoted.
  predicate IsSpecial(c: char) {
    c == ' ' || c == '\t' || c == ';' || c == '"' || c == '/' || c == '#'
  }

  predicate NeedsQuotes(value: string) {
    value == "" || exists c :: c in value && IsSpecial(c)
  }

  function Escaped(value: string): string {
    if value == "" then ""
    else (if value[0] == '"' || value[0] == '\\' then ['\\', value[0]] else [value[0]]) + Escaped(value[1..])
  }

  function Quoted(value: string): string {
    if NeedsQuotes(value) then "\"" + Escaped(value) + "\"" else value
  }

  /// The loop that writes the escaped value.
  method QuoteIfNeeded(value: string) returns (out: string)
    ensures out == Quoted(value)
  {
    var i := 0;
    while i < |value| && !IsSpecial(value[i])
      invariant 0 <= i <= |value| && forall k :: 0 <= k < i ==> !IsSpecial(value[k])
    {
      i := i + 1;
    }
    if value != "" && i == |value| {
      return value;
    }
    assert value != "" ==> value[i] in value;
    out := "\"";
    i := 0;
    while i < |value|
      invariant 0 <= i <= |value| && out + Escaped(value[i..]) == "\"" + Escaped(value)
    {
      var c := value[i];
      assert value[i..][1..] == value[i + 1..];
      if c == '"' || c == '\\' {
        out := out + ['\\'];
      }
      out := out + [c];
      i := i + 1;
    }
    assert out + Escaped("") == out;
    out := out + "\"";
  }

  // -- The tokenizer -------------------------------------------------------------------------

  type Statement = seq<string>

  datatype Lexer = Lexer(done: seq<Statement>, current: Statement, token: string, inToken: bool, inQuotes: bool)

  function Fresh(done: seq<Statement>): Lexer {
    Lexer(done, [], "", false, false)
  }

  function EndToken(l: Lexer): Lexer {
    l.(current := if l.inToken then l.current + [l.token] else l.current, token := "", inToken := false)
  }

  function EndStatement(l: Lexer): Lexer {
    var e := EndToken(l);
    if e.current != [] then e.(done := e.done + [e.current], current := []) else e
  }

  /// What follows the end of the line.
  function AfterLine(t: string): (rest: string)
    ensures |rest| <= |t| && (t != "" ==> |rest| < |t|)
  {
    if t == "" then "" else if t[0] == '\n' then t[1..] else AfterLine(t[1..])
  }

  predicate StartsComment(l: Lexer, t: string)
    requires t != ""
  {
    (t[0] == '/' && |t| > 1 && t[1] == '/') || (t[0] == '#' && !l.inToken)
  }

  predicate EscapesNext(t: string)
    requires t != ""
  {
    t[0] == '\\' && |t| > 1 && (t[1] == '"' || t[1] == '\\')
  }

  /// One step outside a comment: the lexer after the first character, or None for an error.
  function Step(l: Lexer, t: string): Option<Lexer>
    requires t != ""
  {
    var c := t[0];
    if l.inQuotes then
      if EscapesNext(t) then Some(l.(token := l.token + [t[1]]))
      else if c == '"' then Some(l.(inQuotes := false))
      else if c == '\n' then None
      else Some(l.(token := l.token + [c]))
    else if c == '"' then Some(l.(inQuotes := true, inToken := true))
    else if c == ';' || c == '\n' then Some(EndStatement(l))
    else if IsSpace(c) then Some(EndToken(l))
    else if StartsComment(l, t) then Some(EndStatement(l))
    else Some(l.(token := l.token + [c], inToken := true))
  }

  /// What is left after that step.
  function Rest(l: Lexer, t: string): (rest: string)
    requires t != ""
    ensures |rest| < |t|
  {
    if l.inQuotes then if EscapesNext(t) then t[2..] else t[1..]
    else if StartsComment(l, t) then AfterLine(t)
    else t[1..]
  }

  function Scan(l: Lexer, t: string): Option<Lexer>
    decreases |t|
  {
    if t == "" then Some(l)
    else if Step(l, t).None? then None
    else Scan(Step(l, t).value, Rest(l, t))
  }

  /// The statements once the text has ended, or None for an unterminated quoted string.
  function Finished(l: Lexer): Option<seq<Statement>> {
    if l.inQuotes then None
    else
      var e := EndToken(l);
      Some(e.done + if e.current == [] then [] else [e.current])
  }

  function Tokens(text: string): Option<seq<Statement>> {
    var l := Scan(Fresh([]), text);
    if l.None? then None else Finished(l.value)
  }

  lemma Dropped(text: string, i: nat)
    requires i < |text|
    ensures text[i..] != "" && text[i..][0] == text[i] && text[i..][1..] == text[i + 1..]
    ensures i + 1 < |text| ==> text[i..][1] == text[i + 1] && text[i..][2..] == text[i + 2..]
  {
  }

  /// The loop over a comment: to the end of the line or of the text.
  method SkipLine(text: string, start: nat) returns (i: nat)
    requires start < |text|
    ensures start <= i <= |text| && (i < |text| ==> text[i] == '\n')
    ensures AfterLine(text[start..]) == if i < |text| then text[i + 1..] else ""
  {
    i := start;
    while i < |text| && text[i] != '\n'
      invariant start <= i <= |text| && AfterLine(text[start..]) == AfterLine(text[i..])
    {
      Dropped(text, i);
      i := i + 1;
    }
    if i < |text| { Dropped(text, i); }
  }

  /// One character, escape or comment.
  method TakeStep(text: string, start: nat, l: Lexer) returns (next: Option<Lexer>, i: nat)
    requires start < |text|
    ensures next == Step(l, text[start..]) && start < i <= |text|
    ensures next.Some? ==> text[i..] == Rest(l, text[start..])
  {
    Dropped(text, start);
    i := start;
    var c := text[i];
    if l.inQuotes {
      if c == '\\' && i + 1 < |text| && (text[i + 1] == '"' || text[i + 1] == '\\') {
        i := i + 1;
        next := Some(l.(token := l.token + [text[i]]));
      } else if c == '"' {
        next := Some(l.(inQuotes := false));
      } else if c == '\n' {
        next := None;
      } else {
        next := Some(l.(token := l.token + [c]));
      }
      return next, i + 1;
    }
    if c == '"' {
      next := Some(l.(inQuotes := true, inToken := true));
    } else if c == ';' || c == '\n' {
      next := Some(EndStatement(l));
    } else if c == ' ' || c == '\t' || c == '\r' {
      next := Some(EndToken(l));
    } else if (c == '/' && i + 1 < |text| && text[i + 1] == '/') || (c == '#' && !l.inToken) {
      i := SkipLine(text, i);
      next := Some(EndStatement(l));
      if i == |text| {
        return;
      }
    } else {
      next := Some(l.(token := l.token + [c], inToken := true));
    }
    i := i + 1;
  }

  method Tokenize(text: string) returns (statements: Option<seq<Statement>>)
    ensures statements == Tokens(text)
  {
    var l := Fresh([]);
    var i := 0;
    assert text[0..] == text;
    while i < |text|
      invariant 0 <= i <= |text| && Scan(Fresh([]), text) == Scan(l, text[i..])
    {
      var next, j := TakeStep(text, i, l);
      if next.None? {
        return None;
      }
      l, i := next.value, j;
    }
    assert text[i..] == "";
    if l.inQuotes {
      return None;
    }
    l := EndToken(l);
    return Some(l.done + if l.current == [] then [] else [l.current]);
  }

  // -- Quoting and reading back --------------------------------------------------------------

  /// The values that one line of text can carry: no line feed, and a carriage return only in quotes.
  predicate Safe(value: string) {
    '\n' !in value && ('\r' in value ==> NeedsQuotes(value))
  }

  predicate PlainText(s: string) {
    forall k :: 0 <= k < |s| ==> !IsSpecial(s[k]) && s[k] != '\r' && s[k] != '\n'
  }

  lemma {:induction false} PlainScan(l: Lexer, s: string, rest: string)
    requires PlainText(s) && !l.inQuotes
    ensures Scan(l, s + rest) == Scan(if s == "" then l else l.(token := l.token + s, inToken := true), rest)
    decreases |s|
  {
    if s == "" {
      assert s + rest == rest;
    } else {
      assert (s + rest)[1..] == s[1..] + rest;
      var next := l.(token := l.token + [s[0]], inToken := true);
      PlainScan(next, s[1..], rest);
      assert l.token + [s[0]] + s[1..] == l.token + s;
      if s[1..] == "" { assert [s[0]] == s; }
    }
  }

  /// Inside quotes, an escaped character is read back as the character.
  lemma EscapedStep(l: Lexer, c: char, more: string)
    requires c != '\n' && l.inQuotes
    ensures var t := Escaped([c]) + more;
      t != "" && Step(l, t) == Some(l.(token := l.token + [c])) && Rest(l, t) == more
  {
    var one := if c == '"' || c == '\\' then ['\\', c] else [c];
    assert [c][1..] == "";
    assert Escaped([c]) == one + "" == one;
    assert (one + more)[|one|..] == more;
  }

  lemma {:induction false} EscapedScan(l: Lexer, v: string, rest: string)
    requires '\n' !in v && l.inQuotes
    ensures Scan(l, Escaped(v) + ("\"" + rest)) == Scan(l.(token := l.token + v, inQuotes := false), rest)
    decreases |v|
  {
    var tail := "\"" + rest;
    if v == "" {
      assert Escaped(v) + tail == tail && tail[1..] == rest && l.token + v == l.token;
    } else {
      var more := Escaped(v[1..]) + tail;
      var one := Escaped([v[0]]);
      EscapedSplits(v);
      assert Escaped(v) + tail == one + more;
      EscapedStep(l, v[0], more);
      hide Step, Rest, Escaped;
      assert l.token + [v[0]] + v[1..] == l.token + v;
      EscapedScan(l.(token := l.token + [v[0]]), v[1..], rest);
    }
  }

  lemma EscapedSplits(v: string)
    requires v != ""
    ensures Escaped(v) == Escaped([v[0]]) + Escaped(v[1..])
  {
    assert [v[0]][1..] == "";
    assert Escaped([v[0]]) == if v[0] == '"' || v[0] == '\\' then ['\\', v[0]] else [v[0]];
  }

  lemma QuotedScan(l: Lexer, value: string, rest: string)
    requires Safe(value) && !l.inQuotes && !l.inToken && l.token == ""
    ensures Scan(l, Quoted(value) + rest) == Scan(l.(token := value, inToken := true), rest)
  {
    if NeedsQuotes(value) {
      var inside := l.(inQuotes := true, inToken := true);
      assert Quoted(value) + rest == ['"'] + (Escaped(value) + ("\"" + rest));
      assert (['"'] + (Escaped(value) + ("\"" + rest)))[1..] == Escaped(value) + ("\"" + rest);
      EscapedScan(inside, value, rest);
      assert "" + value == value;
    } else {
      forall k | 0 <= k < |value| ensures !IsSpecial(value[k]) && value[k] != '\r' && value[k] != '\n' {
        assert value[k] in value;
      }
      PlainScan(l, value, rest);
      assert "" + value == value;
    }
  }

  /// A saved variable's line.
  function Line(name: string, value: string): string {
    name + " " + Quoted(value)
  }

  predicate PlainName(name: string) {
    name != "" && PlainText(name)
  }

  lemma SpaceScan(l: Lexer, rest: string)
    requires !l.inQuotes
    ensures Scan(l, [' '] + rest) == Scan(EndToken(l), rest)
  {
    assert ([' '] + rest)[1..] == rest;
  }

  lemma LineScan(l: Lexer, name: string, value: string, rest: string)
    requires PlainName(name) && Safe(value) && l == Fresh(l.done)
    ensures Scan(l, Line(name, value) + rest) == Scan(l.(current := [name], token := value, inToken := true), rest)
  {
    hide Scan, Quoted, Safe;
    var q := Quoted(value);
    assert Line(name, value) + rest == name + ([' '] + (q + rest));
    PlainScan(l, name, [' '] + (q + rest));
    assert "" + name == name && [] + [name] == [name];
    SpaceScan(l.(token := name, inToken := true), q + rest);
    QuotedScan(l.(current := [name]), value, rest);
  }

  /// Tokenizing the line of a variable gives its name and its value back.
  lemma LineReadsBack(name: string, value: string)
    requires PlainName(name) && Safe(value)
    ensures Tokens(Line(name, value)) == Some([[name, value]])
  {
    var l := Fresh([]).(current := [name], token := value, inToken := true);
    LineScan(Fresh([]), name, value, "");
    assert Line(name, value) + "" == Line(name, value);
    assert Scan(l, "") == Some(l) == Scan(Fresh([]), Line(name, value));
    assert EndToken(l).current == [name] + [value] == [name, value];
    assert Finished(l) == Some([] + [[name, value]]);
    assert [] + [[name, value]] == [[name, value]];
  }
}
