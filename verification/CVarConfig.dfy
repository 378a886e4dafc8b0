/// Saving console variables as text and executing that text again (CVarRegistry::serializeSaved, executeConfig,
/// execute, executeStatement and set in engine/core/src/cvar.cpp), for variables of type String.
module CVarConfig {
  import opened Options
  import opened CVarText
  import opened CVarLines

  datatype Variable = Variable(name: string, value: string, defaultValue: string, saved: bool, replicated: bool)

  /// Variables and values for variables yet to come, by lower-case name; whether this is a replication client.
  datatype Registry = Registry(vars: map<string, Variable>, pending: map<string, string>, client: bool)

  datatype Failure = InvalidArgument | NotFound | PermissionDenied | ParseError

  /// What a statement or a text leaves, and why it failed, if it did.
  datatype Executed = Executed(registry: Registry, failure: Option<Failure>)

  datatype Configured = Configured(registry: Registry, failures: nat)

  function LowerChar(c: char): char {
    if 'A' <= c <= 'Z' then (c as int - 'A' as int + 'a' as int) as char else c
  }

  function LowerKey(name: string): (key: string)
    ensures |key| == |name|
  {
    seq(|name|, i requires 0 <= i < |name| => LowerChar(name[i]))
  }

  predicate Reserved(key: string) {
    key == "set" || key == "get" || key == "reset" || key == "toggle" || key == "list" || key == "help"
  }

  predicate Writable(r: Registry, key: string)
    requires key in r.vars
  {
    !(r.vars[key].replicated && r.client)
  }

  /// setFromString from a configuration.
  function Assign(r: Registry, key: string, value: string): Executed
    requires key in r.vars
  {
    if Writable(r, key) then Executed(r.(vars := r.vars[key := r.vars[key].(value := value)]), None)
    else Executed(r, Some(PermissionDenied))
  }

  function SetByName(r: Registry, name: string, value: string): Executed {
    var key := LowerKey(name);
    if key in r.vars then Assign(r, key, value) else Executed(r.(pending := r.pending[key := value]), None)
  }

  /// One statement of a configuration; there are no commands and every variable is a String.
  function Perform(r: Registry, tokens: Statement): Executed {
    if tokens == [] then Executed(r, None)
    else
      var verb := LowerKey(tokens[0]);
      if verb == "set" then
        if |tokens| != 3 then Executed(r, Some(InvalidArgument)) else SetByName(r, tokens[1], tokens[2])
      else if verb == "get" then
        Executed(r, if |tokens| != 2 then Some(InvalidArgument)
                    else if LowerKey(tokens[1]) !in r.vars then Some(NotFound) else None)
      else if verb == "reset" then
        if |tokens| != 2 then Executed(r, Some(InvalidArgument))
        else if LowerKey(tokens[1]) !in r.vars then Executed(r, Some(NotFound))
        else Assign(r, LowerKey(tokens[1]), r.vars[LowerKey(tokens[1])].defaultValue)
      else if verb == "toggle" then
        Executed(r, if |tokens| == 2 && LowerKey(tokens[1]) !in r.vars then Some(NotFound) else Some(InvalidArgument))
      else if verb == "list" || verb == "help" then Executed(r, None)
      else if verb in r.vars then
        if |tokens| == 1 then Executed(r, None)
        else if |tokens| == 2 then Assign(r, verb, tokens[1])
        else Executed(r, Some(InvalidArgument))
      else if |tokens| == 2 then SetByName(r, tokens[0], tokens[1])
      else Executed(r, Some(NotFound))
  }

  /// The statements in order up to the first that fails.
  function PerformAll(r: Registry, statements: seq<Statement>): Executed
    decreases |statements|
  {
    if statements == [] then Executed(r, None)
    else
      var first := Perform(r, statements[0]);
      if first.failure.None? then PerformAll(first.registry, statements[1..]) else first
  }

  function Execute(r: Registry, text: string): Executed {
    var statements := Tokens(text);
    if statements.None? then Executed(r, Some(ParseError)) else PerformAll(r, statements.value)
  }

  /// The lines that failed: one or none.
  function Failed(e: Executed): nat {
    if e.failure.None? then 0 else 1
  }

  function ConfigLines(r: Registry, lines: seq<string>): Configured
    decreases |lines|
  {
    if lines == [] then Configured(r, 0)
    else if Trim(lines[0]) == "" then ConfigLines(r, lines[1..])
    else
      var first := Execute(r, Trim(lines[0]));
      var more := ConfigLines(first.registry, lines[1..]);
      more.(failures := more.failures + Failed(first))
  }

  predicate NeedsSaving(v: Variable) {
    v.saved && v.value != v.defaultValue
  }

  function Serialized(vars: map<string, Variable>, keys: seq<string>): string
    requires forall key :: key in keys ==> key in vars
  {
    if keys == [] then ""
    else
      var v := vars[keys[0]];
      (if NeedsSaving(v) then Line(v.name, v.value) + "\n" else "") + Serialized(vars, keys[1..])
  }

  class CVarRegistry {
    var vars: map<string, Variable>
    var pending: map<string, string>
    var client: bool
    /// The keys in the order in which the map is walked.
    const keys: seq<string>

    constructor (vars: map<string, Variable>, keys: seq<string>, client: bool)
      requires (forall key :: key in keys ==> key in vars) && forall key :: key in vars ==> key in keys
      ensures Valid() && State() == Registry(vars, map[], client) && this.keys == keys
    {
      this.vars, this.keys, this.client, this.pending := vars, keys, client, map[];
    }

    ghost function State(): Registry
      reads this
    {
      Registry(vars, pending, client)
    }

    ghost predicate Valid()
      reads this
    {
      (forall key :: key in keys ==> key in vars) && forall key :: key in vars ==> key in keys
    }

    method Store(key: string, value: string) returns (failure: Option<Failure>)
      requires Valid() && key in vars
      modifies this`vars
      ensures Valid() && Executed(State(), failure) == Assign(old(State()), key, value)
    {
      if vars[key].replicated && client {
        return Some(PermissionDenied);
      }
      vars := vars[key := vars[key].(value := value)];
      return None;
    }

    method Set(name: string, value: string) returns (failure: Option<Failure>)
      requires Valid()
      modifies this`vars, this`pending
      ensures Valid() && Executed(State(), failure) == SetByName(old(State()), name, value)
    {
      var key := LowerKey(name);
      if key !in vars {
        pending := pending[key := value];
        return None;
      }
      failure := Store(key, value);
    }

    method ExecuteStatement(tokens: Statement) returns (failure: Option<Failure>)
      requires Valid()
      modifies this`vars, this`pending
      ensures Valid() && Executed(State(), failure) == Perform(old(State()), tokens)
    {
      if tokens == [] { return None; }
      var verb := LowerKey(tokens[0]);
      if verb == "set" {
        if |tokens| != 3 { return Some(InvalidArgument); }
        failure := Set(tokens[1], tokens[2]);
        return;
      }
      if verb == "get" {
        if |tokens| != 2 { return Some(InvalidArgument); }
        return if LowerKey(tokens[1]) in vars then None else Some(NotFound);
      }
      if verb == "reset" {
        if |tokens| != 2 { return Some(InvalidArgument); }
        var key := LowerKey(tokens[1]);
        if key !in vars { return Some(NotFound); }
        failure := Store(key, vars[key].defaultValue);
        return;
      }
      if verb == "toggle" {
        if |tokens| != 2 { return Some(InvalidArgument); }
        return if LowerKey(tokens[1]) !in vars then Some(NotFound) else Some(InvalidArgument);
      }
      if verb == "list" || verb == "help" { return None; }
      if verb in vars {
        if |tokens| == 1 { return None; }
        if |tokens| != 2 { return Some(InvalidArgument); }
        failure := Store(verb, tokens[1]);
        return;
      }
      if |tokens| != 2 { return Some(NotFound); }
      failure := Set(tokens[0], tokens[1]);
    }

    method ExecuteText(text: string) returns (failure: Option<Failure>)
      requires Valid()
      modifies this`vars, this`pending
      ensures Valid() && Executed(State(), failure) == Execute(old(State()), text)
    {
      var statements := Tokenize(text);
      if statements.None? { return Some(ParseError); }
      var i := 0;
      while i < |statements.value|
        invariant 0 <= i <= |statements.value| && Valid()
        invariant PerformAll(old(State()), statements.value) == PerformAll(State(), statements.value[i..])
      {
        assert statements.value[i..][0] == statements.value[i]
               && statements.value[i..][1..] == statements.value[i + 1..];
        failure := ExecuteStatement(statements.value[i]);
        if failure.Some? { return; }
        i := i + 1;
      }
      return None;
    }

    method ExecuteLine(text: string, start: nat, end: nat) returns (failed: nat)
      requires Valid() && start <= end <= |text|
      modifies this`vars, this`pending
      ensures Valid() && Configured(State(), failed) == ConfigLines(old(State()), [text[start..end]])
    {
      var line := TrimSpaces(text[start..end]);
      if line == "" { return 0; }
      var failure := ExecuteText(line);
      return if failure.None? then 0 else 1;
    }

    /// A configuration text, line by line: the number of lines that failed.
    method ExecuteConfig(text: string) returns (failures: nat)
      requires Valid()
      modifies this`vars, this`pending
      ensures Valid() && Configured(State(), failures) == ConfigLines(old(State()), Lines(text))
    {
      hide ConfigLines, Lines, Trim;
      failures := 0;
      var start := 0;
      assert text[0..] == text;
      ghost var all := ConfigLines(State(), Lines(text));
      while start <= |text|
        invariant 0 <= start <= |text| + 1 && Valid()
        invariant all == Plus(failures, ConfigLines(State(), LinesFrom(text, start)))
        decreases |text| + 1 - start
      {
        var end := FindFeed(text, start);
        LineFound(text, start, end);
        ConfigFirst(State(), text[start..end], LinesFrom(text, end + 1));
        var failed := ExecuteLine(text, start, end);
        failures := failures + failed;
        start := end + 1;
      }
      ConfigNone(State());
    }

    /// "name value" lines for the saved variables that differ from their defaults.
    method SerializeSaved() returns (out: string)
      requires Valid()
      ensures out == Serialized(vars, keys)
    {
      hide Line;
      out := "";
      var i := 0;
      assert keys[0..] == keys;
      while i < |keys|
        invariant 0 <= i <= |keys| && out + Serialized(vars, keys[i..]) == Serialized(vars, keys)
      {
        var v := vars[keys[i]];
        assert keys[i..][1..] == keys[i + 1..];
        LineThenRest(out, v, Serialized(vars, keys[i + 1..]));
        if v.saved && v.value != v.defaultValue {
          var q := QuoteIfNeeded(v.value);
          out := out + v.name;
          out := out + " ";
          out := out + q;
          out := out + "\n";
        }
        i := i + 1;
      }
      assert out + "" == out;
    }
  }

  lemma LineThenRest(out: string, v: Variable, rest: string)
    ensures ((out + v.name) + " " + Quoted(v.value)) + "\n" == out + (Line(v.name, v.value) + "\n")
    ensures out + (Line(v.name, v.value) + "\n") + rest == out + (Line(v.name, v.value) + "\n" + rest)
    ensures "" + rest == rest
  {
  }

  function Plus(failures: nat, c: Configured): Configured {
    c.(failures := failures + c.failures)
  }

  method TrimSpaces(s: string) returns (t: string)
    ensures t == Trim(s)
  {
    t := s;
    while t != "" && IsSpace(t[0])
      invariant TrimLeft(t) == TrimLeft(s)
      decreases |t|
    {
      t := t[1..];
    }
    while t != "" && IsSpace(t[|t| - 1])
      invariant TrimRight(t) == Trim(s)
      decreases |t|
    {
      t := t[..|t| - 1];
    }
  }

  /// The lines from a position on; none once it is past the end.
  function LinesFrom(text: string, start: nat): seq<string> {
    if start <= |text| then Lines(text[start..]) else []
  }

  lemma ConfigNone(r: Registry)
    ensures ConfigLines(r, []) == Configured(r, 0)
  {
  }

  method FindFeed(text: string, start: nat) returns (end: nat)
    requires start <= |text|
    ensures start <= end <= |text| && '\n' !in text[start..end] && (end < |text| ==> text[end] == '\n')
  {
    end := start;
    while end < |text| && text[end] != '\n'
      invariant start <= end <= |text| && '\n' !in text[start..end]
    {
      assert text[start..end + 1] == text[start..end] + [text[end]];
      end := end + 1;
    }
  }

  lemma {:induction false} FirstLineOf(line: string, rest: string)
    requires '\n' !in line
    ensures Lines(line + ("\n" + rest)) == [line] + Lines(rest)
  {
    var text := line + ("\n" + rest);
    FirstIs(line, "\n" + rest);
    assert text[|line|] == '\n';
    AfterLinePast(line, "\n" + rest);
    assert ("\n" + rest)[1..] == rest;
  }

  lemma {:induction false} FirstIs(line: string, tail: string)
    requires '\n' !in line && tail != "" && tail[0] == '\n'
    ensures FirstLine(line + tail) == line
  {
    if line == "" {
      assert line + tail == tail;
    } else {
      assert (line + tail)[1..] == line[1..] + tail;
      FirstIs(line[1..], tail);
    }
  }

  lemma LineFound(text: string, start: nat, end: nat)
    requires start <= end <= |text| && '\n' !in text[start..end] && (end < |text| ==> text[end] == '\n')
    ensures LinesFrom(text, start) == [text[start..end]] + LinesFrom(text, end + 1)
  {
    if end < |text| {
      assert text[start..] == text[start..end] + ("\n" + text[end + 1..]);
      FirstLineOf(text[start..end], text[end + 1..]);
    } else {
      assert text[start..] == text[start..end];
    }
  }

  lemma ConfigFirst(r: Registry, line: string, lines: seq<string>)
    ensures ConfigLines(r, [line] + lines) ==
            var one := ConfigLines(r, [line]); Plus(one.failures, ConfigLines(one.registry, lines))
  {
    assert ([line] + lines)[1..] == lines && [line][1..] == [];
  }
}
