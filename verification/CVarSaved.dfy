/// What executing a saved configuration restores (CVarRegistry::serializeSaved and executeConfig in
/// engine/core/src/cvar.cpp).
module CVarSaved {
  import opened Options
  import opened CVarText
  import opened CVarLines
  import opened CVarConfig

  predicate WellNamed(key: string, v: Variable) {
    LowerKey(v.name) == key && PlainName(v.name) && !Reserved(key)
  }

  predicate AllWellNamed(vars: map<string, Variable>) {
    forall key :: key in vars ==> WellNamed(key, vars[key])
  }

  /// The same variables as they are before any configuration is read.
  function AtDefaults(r: Registry, pending: map<string, string>): Registry {
    Registry(map key | key in r.vars :: r.vars[key].(value := r.vars[key].defaultValue), pending, r.client)
  }

  /// What saving is meant to keep: the saved variables.
  function Kept(v: Variable): Variable {
    if v.saved then v else v.(value := v.defaultValue)
  }

  function KeptOnly(vars: map<string, Variable>): map<string, Variable> {
    map key | key in vars :: Kept(vars[key])
  }

  /// A value that a line of text can carry, in a variable that a configuration may write.
  predicate Restorable(v: Variable, client: bool) {
    NeedsSaving(v) ==> Safe(v.value) && !(v.replicated && client)
  }

  predicate AllRestorable(r: Registry) {
    forall key :: key in r.vars ==> Restorable(r.vars[key], r.client)
  }

  /// The same variables, with other values perhaps.
  predicate SameShape(cur: Registry, r: Registry) {
    && cur.client == r.client && cur.vars.Keys == r.vars.Keys
    && forall key :: key in r.vars ==> cur.vars[key] == r.vars[key].(value := cur.vars[key].value)
  }

  predicate Covers(keys: seq<string>, vars: map<string, Variable>) {
    (forall key :: key in keys ==> key in vars) && forall key :: key in vars ==> key in keys
  }

  predicate Within(keys: seq<string>, vars: map<string, Variable>) {
    forall key :: key in keys ==> key in vars
  }

  // -- One line -------------------------------------------------------------------------------

  predicate Lacks(tokens: seq<string>, c: char) {
    forall k :: 0 <= k < |tokens| ==> c !in tokens[k]
  }

  /// Text without quotes or separators: its tokens hold no carriage return and form one statement.
  lemma {:induction false} ReturnsSplit(l: Lexer, s: string)
    requires !l.inQuotes && '\r' !in l.token && Lacks(l.current, '\r')
    requires '\n' !in s && forall k :: 0 <= k < |s| ==> !IsSpecial(s[k])
    ensures Scan(l, s).Some?
    ensures var m := Scan(l, s).value;
      m.done == l.done && !m.inQuotes && '\r' !in m.token && Lacks(m.current, '\r') && l.current <= m.current
    decreases |s|
  {
    if s != "" {
      assert Rest(l, s) == s[1..];
      ReturnsSplit(Step(l, s).value, s[1..]);
    }
  }

  ghost predicate LineTokens(name: string, value: string, tokens: Statement) {
    && tokens != [] && tokens[0] == name
    && if Safe(value) then tokens == [name, value] else Lacks(tokens[1..], '\r')
  }

  lemma SafeLineTokens(name: string, value: string)
    requires PlainName(name) && Safe(value)
    ensures Tokens(Line(name, value)) == Some([[name, value]]) && LineTokens(name, value, [name, value])
  {
    LineReadsBack(name, value);
    hide Tokens, Line;
  }

  /// An unsafe value without line feeds is not quoted: scanning it goes on from the name.
  lemma UnquotedScan(name: string, value: string)
    requires PlainName(name) && '\n' !in value && !Safe(value)
    ensures Scan(Fresh([]), Line(name, value)) == Scan(Fresh([]).(current := [name]), value)
    ensures forall k :: 0 <= k < |value| ==> !IsSpecial(value[k])
  {
    assert Line(name, value) == name + ([' '] + value);
    PlainScan(Fresh([]), name, [' '] + value);
    SpaceScan(Fresh([]).(token := name, inToken := true), value);
    assert "" + name == name && [] + [name] == [name];
    forall k | 0 <= k < |value| ensures !IsSpecial(value[k]) {
      assert value[k] in value;
    }
  }

  lemma EndedLine(name: string, m: Lexer)
    requires m.done == [] && !m.inQuotes && '\r' !in m.token && Lacks(m.current, '\r') && [name] <= m.current
    ensures Finished(m) == Some([EndToken(m).current])
    ensures EndToken(m).current[0] == name && Lacks(EndToken(m).current[1..], '\r')
  {
    assert m.current[0] == name;
    assert [] + [EndToken(m).current] == [EndToken(m).current];
  }

  lemma UnsafeLineTokens(name: string, value: string) returns (tokens: Statement)
    requires PlainName(name) && '\n' !in value && !Safe(value)
    ensures Tokens(Line(name, value)) == Some([tokens]) && LineTokens(name, value, tokens)
  {
    var l := Fresh([]).(current := [name]);
    UnquotedScan(name, value);
    NameLacksReturn(name);
    ReturnsSplit(l, value);
    hide Scan, Line, PlainName, IsSpecial, Lacks;
    EndedLine(name, Scan(l, value).value);
    return EndToken(Scan(l, value).value).current;
  }

  /// The line of a variable whose value has no line feed is one statement that starts with its name.
  lemma LineIsOneStatement(name: string, value: string) returns (tokens: Statement)
    requires PlainName(name) && '\n' !in value
    ensures Tokens(Line(name, value)) == Some([tokens]) && LineTokens(name, value, tokens)
  {
    hide Tokens, Line, LineTokens, PlainName, Safe;
    if Safe(value) {
      SafeLineTokens(name, value);
      tokens := [name, value];
    } else {
      tokens := UnsafeLineTokens(name, value);
    }
  }

  lemma NameLacksReturn(name: string)
    requires PlainName(name)
    ensures '\r' !in name && '\n' !in name
  {
  }

  lemma OneStatement(r: Registry, text: string, tokens: Statement)
    requires Tokens(text) == Some([tokens])
    ensures Execute(r, text) == Perform(r, tokens)
  {
    var first := Perform(r, tokens);
    assert [tokens][1..] == [] && PerformAll(first.registry, []) == Executed(first.registry, None);
    assert PerformAll(r, [tokens]) == first;
  }

  /// The line of a restorable variable gives the variable its value.
  lemma LineRestores(cur: Registry, key: string, v: Variable)
    requires key in cur.vars && WellNamed(key, v) && Safe(v.value) && Writable(cur, key)
    ensures Execute(cur, Line(v.name, v.value)) ==
            Executed(cur.(vars := cur.vars[key := cur.vars[key].(value := v.value)]), None)
  {
    hide Tokens, Execute, Line;
    LineReadsBack(v.name, v.value);
    var tokens := [v.name, v.value];
    OneStatement(cur, Line(v.name, v.value), tokens);
    PerformNameValue(cur, key, v);
  }

  lemma PerformNameValue(cur: Registry, key: string, v: Variable)
    requires key in cur.vars && WellNamed(key, v) && Writable(cur, key)
    ensures Perform(cur, [v.name, v.value]) ==
            Executed(cur.(vars := cur.vars[key := cur.vars[key].(value := v.value)]), None)
  {
    hide LowerKey;
    var tokens := [v.name, v.value];
    assert LowerKey(tokens[0]) == key && tokens[1] == v.value;
    assert Perform(cur, tokens) == Assign(cur, key, v.value);
  }

  /// A line without line feeds touches its own variable only, and never gives it a value that is not restorable.
  lemma LineTouchesOne(cur: Registry, key: string, v: Variable)
    requires key in cur.vars && WellNamed(key, v) && '\n' !in v.value
    ensures var after := Execute(cur, Line(v.name, v.value)).registry;
      && after.client == cur.client && after.vars.Keys == cur.vars.Keys
      && (forall k :: k in cur.vars && k != key ==> after.vars[k] == cur.vars[k])
      && after.vars[key] == cur.vars[key].(value := after.vars[key].value)
      && ((Safe(v.value) && Writable(cur, key)) || after.vars[key] == cur.vars[key]
          || after.vars[key].value != v.value)
  {
    hide Tokens, Execute, Line;
    var tokens := LineIsOneStatement(v.name, v.value);
    OneStatement(cur, Line(v.name, v.value), tokens);
    if |tokens| == 2 && !Safe(v.value) {
      assert tokens[1..][0] == tokens[1];
    }
  }

  // -- Lines that a configuration is made of ---------------------------------------------------

  /// A line, whether it is trimmed and skipped or executed, acts as its untrimmed text does.
  lemma ConfigLine(r: Registry, line: string, lines: seq<string>)
    requires '\n' !in line
    ensures ConfigLines(r, [line] + lines) ==
            var e := Execute(r, line); Plus(Failed(e), ConfigLines(e.registry, lines))
  {
    TrimKeeps(line);
    assert ([line] + lines)[1..] == lines;
    if Trim(line) == "" {
      NothingTokenized();
      assert PerformAll(r, []) == Executed(r, None);
    }
  }

  lemma NothingTokenized()
    ensures Tokens("") == Some([])
  {
    assert Scan(Fresh([]), "") == Some(Fresh([]));
    assert EndToken(Fresh([])) == Fresh([]);
    assert Fresh([]).done + [] == [];
  }

  lemma LineHasNoFeed(name: string, value: string)
    requires PlainName(name) && '\n' !in value
    ensures '\n' !in Line(name, value)
  {
    EscapedHasNoFeed(value);
    NameLacksReturn(name);
  }

  lemma {:induction false} EscapedHasNoFeed(value: string)
    requires '\n' !in value
    ensures '\n' !in Escaped(value)
  {
    if value != "" {
      EscapedHasNoFeed(value[1..]);
    }
  }

  /// The first variable's part of a saved configuration.
  lemma SerializedFirst(cur: Registry, vars: map<string, Variable>, keys: seq<string>)
    requires keys != [] && Within(keys, vars) && WellNamed(keys[0], vars[keys[0]])
    requires NeedsSaving(vars[keys[0]]) ==> '\n' !in vars[keys[0]].value
    ensures var v := vars[keys[0]]; var rest := Lines(Serialized(vars, keys[1..]));
      ConfigLines(cur, Lines(Serialized(vars, keys))) ==
      if NeedsSaving(v) then
        var e := Execute(cur, Line(v.name, v.value)); Plus(Failed(e), ConfigLines(e.registry, rest))
      else ConfigLines(cur, rest)
  {
    hide Execute, Line, Lines, ConfigLines;
    var v, rest := vars[keys[0]], Serialized(vars, keys[1..]);
    if NeedsSaving(v) {
      assert Serialized(vars, keys) == Line(v.name, v.value) + ("\n" + rest);
      LineHasNoFeed(v.name, v.value);
      FirstLineOf(Line(v.name, v.value), rest);
      ConfigLine(cur, Line(v.name, v.value), Lines(rest));
    } else {
      assert Serialized(vars, keys) == "" + rest == rest;
    }
  }

  lemma NothingSaved(cur: Registry, vars: map<string, Variable>)
    ensures ConfigLines(cur, Lines(Serialized(vars, []))) == Configured(cur, 0)
  {
    assert Lines("") == [""];
    assert TrimLeft("") == "" && Trim("") == "";
    assert ConfigLines(cur, [""]) == ConfigLines(cur, [""][1..]);
  }

  // -- Everything is restored --------------------------------------------------------------------

  function Restored(cur: map<string, Variable>, vars: map<string, Variable>, keys: seq<string>): map<string, Variable>
    requires Within(keys, vars) && Within(keys, cur)
  {
    if keys == [] then cur
    else
      var key := keys[0];
      Restored(if NeedsSaving(vars[key]) then cur[key := cur[key].(value := vars[key].value)] else cur, vars, keys[1..])
  }

  lemma {:induction false} ConfigRestores(cur: Registry, r: Registry, keys: seq<string>)
    requires Within(keys, r.vars) && SameShape(cur, r) && AllWellNamed(r.vars) && AllRestorable(r)
    ensures Within(keys, cur.vars)
    ensures ConfigLines(cur, Lines(Serialized(r.vars, keys))) ==
            Configured(cur.(vars := Restored(cur.vars, r.vars, keys)), 0)
    decreases |keys|
  {
    hide Execute, Line, Lines, ConfigLines, Serialized;
    if keys == [] {
      NothingSaved(cur, r.vars);
    } else {
      var key := keys[0];
      var v := r.vars[key];
      assert Restorable(v, r.client) && WellNamed(key, v);
      SerializedFirst(cur, r.vars, keys);
      if NeedsSaving(v) {
        LineRestores(cur, key, v);
        var next := cur.(vars := cur.vars[key := cur.vars[key].(value := v.value)]);
        ConfigRestores(next, r, keys[1..]);
      } else {
        ConfigRestores(cur, r, keys[1..]);
      }
    }
  }

  lemma {:induction false} RestoredAt(cur: map<string, Variable>, vars: map<string, Variable>, keys: seq<string>,
                                      at: string)
    requires Within(keys, vars) && Within(keys, cur) && at in vars && at in cur
    ensures at in Restored(cur, vars, keys)
    ensures Restored(cur, vars, keys)[at] ==
            if at in keys && NeedsSaving(vars[at]) then cur[at].(value := vars[at].value) else cur[at]
    decreases |keys|
  {
    if keys != [] {
      var key := keys[0];
      var next := if NeedsSaving(vars[key]) then cur[key := cur[key].(value := vars[key].value)] else cur;
      RestoredAt(next, vars, keys[1..], at);
    }
  }

  lemma {:induction false} RestoredKeys(cur: map<string, Variable>, vars: map<string, Variable>, keys: seq<string>)
    requires Within(keys, vars) && Within(keys, cur)
    ensures Restored(cur, vars, keys).Keys == cur.Keys
    decreases |keys|
  {
    if keys != [] {
      var key := keys[0];
      var next := if NeedsSaving(vars[key]) then cur[key := cur[key].(value := vars[key].value)] else cur;
      RestoredKeys(next, vars, keys[1..]);
    }
  }

  lemma RestoredFromDefaults(r: Registry, keys: seq<string>, pending: map<string, string>)
    requires Covers(keys, r.vars)
    ensures Restored(AtDefaults(r, pending).vars, r.vars, keys) == KeptOnly(r.vars)
  {
    var cur := AtDefaults(r, pending).vars;
    RestoredKeys(cur, r.vars, keys);
    forall at | at in r.vars
      ensures Restored(cur, r.vars, keys)[at] == KeptOnly(r.vars)[at]
    {
      RestoredAt(cur, r.vars, keys, at);
    }
  }

  // -- What is not restored ------------------------------------------------------------------------

  /// While no saved value has a line feed, a variable whose own line cannot restore it keeps another value.
  lemma {:induction false} ConfigKeepsAway(cur: Registry, r: Registry, keys: seq<string>, bad: string)
    requires Within(keys, r.vars) && SameShape(cur, r) && AllWellNamed(r.vars)
    requires forall key :: key in r.vars && NeedsSaving(r.vars[key]) ==> '\n' !in r.vars[key].value
    requires bad in r.vars && !Restorable(r.vars[bad], r.client) && cur.vars[bad].value != r.vars[bad].value
    ensures var done := ConfigLines(cur, Lines(Serialized(r.vars, keys))).registry.vars;
      bad in done && done[bad].value != r.vars[bad].value
    decreases |keys|
  {
    hide Execute, Line, Lines, ConfigLines, Serialized;
    if keys == [] {
      NothingSaved(cur, r.vars);
    } else {
      var key := keys[0];
      var v := r.vars[key];
      assert WellNamed(key, v);
      SerializedFirst(cur, r.vars, keys);
      if NeedsSaving(v) {
        LineTouchesOne(cur, key, v);
        ConfigKeepsAway(Execute(cur, Line(v.name, v.value)).registry, r, keys[1..], bad);
      } else {
        ConfigKeepsAway(cur, r, keys[1..], bad);
      }
    }
  }

  // No token has a line feed, so no configuration stores one.

  predicate AllLack(statements: seq<Statement>, c: char) {
    forall k :: 0 <= k < |statements| ==> Lacks(statements[k], c)
  }

  predicate Unfed(l: Lexer) {
    AllLack(l.done, '\n') && Lacks(l.current, '\n') && '\n' !in l.token
  }

  lemma UnfedStep(l: Lexer, t: string)
    requires t != "" && Unfed(l) && Step(l, t).Some?
    ensures Unfed(Step(l, t).value)
  {
  }

  lemma {:induction false} UnfedScan(l: Lexer, t: string)
    requires Unfed(l) && Scan(l, t).Some?
    ensures Unfed(Scan(l, t).value)
    decreases |t|
  {
    if t != "" {
      UnfedStep(l, t);
      UnfedScan(Step(l, t).value, Rest(l, t));
    }
  }

  lemma TokensHaveNoFeed(text: string)
    requires Tokens(text).Some?
    ensures AllLack(Tokens(text).value, '\n')
  {
    UnfedScan(Fresh([]), text);
    assert Unfed(EndToken(Scan(Fresh([]), text).value));
  }

  /// A variable is at its default, or its value has no line feed.
  predicate DefaultOrUnfed(v: Variable) {
    v.value == v.defaultValue || '\n' !in v.value
  }

  predicate AllDefaultOrUnfed(vars: map<string, Variable>) {
    forall key :: key in vars ==> DefaultOrUnfed(vars[key])
  }

  predicate Follows(after: Registry, before: Registry) {
    SameShape(after, before) && AllDefaultOrUnfed(after.vars)
  }

  lemma AssignFollows(r: Registry, key: string, value: string)
    requires key in r.vars && AllDefaultOrUnfed(r.vars)
    requires '\n' !in value || value == r.vars[key].defaultValue
    ensures Follows(Assign(r, key, value).registry, r)
  {
  }

  lemma PerformFollows(r: Registry, tokens: Statement)
    requires Lacks(tokens, '\n') && AllDefaultOrUnfed(r.vars)
    ensures Follows(Perform(r, tokens).registry, r)
  {
    hide Assign, Follows, LowerKey, DefaultOrUnfed;
    SameFollows(r, r.pending);
    if tokens != [] {
      var verb := LowerKey(tokens[0]);
      if verb == "set" && |tokens| == 3 {
        SetFollows(r, tokens[1], tokens[2]);
      } else if verb == "reset" && |tokens| == 2 {
        var key := LowerKey(tokens[1]);
        if key in r.vars { AssignFollows(r, key, r.vars[key].defaultValue); }
      } else if !Reserved(verb) && |tokens| == 2 {
        if verb in r.vars { AssignFollows(r, verb, tokens[1]); }
        SetFollows(r, tokens[0], tokens[1]);
      }
    }
  }

  lemma SameFollows(r: Registry, pending: map<string, string>)
    requires AllDefaultOrUnfed(r.vars)
    ensures Follows(r.(pending := pending), r)
  {
  }

  lemma SetFollows(r: Registry, name: string, value: string)
    requires '\n' !in value && AllDefaultOrUnfed(r.vars)
    ensures Follows(SetByName(r, name, value).registry, r)
  {
    hide Assign, Follows, LowerKey, DefaultOrUnfed;
    var key := LowerKey(name);
    if key in r.vars {
      AssignFollows(r, key, value);
    } else {
      SameFollows(r, r.pending[key := value]);
    }
  }

  lemma {:induction false} PerformAllFollows(r: Registry, statements: seq<Statement>)
    requires AllLack(statements, '\n') && AllDefaultOrUnfed(r.vars)
    ensures Follows(PerformAll(r, statements).registry, r)
    decreases |statements|
  {
    hide Perform, DefaultOrUnfed;
    if statements != [] {
      PerformFollows(r, statements[0]);
      var first := Perform(r, statements[0]);
      if first.failure.None? {
        PerformAllFollows(first.registry, statements[1..]);
      }
    }
  }

  /// Whatever the text, no line of a configuration stores a line feed.
  lemma {:induction false} ConfigStoresNoFeed(r: Registry, lines: seq<string>)
    requires AllDefaultOrUnfed(r.vars)
    ensures Follows(ConfigLines(r, lines).registry, r)
    decreases |lines|
  {
    hide Tokens, PerformAll, DefaultOrUnfed, Trim;
    if lines != [] {
      var line := Trim(lines[0]);
      if line == "" {
        ConfigStoresNoFeed(r, lines[1..]);
      } else {
        if Tokens(line).Some? {
          TokensHaveNoFeed(line);
          PerformAllFollows(r, Tokens(line).value);
        }
        ConfigStoresNoFeed(Execute(r, line).registry, lines[1..]);
      }
    }
  }

  // -- Exactly when everything is restored -----------------------------------------------------------

  /// Executing what was saved, from the defaults, restores every saved variable exactly when each saved value can
  /// stand on a line and may be written; then no line fails either.
  lemma RestoredIffRestorable(r: Registry, keys: seq<string>, pending: map<string, string>)
    requires Covers(keys, r.vars) && AllWellNamed(r.vars)
    ensures var done := ConfigLines(AtDefaults(r, pending), Lines(Serialized(r.vars, keys)));
      && (done.registry.vars == KeptOnly(r.vars) <==> AllRestorable(r))
      && (AllRestorable(r) ==> done == Configured(Registry(KeptOnly(r.vars), pending, r.client), 0))
  {
    hide ConfigLines, Lines, Serialized, Restored;
    var cur := AtDefaults(r, pending);
    if AllRestorable(r) {
      ConfigRestores(cur, r, keys);
      RestoredFromDefaults(r, keys, pending);
    } else {
      NotRestored(r, keys, pending);
    }
  }

  lemma NotRestored(r: Registry, keys: seq<string>, pending: map<string, string>)
    requires Covers(keys, r.vars) && AllWellNamed(r.vars) && !AllRestorable(r)
    ensures ConfigLines(AtDefaults(r, pending), Lines(Serialized(r.vars, keys))).registry.vars != KeptOnly(r.vars)
  {
    hide ConfigLines, Lines, Serialized;
    var cur := AtDefaults(r, pending);
    var done := ConfigLines(cur, Lines(Serialized(r.vars, keys))).registry.vars;
    if fed :| fed in r.vars && NeedsSaving(r.vars[fed]) && '\n' in r.vars[fed].value {
      ConfigStoresNoFeed(cur, Lines(Serialized(r.vars, keys)));
      assert DefaultOrUnfed(done[fed]) && KeptOnly(r.vars)[fed] == r.vars[fed];
    } else {
      var bad :| bad in r.vars && !Restorable(r.vars[bad], r.client);
      ConfigKeepsAway(cur, r, keys, bad);
      assert KeptOnly(r.vars)[bad] == r.vars[bad];
    }
  }
}
