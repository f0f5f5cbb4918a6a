/** What becomes of a placeholder. */
module Placeholders {
  // The results of a substitution, in plain strings: which value a reference gets, for every
  // order of both maps and wherever it stands, and what is left alone.

  import opened Common
  import opened Text
  import opened Substitution

  /** A variable's name without a dollar sign or a closing brace */
  predicate PlainName(name: string) {
    name != "" && '$' !in name && '}' !in name
  }

  /** Keys without a closing brace, and values in which no reference starts and none can be completed. */
  ghost predicate PlainTable(table: Table) {
    forall k :: k in table ==> '}' !in k && Inert(table[k])
  }

  // ---- Between other text ----

  lemma {:induction false} ExpandAppend(a: seq<Token>, b: seq<Token>, inputs: Table, env: Table, os: Table)
    ensures Expand(a + b, inputs, env, os) == Expand(a, inputs, env, os) + Expand(b, inputs, env, os)
    decreases |a|
  {
    if a == [] {
      assert a + b == b;
    } else {
      assert (a + b)[1..] == a[1..] + b;
      ExpandAppend(a[1..], b, inputs, env, os);
    }
  }

  lemma ResultIsExpand(tokens: seq<Token>, r: string, inputs: Table, env: Table, os: Table)
    requires WellFormed(tokens) && PlainTable(inputs) && PlainTable(env)
    requires IsSubstitution(Render(tokens), r, inputs, env, os)
    ensures r == Expand(tokens, inputs, env, os)
  {
    var inputOrder, envOrder :| IsOrdering(inputOrder, inputs.Keys) && IsOrdering(envOrder, env.Keys) &&
      r == Chain(Render(tokens), inputs, env, os, inputOrder, envOrder);
    ChainIsLookup(tokens, inputs, env, os, inputOrder, envOrder);
  }

  lemma RenderThree(a: seq<Token>, name: string, b: seq<Token>)
    ensures Render(a + [Placeholder(name)] + b) == Render(a) + ("${" + name + "}") + Render(b)
  {
    RenderOne(Placeholder(name));
    RenderAppend(a, [Placeholder(name)]);
    RenderAppend(a + [Placeholder(name)], b);
  }

  /** A placeholder is substituted independently of what surrounds it; `value` is what it becomes on its own. */
  lemma InTheMiddle(a: seq<Token>, name: string, b: seq<Token>, inputs: Table, env: Table, os: Table,
                    before: string, value: string, after: string, whole: string)
    requires WellFormed(a) && PlainName(name) && WellFormed(b) && PlainTable(inputs) && PlainTable(env)
    requires IsSubstitution(Render(a), before, inputs, env, os) && IsSubstitution(Render(b), after, inputs, env, os)
    requires IsSubstitution("${" + name + "}", value, inputs, env, os)
    requires IsSubstitution(Render(a) + ("${" + name + "}") + Render(b), whole, inputs, env, os)
    ensures whole == before + value + after
  {
    var p := [Placeholder(name)];
    RenderThree(a, name, b);
    RenderOne(Placeholder(name));
    ResultIsExpand(a, before, inputs, env, os);
    ResultIsExpand(b, after, inputs, env, os);
    ResultIsExpand(p, value, inputs, env, os);
    ResultIsExpand(a + p + b, whole, inputs, env, os);
    ExpandAppend(a, p, inputs, env, os);
    ExpandAppend(a + p, b, inputs, env, os);
  }

  // ---- Its value ----

  lemma OnItsOwn(name: string, r: string, inputs: Table, env: Table, os: Table)
    requires PlainName(name) && PlainTable(inputs) && PlainTable(env)
    requires IsSubstitution("${" + name + "}", r, inputs, env, os)
    ensures r == Lookup(Placeholder(name), inputs, env, os)
  {
    RenderOne(Placeholder(name));
    ResultIsExpand([Placeholder(name)], r, inputs, env, os);
    assert [Placeholder(name)][1..] == [];
  }

  lemma InputName(key: string)
    requires PlainName(key)
    ensures var name := "input:" + key; PlainName(name) && "${" + name + "}" == "${input:" + key + "}" && name[6..] == key
  {
  }

  /** An input variable comes before everything else. */
  lemma InputWins(key: string, r: string, inputs: Table, env: Table, os: Table)
    requires PlainName(key) && key in inputs && PlainTable(inputs) && PlainTable(env)
    requires IsSubstitution("${input:" + key + "}", r, inputs, env, os)
    ensures r == inputs[key]
  {
    InputName(key);
    OnItsOwn("input:" + key, r, inputs, env, os);
  }

  /** The given environment comes next, for any name that is not a bound input. */
  lemma EnvironmentNext(name: string, r: string, inputs: Table, env: Table, os: Table)
    requires PlainName(name) && name in env && (forall key :: key in inputs ==> name != "input:" + key)
    requires PlainTable(inputs) && PlainTable(env) && IsSubstitution("${" + name + "}", r, inputs, env, os)
    ensures r == env[name]
  {
    OnItsOwn(name, r, inputs, env, os);
    UnboundInput(name, inputs);
  }

  lemma UnboundInput(name: string, inputs: Table)
    requires forall key :: key in inputs ==> name != "input:" + key
    ensures !("input:" <= name && name[6..] in inputs)
  {
    assert "input:" <= name ==> name == "input:" + name[6..];
  }

  /** Then the operating system, whatever its value looks like: that is not substituted again. */
  lemma SystemLast(name: string, r: string, inputs: Table, env: Table, os: Table)
    requires PlainName(name) && name !in env && !("input:" <= name) && name in os && os[name] != ""
    requires PlainTable(inputs) && PlainTable(env) && IsSubstitution("${" + name + "}", r, inputs, env, os)
    ensures r == os[name]
  {
    OnItsOwn(name, r, inputs, env, os);
  }

  /** What nobody knows, or the system knows as empty, stays a reference. */
  lemma UnknownStays(name: string, r: string, inputs: Table, env: Table, os: Table)
    requires PlainName(name) && name !in env && (name in os ==> os[name] == "")
    requires forall key :: key in inputs ==> name != "input:" + key
    requires PlainTable(inputs) && PlainTable(env) && IsSubstitution("${" + name + "}", r, inputs, env, os)
    ensures r == "${" + name + "}"
  {
    OnItsOwn(name, r, inputs, env, os);
    UnboundInput(name, inputs);
  }

  /** So does a reference to an unbound input, even if the system has a variable of that very name. */
  lemma UnboundInputStays(key: string, r: string, inputs: Table, env: Table, os: Table)
    requires PlainName(key) && key !in inputs && "input:" + key !in env
    requires PlainTable(inputs) && PlainTable(env) && IsSubstitution("${input:" + key + "}", r, inputs, env, os)
    ensures r == "${input:" + key + "}"
  {
    InputName(key);
    OnItsOwn("input:" + key, r, inputs, env, os);
  }

  // ---- What is left alone ----

  /** No reference starts in it, or none can end. */
  ghost predicate Unreferenced(s: string) {
    (forall i :: 0 <= i < |s| - 1 && s[i] == '$' ==> s[i + 1] != '{') || '}' !in s
  }

  /** Text without an opening, or without a closing brace, is left alone by all tables and systems. */
  lemma PlainTextStays(s: string, r: string, inputs: Table, env: Table, os: Table)
    requires (forall i :: 0 <= i < |s| - 1 && s[i] == '$' ==> s[i + 1] != '{') || '}' !in s
    requires IsSubstitution(s, r, inputs, env, os)
    ensures r == s
  {
    var inputOrder, envOrder :| IsOrdering(inputOrder, inputs.Keys) && IsOrdering(envOrder, env.Keys) &&
      r == Chain(s, inputs, env, os, inputOrder, envOrder);
    LoopMisses(s, inputOrder, inputs, INPUT_PREFIX);
    LoopMisses(s, envOrder, env, "");
    OsMisses(s, os);
  }

  lemma UnreferencedTail(s: string)
    requires Unreferenced(s) && s != ""
    ensures Unreferenced(s[1..])
  {
    if '}' in s {
      forall i | 0 <= i < |s[1..]| - 1 && s[1..][i] == '$' ensures s[1..][i + 1] != '{' {
        assert s[i + 1] == '$';
      }
    }
  }

  lemma NoReferenceAtHead(s: string, variable: string)
    requires Unreferenced(s)
    ensures !(Reference(variable) <= s)
  {
    var pattern := Reference(variable);
    assert pattern[0] == '$' && pattern[1] == '{' && pattern[|pattern| - 1] == '}';
  }

  lemma {:induction false} NoReferenceHits(s: string, variable: string)
    requires Unreferenced(s)
    ensures Hits(s, Reference(variable)) == 0
    decreases |s|
  {
    if s != "" {
      NoReferenceAtHead(s, variable);
      UnreferencedTail(s);
      NoReferenceHits(s[1..], variable);
    }
  }

  lemma {:induction false} LoopMisses(s: string, order: seq<string>, table: Table, prefix: string)
    requires Unreferenced(s) && forall k :: k in order ==> k in table
    ensures ReplaceInOrder(s, order, table, References(prefix)) == s
    decreases |order|
  {
    if order != [] {
      var init, last := order[..|order| - 1], order[|order| - 1];
      LoopMisses(s, init, table, prefix);
      NoReferenceHits(s, prefix + last);
      ReplaceMissing(s, Reference(prefix + last), table[last]);
    }
  }

  lemma {:induction false} OsMisses(s: string, os: Table)
    requires Unreferenced(s)
    ensures ExpandOs(s, os) == s
    decreases |s|
  {
    if s != "" {
      NoMatchAtHead(s);
      UnreferencedTail(s);
      OsMisses(s[1..], os);
      assert s == [s[0]] + s[1..];
    }
  }

  lemma NoMatchAtHead(s: string)
    requires Unreferenced(s)
    ensures !("${" <= s && BraceFrom(s, 2) < |s|)
  {
    if "${" <= s {
      assert s[0] == '$' && s[1] == '{';
    }
  }

  /** An empty reference is not one, unless the environment has a variable without a name. */
  lemma EmptyReferenceStays(r: string, inputs: Table, env: Table, os: Table)
    requires "" !in env && IsSubstitution("${}", r, inputs, env, os)
    ensures r == "${}"
  {
    var inputOrder, envOrder :| IsOrdering(inputOrder, inputs.Keys) && IsOrdering(envOrder, env.Keys) &&
      r == Chain("${}", inputs, env, os, inputOrder, envOrder);
    TooShort("${}", inputOrder, inputs, INPUT_PREFIX);
    TooShort("${}", envOrder, env, "");
    var s := "${}";
    assert s[1..] == "{}" && BraceFrom(s, 2) == 2;
    OsMisses("{}", os);
    assert "$" + "{}" == s;
  }

  lemma {:induction false} TooShort(s: string, order: seq<string>, table: Table, prefix: string)
    requires |s| == 3 && forall k :: k in order ==> k in table && prefix + k != ""
    ensures ReplaceInOrder(s, order, table, References(prefix)) == s
    decreases |order|
  {
    if order != [] {
      var init, last := order[..|order| - 1], order[|order| - 1];
      assert last in order && forall k :: k in init ==> k in order;
      TooShort(s, init, table, prefix);
      ShorterHasNoHits(s, Reference(prefix + last));
      ReplaceMissing(s, Reference(prefix + last), table[last]);
    }
  }

  lemma {:induction false} ShorterHasNoHits(s: string, pattern: string)
    requires |s| < |pattern|
    ensures Hits(s, pattern) == 0
    decreases |s|
  {
    if s != "" {
      ShorterHasNoHits(s[1..], pattern);
    }
  }

  // ---- The regular expression ----

  /**
   Without tables, the leftmost reference is looked up in the system: it goes from the first
   dollar sign with a brace to the next closing brace, whatever is in between.
   */
  lemma SystemPass(before: string, name: string, after: string, r: string, rest: string, os: Table)
    requires Inert(before) && name != "" && '}' !in name
    requires IsSubstitution(before + ("${" + name + "}" + after), r, map[], map[], os)
    requires IsSubstitution(after, rest, map[], map[], os)
    ensures r == before + (if !("input:" <= name) && name in os && os[name] != "" then os[name] else "${" + name + "}") + rest
  {
    var tail := "${" + name + "}" + after;
    NoTables(before + tail, r, os);
    NoTables(after, rest, os);
    OsSkipsInert(before, tail, os);
    MatchIsResolved(name, after, os);
  }

  lemma MatchIsResolved(name: string, rest: string, os: Table)
    requires name != "" && '}' !in name
    ensures ExpandOs("${" + name + "}" + rest, os) ==
            (if !("input:" <= name) && name in os && os[name] != "" then os[name] else "${" + name + "}") + ExpandOs(rest, os)
  {
    ReferenceMatches(name, rest);
  }

  lemma NoTables(s: string, r: string, os: Table)
    requires IsSubstitution(s, r, map[], map[], os)
    ensures r == ExpandOs(s, os)
  {
    var none: Table := map[];
    var inputOrder, envOrder :| IsOrdering(inputOrder, none.Keys) && IsOrdering(envOrder, none.Keys) &&
      r == Chain(s, none, none, os, inputOrder, envOrder);
    OrderingOfNone(inputOrder, none.Keys);
    OrderingOfNone(envOrder, none.Keys);
  }

  lemma ReferenceMatches(name: string, rest: string)
    requires name != "" && '}' !in name
    ensures var s := "${" + name + "}" + rest;
            && "${" <= s && BraceFrom(s, 2) == |name| + 2 < |s|
            && s[2..|name| + 2] == name && s[|name| + 3..] == rest
  {
    var s := "${" + name + "}" + rest;
    var j := BraceFrom(s, 2);
    assert s[|name| + 2] == '}' && s[2..|name| + 2] == name;
    if j < |name| + 2 {
      assert false;
    } else if j > |name| + 2 {
      assert false;
    }
  }
}
