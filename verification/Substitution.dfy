/** Variable substitution in server configurations. */
module Substitution {
  // The code runs one strings.ReplaceAll per input variable, then one per entry of the given
  // environment, in whatever order Go visits the two maps, and finishes with one
  // regular-expression pass that consults the operating system. The lemmas show what this
  // chain means, and when the orders show.

  import opened Common
  import opened Text

  const INPUT_PREFIX := "input:"

  // ---- The code's string operations ----

  function Reference(variable: string): string {
    "${" + variable + "}"
  }

  /** What stands for the keys of a map: `${input:key}` or `${key}`. */
  function References(prefix: string): string -> string {
    key => Reference(prefix + key)
  }

  /** os.Getenv: the empty string when unset */
  function Getenv(os: Table, name: string): string {
    if name in os then os[name] else ""
  }

  /** The position of the first closing brace at or after `from`, or the length. */
  function BraceFrom(s: string, from: nat): (j: nat)
    requires from <= |s|
    ensures from <= j <= |s|
    ensures '}' !in s[from..j] && (j < |s| ==> s[j] == '}')
    decreases |s| - from
  {
    if from == |s| || s[from] == '}' then from else BraceFrom(s, from + 1)
  }

  /** The callback of the regular-expression pass. */
  function Resolve(variable: string, os: Table): string {
    if INPUT_PREFIX <= variable then Reference(variable)
    else if Getenv(os, variable) != "" then Getenv(os, variable)
    else Reference(variable)
  }

  /** `\$\{([^}]+)\}` with ReplaceAllStringFunc: leftmost matches, replacements not rescanned. */
  function ExpandOs(s: string, os: Table): string
    decreases |s|
  {
    if s == "" then ""
    else if "${" <= s && 3 <= BraceFrom(s, 2) < |s| then
      var j := BraceFrom(s, 2);
      Resolve(s[2..j], os) + ExpandOs(s[j + 1..], os)
    else [s[0]] + ExpandOs(s[1..], os)
  }

  function Chain(s: string, inputs: Table, env: Table, os: Table, inputOrder: seq<string>, envOrder: seq<string>): string
    requires forall k :: k in inputOrder ==> k in inputs
    requires forall k :: k in envOrder ==> k in env
  {
    ExpandOs(ReplaceInOrder(ReplaceInOrder(s, inputOrder, inputs, References(INPUT_PREFIX)), envOrder, env, References("")), os)
  }

  // ---- Tokens ----

  datatype Token = Literal(text: string) | Placeholder(name: string)

  function RenderToken(t: Token): string {
    match t
    case Literal(text) => text
    case Placeholder(name) => Reference(name)
  }

  function Render(tokens: seq<Token>): string {
    if tokens == [] then "" else RenderToken(tokens[0]) + Render(tokens[1..])
  }

  /** No reference starts in the text, and none can be completed by what follows it. */
  ghost predicate Inert(s: string) {
    forall i :: 0 <= i < |s| && s[i] == '$' ==> i + 1 < |s| && s[i + 1] != '{'
  }

  ghost predicate WellFormedToken(t: Token) {
    match t
    case Literal(text) => Inert(text)
    case Placeholder(name) => name != "" && '$' !in name && '}' !in name
  }

  ghost predicate WellFormed(tokens: seq<Token>) {
    forall t :: t in tokens ==> WellFormedToken(t)
  }

  /** Keys cannot close a reference early; values cannot open a new one. */
  ghost predicate CleanTable(table: Table) {
    forall k :: k in table ==> '}' !in k && Inert(table[k])
  }

  /** Token-wise lookup: input variables, then the given environment, then the operating system. */
  function Lookup(t: Token, inputs: Table, env: Table, os: Table): string {
    match t
    case Literal(text) => text
    case Placeholder(name) =>
      if INPUT_PREFIX <= name && name[|INPUT_PREFIX|..] in inputs then inputs[name[|INPUT_PREFIX|..]]
      else if name in env then env[name]
      else Resolve(name, os)
  }

  function Expand(tokens: seq<Token>, inputs: Table, env: Table, os: Table): string {
    if tokens == [] then "" else Lookup(tokens[0], inputs, env, os) + Expand(tokens[1..], inputs, env, os)
  }

  // ---- One ReplaceAll on rendered tokens ----

  /** Every token becomes what `f` makes of it. */
  function Each(tokens: seq<Token>, f: Token -> seq<Token>): seq<Token> {
    if tokens == [] then [] else f(tokens[0]) + Each(tokens[1..], f)
  }

  /** Placeholders of this name become these tokens. */
  function Bind(variable: string, value: seq<Token>): Token -> seq<Token> {
    t => if t == Placeholder(variable) then value else [t]
  }

  lemma {:induction false} RenderAppend(a: seq<Token>, b: seq<Token>)
    ensures Render(a + b) == Render(a) + Render(b)
    decreases |a|
  {
    if a == [] {
      assert a + b == b;
    } else {
      assert (a + b)[1..] == a[1..] + b;
      RenderAppend(a[1..], b);
    }
  }

  lemma RenderOne(t: Token)
    ensures Render([t]) == RenderToken(t)
  {
    assert [t][1..] == [];
  }

  lemma EachOne(t: Token, f: Token -> seq<Token>)
    ensures Each([t], f) == f(t)
  {
    assert [t][1..] == [] && f(t) + [] == f(t);
  }

  lemma {:induction false} EachAppend(a: seq<Token>, b: seq<Token>, f: Token -> seq<Token>)
    ensures Each(a + b, f) == Each(a, f) + Each(b, f)
    decreases |a|
  {
    if a == [] {
      assert a + b == b;
    } else {
      assert (a + b)[1..] == a[1..] + b;
      EachAppend(a[1..], b, f);
    }
  }

  /** Two rewritings in a row are one. */
  lemma {:induction false} EachTwice(tokens: seq<Token>, f: Token -> seq<Token>, g: Token -> seq<Token>, h: Token -> seq<Token>)
    requires forall t :: t in tokens ==> Each(f(t), g) == h(t)
    ensures Each(Each(tokens, f), g) == Each(tokens, h)
    decreases |tokens|
  {
    if tokens != [] {
      assert tokens[0] in tokens && forall t :: t in tokens[1..] ==> t in tokens;
      EachTwice(tokens[1..], f, g, h);
      EachAppend(f(tokens[0]), Each(tokens[1..], f), g);
    }
  }

  /** Rewritings that render every token alike render the whole alike. */
  lemma {:induction false} EachRendersAlike(tokens: seq<Token>, f: Token -> seq<Token>, g: Token -> seq<Token>)
    requires forall t :: t in tokens ==> Render(f(t)) == Render(g(t))
    ensures Render(Each(tokens, f)) == Render(Each(tokens, g))
    decreases |tokens|
  {
    if tokens != [] {
      assert tokens[0] in tokens && forall t :: t in tokens[1..] ==> t in tokens;
      EachRendersAlike(tokens[1..], f, g);
      RenderAppend(f(tokens[0]), Each(tokens[1..], f));
      RenderAppend(g(tokens[0]), Each(tokens[1..], g));
    }
  }

  lemma {:induction false} EachWellFormed(tokens: seq<Token>, f: Token -> seq<Token>)
    requires forall t :: t in tokens ==> WellFormed(f(t))
    ensures WellFormed(Each(tokens, f))
    decreases |tokens|
  {
    if tokens != [] {
      assert tokens[0] in tokens && forall t :: t in tokens[1..] ==> t in tokens;
      EachWellFormed(tokens[1..], f);
    }
  }

  /** No reference starts at the head of an inert text, whatever comes after the text. */
  lemma InertHead(text: string, rest: string)
    requires Inert(text) && text != ""
    ensures !("${" <= text + rest)
  {
    var s := text + rest;
    if text[0] == '$' {
      assert s[1] == text[1] != '{';
    } else {
      assert s[0] == text[0] != '$';
    }
  }

  /** Where a pattern that begins like a reference does not match, one character is passed over. */
  lemma ReplacePassesOver(text: string, rest: string, pattern: string, value: string)
    requires Inert(text) && text != "" && "${" <= pattern
    ensures ReplaceAll(text + rest, pattern, value) == [text[0]] + ReplaceAll(text[1..] + rest, pattern, value)
  {
    InertHead(text, rest);
    if pattern <= text + rest {
      PrefixOfPrefix("${", pattern, text + rest);
    }
    assert (text + rest)[1..] == text[1..] + rest;
  }

  lemma HeadBack(text: string, rest: string)
    requires text != ""
    ensures [text[0]] + (text[1..] + rest) == text + rest
  {
  }

  lemma PrefixOfPrefix(a: string, b: string, s: string)
    requires a <= b && b <= s
    ensures a <= s
  {
  }

  lemma {:induction false} ReplaceSkipsInert(text: string, rest: string, pattern: string, value: string)
    requires Inert(text) && "${" <= pattern
    ensures ReplaceAll(text + rest, pattern, value) == text + ReplaceAll(rest, pattern, value)
    decreases |text|
  {
    if text == "" {
      assert text + rest == rest;
    } else {
      InertTail(text);
      ReplaceSkipsInert(text[1..], rest, pattern, value);
      ReplacePassesOver(text, rest, pattern, value);
      HeadBack(text, ReplaceAll(rest, pattern, value));
    }
  }

  lemma InertTail(text: string)
    requires Inert(text) && text != ""
    ensures Inert(text[1..])
  {
    forall i | 0 <= i < |text[1..]| && text[1..][i] == '$' ensures i + 1 < |text[1..]| && text[1..][i + 1] != '{' {
      assert text[i + 1] == '$';
    }
  }

  /** Two references agree up to their first closing brace only if they name the same variable. */
  lemma ReferencePrefix(variable: string, name: string, rest: string)
    requires '}' !in variable && '}' !in name
    ensures Reference(variable) <= Reference(name) + rest <==> variable == name
  {
    var s := Reference(name) + rest;
    if Reference(variable) <= s {
      var p := Reference(variable);
      assert p[|p| - 1] == '}' && s[|name| + 2] == '}';
      if |variable| < |name| {
        assert false;
      } else if |name| < |variable| {
        assert false;
      } else {
        assert variable == p[2..|p| - 1] == s[2..|p| - 1] == name;
      }
    } else if variable == name {
      assert false;
    }
  }

  /** A placeholder of another name is passed over: after its dollar sign it is inert. */
  lemma ReplaceSkipsOther(name: string, rest: string, variable: string, value: string)
    requires WellFormedToken(Placeholder(name)) && '}' !in variable && variable != name
    ensures ReplaceAll(Reference(name) + rest, Reference(variable), value) ==
            Reference(name) + ReplaceAll(rest, Reference(variable), value)
  {
    var s, pattern, tail := Reference(name) + rest, Reference(variable), "{" + name + "}";
    ReferencePrefix(variable, name, rest);
    assert s[1..] == tail + rest && s[0] == '$';
    assert Inert(tail) by {
      forall i | 0 <= i < |tail| ensures tail[i] != '$' {
        assert 0 < i < |tail| - 1 ==> tail[i] == name[i - 1];
      }
    }
    ReplaceSkipsInert(tail, rest, pattern, value);
    assert ReplaceAll(s, pattern, value) == ['$'] + ReplaceAll(s[1..], pattern, value);
    assert Reference(name) == ['$'] + tail;
  }

  lemma ReplaceOneToken(t: Token, rest: string, variable: string, value: string)
    requires WellFormedToken(t) && '}' !in variable
    ensures ReplaceAll(RenderToken(t) + rest, Reference(variable), value) ==
            (if t == Placeholder(variable) then value else RenderToken(t)) + ReplaceAll(rest, Reference(variable), value)
  {
    if t.Literal? {
      ReplaceSkipsInert(t.text, rest, Reference(variable), value);
    } else if t.name == variable {
      ReferencePrefix(variable, t.name, rest);
      assert (Reference(variable) + rest)[|Reference(variable)|..] == rest;
    } else {
      ReplaceSkipsOther(t.name, rest, variable, value);
    }
  }

  /** On rendered tokens, replacing a reference is binding its placeholders. */
  lemma {:induction false} ReplaceBinds(tokens: seq<Token>, variable: string, value: seq<Token>)
    requires WellFormed(tokens) && '}' !in variable
    ensures ReplaceAll(Render(tokens), Reference(variable), Render(value)) == Render(Each(tokens, Bind(variable, value)))
    decreases |tokens|
  {
    if tokens != [] {
      var t := tokens[0];
      ReplaceOneToken(t, Render(tokens[1..]), variable, Render(value));
      ReplaceBinds(tokens[1..], variable, value);
      RenderOne(t);
      RenderAppend(Bind(variable, value)(t), Each(tokens[1..], Bind(variable, value)));
    }
  }

  lemma {:induction false} BindAbsent(tokens: seq<Token>, variable: string, value: seq<Token>)
    requires Placeholder(variable) !in tokens
    ensures Each(tokens, Bind(variable, value)) == tokens
    decreases |tokens|
  {
    if tokens != [] {
      assert tokens[0] in tokens && forall t :: t in tokens[1..] ==> t in tokens;
      BindAbsent(tokens[1..], variable, value);
      assert tokens == [tokens[0]] + tokens[1..];
    }
  }

  // ---- A whole map of variables ----

  /** The values of a map's variables, as tokens. */
  type Values = map<string, seq<Token>>

  function Rendered(values: Values): Table {
    map k | k in values :: Render(values[k])
  }

  /** Keys cannot close a reference early; values are made of tokens. */
  ghost predicate Usable(values: Values) {
    forall k :: k in values ==> '}' !in k && WellFormed(values[k])
  }

  /** No value mentions another key of the map, unless that key stands for its own reference. */
  ghost predicate Settled(values: Values, prefix: string) {
    forall k, other :: k in values && other in values && k != other && Placeholder(prefix + other) in values[k] ==>
      Render(values[other]) == Reference(prefix + other)
  }

  /** Placeholders of all the map's variables become their values, all at once. */
  function BindAll(values: Values, prefix: string): Token -> seq<Token> {
    (t: Token) => if t.Placeholder? && prefix <= t.name && t.name[|prefix|..] in values then values[t.name[|prefix|..]] else [t]
  }

  ghost function Restrict(values: Values, order: seq<string>): Values
    requires forall k :: k in order ==> k in values
  {
    map k | k in order :: values[k]
  }

  lemma RestrictNext(values: Values, init: seq<string>, last: string)
    requires last in values && forall k :: k in init ==> k in values
    ensures Restrict(values, init + [last]) == Restrict(values, init)[last := values[last]]
    ensures last !in init ==> last !in Restrict(values, init)
  {
  }

  lemma BindAllAt(t: Token, part: Values, key: string, value: seq<Token>, prefix: string)
    requires key !in part
    ensures BindAll(part[key := value], prefix)(t) == if t == Placeholder(prefix + key) then value else BindAll(part, prefix)(t)
    ensures BindAll(part, prefix)(Placeholder(prefix + key)) == [Placeholder(prefix + key)]
  {
    assert (prefix + key)[|prefix|..] == key && prefix <= prefix + key;
    if t.Placeholder? && prefix <= t.name {
      assert t.name == prefix + t.name[|prefix|..];
    }
  }

  /** A key that stands for its own reference may be bound or not. */
  lemma BindItself(tokens: seq<Token>, part: Values, key: string, value: seq<Token>, prefix: string)
    requires key !in part && Render(value) == Reference(prefix + key)
    ensures Render(Each(tokens, BindAll(part[key := value], prefix))) == Render(Each(tokens, BindAll(part, prefix)))
  {
    RenderOne(Placeholder(prefix + key));
    forall t | t in tokens ensures Render(BindAll(part[key := value], prefix)(t)) == Render(BindAll(part, prefix)(t)) {
      BindAllAt(t, part, key, value, prefix);
    }
    EachRendersAlike(tokens, BindAll(part[key := value], prefix), BindAll(part, prefix));
  }

  /** A key that the values bound so far do not mention joins them. */
  lemma BindOneMore(tokens: seq<Token>, part: Values, key: string, value: seq<Token>, prefix: string)
    requires key !in part && forall k :: k in part ==> Placeholder(prefix + key) !in part[k]
    ensures Each(Each(tokens, BindAll(part, prefix)), Bind(prefix + key, value)) == Each(tokens, BindAll(part[key := value], prefix))
  {
    forall t | t in tokens
      ensures Each(BindAll(part, prefix)(t), Bind(prefix + key, value)) == BindAll(part[key := value], prefix)(t)
    {
      BindAllAt(t, part, key, value, prefix);
      if BindAll(part, prefix)(t) == [t] {
        EachOne(t, Bind(prefix + key, value));
      } else {
        BindAbsent(BindAll(part, prefix)(t), prefix + key, value);
      }
    }
    EachTwice(tokens, BindAll(part, prefix), Bind(prefix + key, value), BindAll(part[key := value], prefix));
  }

  lemma BoundWellFormed(tokens: seq<Token>, values: Values, prefix: string)
    requires WellFormed(tokens) && Usable(values)
    ensures WellFormed(Each(tokens, BindAll(values, prefix)))
  {
    EachWellFormed(tokens, BindAll(values, prefix));
  }

  lemma ReplaceNextKey(tokens: seq<Token>, part: Values, key: string, values: Values, prefix: string)
    requires WellFormed(tokens) && Usable(values) && Settled(values, prefix) && '}' !in prefix
    requires key in values && key !in part && forall k :: k in part ==> k in values && part[k] == values[k]
    ensures ReplaceAll(Render(Each(tokens, BindAll(part, prefix))), Reference(prefix + key), Render(values[key])) ==
            Render(Each(tokens, BindAll(part[key := values[key]], prefix)))
  {
    var bound := Each(tokens, BindAll(part, prefix));
    if Render(values[key]) == Reference(prefix + key) {
      ReplaceByItself(Render(bound), Reference(prefix + key));
      BindItself(tokens, part, key, values[key], prefix);
    } else {
      BoundWellFormed(tokens, part, prefix);
      ReplaceBinds(bound, prefix + key, values[key]);
      BindOneMore(tokens, part, key, values[key], prefix);
    }
  }

  /** Whatever the order, the loop of replacements binds all variables of a settled map at once. */
  lemma {:induction false} ReplacementsBindAll(tokens: seq<Token>, order: seq<string>, values: Values, prefix: string)
    requires WellFormed(tokens) && Usable(values) && Settled(values, prefix) && '}' !in prefix
    requires forall k :: k in order ==> k in values
    requires forall i, j :: 0 <= i < j < |order| ==> order[i] != order[j]
    ensures ReplaceInOrder(Render(tokens), order, Rendered(values), References(prefix)) ==
            Render(Each(tokens, BindAll(Restrict(values, order), prefix)))
    decreases |order|
  {
    if order == [] {
      BindNothing(tokens, Restrict(values, order), prefix);
    } else {
      var init, last := order[..|order| - 1], order[|order| - 1];
      assert order == init + [last] && last !in init;
      ReplacementsBindAll(tokens, init, values, prefix);
      ReplaceNext(Render(tokens), init, last, Rendered(values), References(prefix));
      RestrictNext(values, init, last);
      ReplaceNextKey(tokens, Restrict(values, init), last, values, prefix);
    }
  }

  lemma {:induction false} BindNothing(tokens: seq<Token>, none: Values, prefix: string)
    requires none == map[]
    ensures Each(tokens, BindAll(none, prefix)) == tokens
    decreases |tokens|
  {
    if tokens != [] {
      BindNothing(tokens[1..], none, prefix);
      assert tokens == [tokens[0]] + tokens[1..];
    }
  }

  lemma WholeLoop(tokens: seq<Token>, order: seq<string>, values: Values, prefix: string)
    requires WellFormed(tokens) && Usable(values) && Settled(values, prefix) && '}' !in prefix
    requires IsOrdering(order, values.Keys)
    ensures ReplaceInOrder(Render(tokens), order, Rendered(values), References(prefix)) == Render(Each(tokens, BindAll(values, prefix)))
  {
    ReplacementsBindAll(tokens, order, values, prefix);
    assert Restrict(values, order) == values;
  }

  // ---- The regular-expression pass ----

  lemma OsPassesOver(text: string, rest: string, os: Table)
    requires Inert(text) && text != ""
    ensures ExpandOs(text + rest, os) == [text[0]] + ExpandOs(text[1..] + rest, os)
  {
    InertHead(text, rest);
    assert (text + rest)[1..] == text[1..] + rest;
  }

  lemma {:induction false} OsSkipsInert(text: string, rest: string, os: Table)
    requires Inert(text)
    ensures ExpandOs(text + rest, os) == text + ExpandOs(rest, os)
    decreases |text|
  {
    if text == "" {
      assert text + rest == rest;
    } else {
      InertTail(text);
      OsSkipsInert(text[1..], rest, os);
      OsPassesOver(text, rest, os);
      HeadBack(text, ExpandOs(rest, os));
    }
  }

  function OsToken(t: Token, os: Table): string {
    match t
    case Literal(text) => text
    case Placeholder(name) => Resolve(name, os)
  }

  /** A well-formed reference ends at its own closing brace. */
  lemma ReferenceEnds(name: string, rest: string)
    requires WellFormedToken(Placeholder(name))
    ensures var s := Reference(name) + rest;
            && "${" <= s && BraceFrom(s, 2) == |name| + 2 && |name| + 2 < |s|
            && s[2..|name| + 2] == name && s[|name| + 3..] == rest
  {
    var s := Reference(name) + rest;
    var j := BraceFrom(s, 2);
    assert s[|name| + 2] == '}';
    assert s[2..|name| + 2] == name;
    if j < |name| + 2 {
      assert false;
    } else if j > |name| + 2 {
      assert false;
    }
  }

  lemma OsOneToken(t: Token, rest: string, os: Table)
    requires WellFormedToken(t)
    ensures ExpandOs(RenderToken(t) + rest, os) == OsToken(t, os) + ExpandOs(rest, os)
  {
    match t
    case Literal(text) => OsSkipsInert(text, rest, os);
    case Placeholder(name) => ReferenceEnds(name, rest);
  }

  /** What the operating system makes of a token. */
  function FromOs(os: Table): Token -> seq<Token> {
    t => [Literal(OsToken(t, os))]
  }

  lemma {:induction false} OsExpands(tokens: seq<Token>, os: Table)
    requires WellFormed(tokens)
    ensures ExpandOs(Render(tokens), os) == Render(Each(tokens, FromOs(os)))
    decreases |tokens|
  {
    if tokens != [] {
      OsOneToken(tokens[0], Render(tokens[1..]), os);
      OsExpands(tokens[1..], os);
    }
  }

  // ---- The main result ----

  /** For every order of two settled maps, the chain binds the inputs, then the environment, then asks the system. */
  lemma ChainBinds(tokens: seq<Token>, inputs: Values, env: Values, os: Table, inputOrder: seq<string>, envOrder: seq<string>)
    requires WellFormed(tokens) && Usable(inputs) && Usable(env) && Settled(inputs, INPUT_PREFIX) && Settled(env, "")
    requires IsOrdering(inputOrder, inputs.Keys) && IsOrdering(envOrder, env.Keys)
    ensures Chain(Render(tokens), Rendered(inputs), Rendered(env), os, inputOrder, envOrder) ==
            Render(Each(Each(Each(tokens, BindAll(inputs, INPUT_PREFIX)), BindAll(env, "")), FromOs(os)))
  {
    var bound := Each(tokens, BindAll(inputs, INPUT_PREFIX));
    WholeLoop(tokens, inputOrder, inputs, INPUT_PREFIX);
    BoundWellFormed(tokens, inputs, INPUT_PREFIX);
    WholeLoop(bound, envOrder, env, "");
    BoundWellFormed(bound, env, "");
    OsExpands(Each(bound, BindAll(env, "")), os);
  }

  /** Values that open no reference, as single literals. */
  function Literals(table: Table): Values {
    map k | k in table :: [Literal(table[k])]
  }

  lemma LiteralsSettled(table: Table, prefix: string)
    requires CleanTable(table)
    ensures Usable(Literals(table)) && Settled(Literals(table), prefix) && Rendered(Literals(table)) == table
  {
    forall k | k in table ensures Render(Literals(table)[k]) == table[k] {
      RenderOne(Literal(table[k]));
    }
  }

  lemma {:induction false} LiteralsAreLookup(tokens: seq<Token>, inputs: Table, env: Table, os: Table)
    ensures Render(Each(Each(Each(tokens, BindAll(Literals(inputs), INPUT_PREFIX)), BindAll(Literals(env), "")), FromOs(os))) ==
            Expand(tokens, inputs, env, os)
    decreases |tokens|
  {
    if tokens != [] {
      LiteralsAreLookup(tokens[1..], inputs, env, os);
      var first := BindAll(Literals(inputs), INPUT_PREFIX)(tokens[0])[0];
      if first.Placeholder? {
        assert first.name[0..] == first.name;
      }
      var second := BindAll(Literals(env), "")(first)[0];
      assert OsToken(second, os) == Lookup(tokens[0], inputs, env, os);
    }
  }

  /** For every order of both maps, the chain of string replacements is token-wise lookup. */
  lemma ChainIsLookup(tokens: seq<Token>, inputs: Table, env: Table, os: Table,
                      inputOrder: seq<string>, envOrder: seq<string>)
    requires WellFormed(tokens) && CleanTable(inputs) && CleanTable(env)
    requires IsOrdering(inputOrder, inputs.Keys) && IsOrdering(envOrder, env.Keys)
    ensures Chain(Render(tokens), inputs, env, os, inputOrder, envOrder) == Expand(tokens, inputs, env, os)
  {
    LiteralsSettled(inputs, INPUT_PREFIX);
    LiteralsSettled(env, "");
    ChainBinds(tokens, Literals(inputs), Literals(env), os, inputOrder, envOrder);
    LiteralsAreLookup(tokens, inputs, env, os);
  }

  // ---- When the order shows ----

  /** Every key can be written as a placeholder. */
  ghost predicate Nameable(values: Values, prefix: string) {
    forall k :: k in values ==> WellFormedToken(Placeholder(prefix + k))
  }

  lemma {:induction false} BindingShortens(tokens: seq<Token>, variable: string)
    ensures |Render(Each(tokens, Bind(variable, [])))| <= |Render(tokens)|
    ensures Placeholder(variable) in tokens ==> |Render(Each(tokens, Bind(variable, [])))| < |Render(tokens)|
    decreases |tokens|
  {
    if tokens != [] {
      BindingShortens(tokens[1..], variable);
      RenderOne(tokens[0]);
      RenderAppend(Bind(variable, [])(tokens[0]), Each(tokens[1..], Bind(variable, [])));
      assert tokens == [tokens[0]] + tokens[1..];
    }
  }

  /** A mentioned variable that does not stand for its own reference changes the text. */
  lemma MentionedIsChanged(tokens: seq<Token>, variable: string, value: string)
    requires WellFormed(tokens) && '}' !in variable && Placeholder(variable) in tokens && value != Reference(variable)
    ensures ReplaceAll(Render(tokens), Reference(variable), value) != Render(tokens)
  {
    BindingShortens(tokens, variable);
    ReplaceBinds(tokens, variable, []);
    if Hits(Render(tokens), Reference(variable)) == 0 {
      ReplaceMissing(Render(tokens), Reference(variable), "");
    }
    ReplaceChanges(Render(tokens), Reference(variable), value);
  }

  lemma {:induction false} OthersPassOver(t: Token, order: seq<string>, table: Table, prefix: string)
    requires WellFormedToken(t) && '}' !in prefix
    requires forall k :: k in order ==> k in table && '}' !in k && t != Placeholder(prefix + k)
    ensures ReplaceInOrder(RenderToken(t), order, table, References(prefix)) == RenderToken(t)
    decreases |order|
  {
    if order != [] {
      var init, last := order[..|order| - 1], order[|order| - 1];
      assert last in order && forall k :: k in init ==> k in order;
      OthersPassOver(t, init, table, prefix);
      AlonePassesOver(t, prefix + last, table[last]);
    }
  }

  lemma AlonePassesOver(t: Token, variable: string, value: string)
    requires WellFormedToken(t) && '}' !in variable && t != Placeholder(variable)
    ensures ReplaceAll(RenderToken(t), Reference(variable), value) == RenderToken(t)
  {
    ReplaceOneToken(t, "", variable, value);
    assert RenderToken(t) + "" == RenderToken(t) && RenderToken(t) + ReplaceAll("", Reference(variable), value) == RenderToken(t);
  }

  lemma TwoLastKeys(s: string, rest: seq<string>, first: string, second: string, table: Table, prefix: string)
    requires first in table && second in table && forall k :: k in rest ==> k in table
    ensures ReplaceInOrder(s, rest + [first] + [second], table, References(prefix)) ==
            var before := ReplaceInOrder(s, rest, table, References(prefix));
            ReplaceAll(ReplaceAll(before, Reference(prefix + first), table[first]), Reference(prefix + second), table[second])
  {
    ReplaceNext(s, rest, first, table, References(prefix));
    ReplaceNext(s, rest + [first], second, table, References(prefix));
  }

  /** The reference to `key` comes out as its value, with `other` bound in it or not, as the order will have it. */
  lemma MentionIsVisible(values: Values, prefix: string, key: string, other: string) returns (before: seq<string>, after: seq<string>)
    requires Usable(values) && Nameable(values, prefix) && '}' !in prefix && key in values && other in values && key != other
    ensures IsOrdering(before, values.Keys) && IsOrdering(after, values.Keys)
    ensures ReplaceInOrder(Reference(prefix + key), before, Rendered(values), References(prefix)) ==
            ReplaceAll(Render(values[key]), Reference(prefix + other), Render(values[other]))
    ensures ReplaceInOrder(Reference(prefix + key), after, Rendered(values), References(prefix)) == Render(values[key])
  {
    var s, table := Reference(prefix + key), Rendered(values);
    var rest := TwoLast(values.Keys, key, other);
    before, after := rest + [key] + [other], rest + [other] + [key];
    forall k | k in values && k != key ensures Placeholder(prefix + key) != Placeholder(prefix + k) {
      assert (prefix + key)[|prefix|..] == key && (prefix + k)[|prefix|..] == k;
    }
    OthersPassOver(Placeholder(prefix + key), rest, table, prefix);
    TwoLastKeys(s, rest, key, other, table, prefix);
    TwoLastKeys(s, rest, other, key, table, prefix);
    AlonePassesOver(Placeholder(prefix + key), prefix + other, table[other]);
    ReplaceWhole(s, table[key]);
  }

  /** Two runs of one loop of replacements agree, whatever orders Go picks. */
  ghost predicate LoopOrdersAgree(s: string, table: Table, prefix: string) {
    forall a, b :: IsOrdering(a, table.Keys) && IsOrdering(b, table.Keys) ==>
      ReplaceInOrder(s, a, table, References(prefix)) == ReplaceInOrder(s, b, table, References(prefix))
  }

  lemma SettledLoopAgrees(values: Values, prefix: string, tokens: seq<Token>)
    requires WellFormed(tokens) && Usable(values) && Settled(values, prefix) && '}' !in prefix
    ensures LoopOrdersAgree(Render(tokens), Rendered(values), prefix)
  {
    var table := Rendered(values);
    assert table.Keys == values.Keys;
    forall a, b | IsOrdering(a, table.Keys) && IsOrdering(b, table.Keys)
      ensures ReplaceInOrder(Render(tokens), a, table, References(prefix)) == ReplaceInOrder(Render(tokens), b, table, References(prefix))
    {
      WholeLoop(tokens, a, values, prefix);
      WholeLoop(tokens, b, values, prefix);
    }
  }

  lemma UnsettledLoopDisagrees(values: Values, prefix: string, key: string, other: string)
    requires Usable(values) && Nameable(values, prefix) && '}' !in prefix && key in values && other in values && key != other
    requires Placeholder(prefix + other) in values[key] && Render(values[other]) != Reference(prefix + other)
    ensures !LoopOrdersAgree(Reference(prefix + key), Rendered(values), prefix)
  {
    var before, after := MentionIsVisible(values, prefix, key, other);
    MentionedIsChanged(values[key], prefix + other, Render(values[other]));
    assert Rendered(values).Keys == values.Keys;
  }

  /** The order of one map shows in no string after its loop if and only if the map is settled. */
  lemma LoopOrderShowsExactly(values: Values, prefix: string)
    requires Usable(values) && Nameable(values, prefix) && '}' !in prefix
    ensures (forall tokens :: WellFormed(tokens) ==> LoopOrdersAgree(Render(tokens), Rendered(values), prefix)) <==> Settled(values, prefix)
  {
    if Settled(values, prefix) {
      forall tokens | WellFormed(tokens) ensures LoopOrdersAgree(Render(tokens), Rendered(values), prefix) {
        SettledLoopAgrees(values, prefix, tokens);
      }
    } else {
      var key, other :| key in values && other in values && key != other && Placeholder(prefix + other) in values[key] &&
        Render(values[other]) != Reference(prefix + other);
      UnsettledLoopDisagrees(values, prefix, key, other);
      RenderOne(Placeholder(prefix + key));
      assert WellFormed([Placeholder(prefix + key)]);
    }
  }

  /** Two runs of the environment loop, and what the system adds, agree whatever orders Go picks. */
  ghost predicate OrdersAgree(s: string, env: Table, os: Table) {
    forall a, b :: IsOrdering(a, env.Keys) && IsOrdering(b, env.Keys) ==>
      Chain(s, map[], env, os, [], a) == Chain(s, map[], env, os, [], b)
  }

  lemma UnresolvedStays(tokens: seq<Token>)
    requires WellFormed(tokens)
    ensures ExpandOs(Render(tokens), map[]) == Render(tokens)
  {
    OsExpands(tokens, map[]);
    RenderedAlone(tokens);
  }

  lemma {:induction false} RenderedAlone(tokens: seq<Token>)
    ensures Render(Each(tokens, FromOs(map[]))) == Render(tokens)
    decreases |tokens|
  {
    if tokens != [] {
      RenderedAlone(tokens[1..]);
    }
  }

  /** The order of the environment shows in no string, on no system, if and only if the environment is settled. */
  lemma OrderShowsExactly(env: Values)
    requires Usable(env) && Nameable(env, "")
    ensures (forall tokens, os :: WellFormed(tokens) ==> OrdersAgree(Render(tokens), Rendered(env), os)) <==> Settled(env, "")
  {
    if Settled(env, "") {
      forall tokens, os, a, b | WellFormed(tokens) && IsOrdering(a, env.Keys) && IsOrdering(b, env.Keys)
        ensures Chain(Render(tokens), map[], Rendered(env), os, [], a) == Chain(Render(tokens), map[], Rendered(env), os, [], b)
      {
        WholeLoop(tokens, a, env, "");
        WholeLoop(tokens, b, env, "");
      }
      assert Rendered(env).Keys == env.Keys;
    } else {
      var key, other :| key in env && other in env && key != other && Placeholder("" + other) in env[key] &&
        Render(env[other]) != Reference("" + other);
      UnsettledShows(env, key, other);
      RenderOne(Placeholder(key));
      assert WellFormed([Placeholder(key)]) by { assert "" + key == key; }
    }
  }

  lemma UnsettledShows(env: Values, key: string, other: string)
    requires Usable(env) && Nameable(env, "") && key in env && other in env && key != other
    requires Placeholder("" + other) in env[key] && Render(env[other]) != Reference("" + other)
    ensures !OrdersAgree(Reference(key), Rendered(env), map[])
  {
    assert "" + key == key && "" + other == other;
    var before, after := MentionIsVisible(env, "", key, other);
    MentionedIsChanged(env[key], other, Render(env[other]));
    var bound := Each(env[key], Bind(other, env[other]));
    ReplaceBinds(env[key], other, env[other]);
    EachWellFormed(env[key], Bind(other, env[other]));
    UnresolvedStays(bound);
    UnresolvedStays(env[key]);
    var table := Rendered(env);
    assert Chain(Reference(key), map[], table, map[], [], before) == Render(bound);
    assert Chain(Reference(key), map[], table, map[], [], after) == Render(env[key]);
    assert table.Keys == env.Keys;
  }

  /** Why keys must not contain a closing brace: such a key matches across the end of another reference. */
  lemma BraceInKeyIsVisible(name: string, text: string, value: string)
    requires WellFormedToken(Placeholder(name)) && Inert(text) && Inert(value) && !(INPUT_PREFIX <= name)
    requires value != Reference(name) + text + "}"
    ensures var key, tokens := name + "}" + text, [Placeholder(name), Literal(text + "}")];
            var env: Table := map[key := value];
            && WellFormed(tokens) && IsOrdering([key], env.Keys)
            && Chain(Render(tokens), map[], env, map[], [], [key]) == value
            && Expand(tokens, map[], env, map[]) == Render(tokens) != value
  {
    var key, tokens := name + "}" + text, [Placeholder(name), Literal(text + "}")];
    SplitRendersWhole(name, text);
    OneVariable(Reference(key), key, value);
    ReplaceWhole(Reference(key), value);
    OneExpansion(Literal(value));
    SplitIsUnknown(name, text, key, value);
  }

  lemma SplitRendersWhole(name: string, text: string)
    requires WellFormedToken(Placeholder(name)) && Inert(text)
    ensures var tokens := [Placeholder(name), Literal(text + "}")];
            WellFormed(tokens) && Render(tokens) == Reference(name + "}" + text) == Reference(name) + text + "}"
  {
    TwoTokens(Placeholder(name), Literal(text + "}"));
    assert Inert(text + "}");
    assert Reference(name) + (text + "}") == Reference(name + "}" + text);
    assert Reference(name) + (text + "}") == Reference(name) + text + "}";
  }

  lemma TwoTokens(a: Token, b: Token)
    ensures Render([a, b]) == RenderToken(a) + RenderToken(b)
  {
    RenderOne(a);
    RenderOne(b);
    assert [a, b] == [a] + [b];
    RenderAppend([a], [b]);
  }

  /** Looked up token by token, the same text is a reference to another variable and some plain text. */
  lemma SplitIsUnknown(name: string, text: string, key: string, value: string)
    requires !(INPUT_PREFIX <= name) && key == name + "}" + text
    ensures Expand([Placeholder(name), Literal(text + "}")], map[], map[key := value], map[]) == Render([Placeholder(name), Literal(text + "}")])
  {
    var rest := [Literal(text + "}")];
    assert [Placeholder(name), Literal(text + "}")][1..] == rest && rest[1..] == [];
    assert |key| > |name|;
    var none: Table, env: Table := map[], map[key := value];
    assert Lookup(Placeholder(name), none, env, none) == Reference(name);
    assert Expand(rest, none, env, none) == text + "}" == Render(rest);
  }

  lemma OneVariable(s: string, key: string, value: string)
    ensures var env: Table := map[key := value];
            IsOrdering([key], env.Keys) && Chain(s, map[], env, map[], [], [key]) == ExpandOs(ReplaceAll(s, Reference(key), value), map[])
  {
    var env: Table := map[key := value];
    ReplaceNext(s, [], key, env, References(""));
    assert [] + [key] == [key] && "" + key == key;
  }

  lemma OneExpansion(t: Token)
    requires WellFormedToken(t)
    ensures ExpandOs(RenderToken(t), map[]) == RenderToken(t)
  {
    RenderOne(t);
    UnresolvedStays([t]);
  }

  lemma ReplaceWhole(s: string, value: string)
    requires s != ""
    ensures ReplaceAll(s, s, value) == value
  {
    assert s[|s|..] == "";
    assert ReplaceAll("", s, value) == "";
  }

  /** `r` is a result of substituting in `s`, for some iteration order of the two maps. */
  ghost predicate IsSubstitution(s: string, r: string, inputs: Table, env: Table, os: Table) {
    exists inputOrder, envOrder ::
      IsOrdering(inputOrder, inputs.Keys) && IsOrdering(envOrder, env.Keys) &&
      r == Chain(s, inputs, env, os, inputOrder, envOrder)
  }

  method SubstituteString(s: string, inputs: Table, env: Table, os: Table) returns (r: string)
    ensures IsSubstitution(s, r, inputs, env, os)
    ensures forall tokens :: WellFormed(tokens) && s == Render(tokens) && CleanTable(inputs) && CleanTable(env) ==>
      r == Expand(tokens, inputs, env, os)
  {
    var afterInputs, inputOrder := ReplaceEach(s, inputs, References(INPUT_PREFIX));
    var afterEnv, envOrder := ReplaceEach(afterInputs, env, References(""));
    r := ExpandOs(afterEnv, os);
    forall tokens | WellFormed(tokens) && s == Render(tokens) && CleanTable(inputs) && CleanTable(env)
      ensures r == Expand(tokens, inputs, env, os)
    {
      ChainIsLookup(tokens, inputs, env, os, inputOrder, envOrder);
    }
  }
}
