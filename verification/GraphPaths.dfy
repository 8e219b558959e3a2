/** Confining the read roots that plan patterns name, and rewriting the planner's prompt to match. */
module GraphPaths {
  import opened Basics
  import opened PathRewrites

  // ---- Confining the roots of plan patterns ----

  datatype Value = Text(text: string) | NotText

  /** A parameter of a pattern: its closed list, if it has one, and its default. */
  datatype Parameter = Parameter(values: Option<seq<Value>>, default: Option<Value>)

  /** A plan pattern: the read roots its nodes name, in the order they are collected, and its parameters. */
  datatype Pattern = Pattern(roots: seq<Value>, parameters: map<string, Parameter>)

  datatype Node = Node(prompt: Option<string>, patterns: Option<seq<Pattern>>)

  /** The project's policy: the canonical path a given one confines to, if it is allowed. */
  type Policy = string -> Option<string>

  predicate Plain(name: string) {
    name != "" && '$' !in name && '{' !in name && '}' !in name
  }

  /** Whether a read root is exactly one `${parameter}`. */
  predicate BarePlaceholder(text: string) {
    |text| >= 3 && text[0] == '$' && text[1] == '{' && text[|text| - 1] == '}' && Plain(text[2..|text| - 1])
  }

  /** A name that a placeholder can hold. */
  ghost predicate NameOnly(name: string) {
    name != "" && forall i :: 0 <= i < |name| ==> name[i] != '$' && name[i] != '{' && name[i] != '}'
  }

  lemma BareExactly(text: string)
    ensures BarePlaceholder(text) <==> exists name :: NameOnly(name) && text == "${" + name + "}"
  {
    forall name: string ensures Plain(name) <==> NameOnly(name) {
    }
    if BarePlaceholder(text) {
      assert text == "${" + text[2..|text| - 1] + "}";
    }
    forall name | NameOnly(name) && text == "${" + name + "}" ensures BarePlaceholder(text) {
      assert text[2..|text| - 1] == name;
    }
  }

  predicate HasPlaceholder(text: string) {
    exists i :: 0 <= i < |text| - 1 && text[i] == '$' && text[i + 1] == '{'
  }

  function Placeholder(name: string): string {
    "${" + name + "}"
  }

  /** A read root that is no text, or holds a placeholder among other text, is refused. */
  predicate UsableRoot(root: Value) {
    root.Text? && (HasPlaceholder(root.text) ==> BarePlaceholder(root.text))
  }

  /** A root is usable exactly if it is text that does not hold `${`, or is one placeholder and nothing else. */
  lemma UsableExactly(root: Value)
    ensures UsableRoot(root) <==>
      && root.Text?
      && ((forall a: string, b: string :: root.text != a + "${" + b) ||
          exists name :: NameOnly(name) && root.text == "${" + name + "}")
  {
    if root.Text? {
      BareExactly(root.text);
      if HasPlaceholder(root.text) {
        var i :| 0 <= i < |root.text| - 1 && root.text[i] == '$' && root.text[i + 1] == '{';
        assert root.text == root.text[..i] + "${" + root.text[i + 2..];
      } else {
        forall a: string, b: string ensures root.text != a + "${" + b {
          if root.text == a + "${" + b { PlaceholderAt(root.text, a, b); }
        }
      }
    }
  }

  lemma PlaceholderAt(text: string, a: string, b: string)
    requires text == a + "${" + b
    ensures HasPlaceholder(text)
  {
    assert text[|a|] == '$' && text[|a| + 1] == '{';
  }

  predicate UsableRoots(roots: seq<Value>) {
    forall i :: 0 <= i < |roots| ==> UsableRoot(roots[i])
  }

  /** The parameters that usable roots name, in their order. */
  function NamesIn(roots: seq<Value>): seq<string>
    requires UsableRoots(roots)
  {
    if roots == [] then []
    else
      var text := roots[|roots| - 1].text;
      NamesIn(roots[..|roots| - 1]) + if BarePlaceholder(text) then [text[2..|text| - 1]] else []
  }

  lemma BareHas(text: string)
    ensures BarePlaceholder(text) ==> HasPlaceholder(text)
  {
    if BarePlaceholder(text) { assert text[0] == '$' && text[0 + 1] == '{'; }
  }

  lemma BareName(text: string, name: string)
    ensures BarePlaceholder(text) && text[2..|text| - 1] == name <==> Plain(name) && text == Placeholder(name)
  {
    if BarePlaceholder(text) && text[2..|text| - 1] == name { assert text == Placeholder(name); }
    if Plain(name) && text == Placeholder(name) { assert text[2..|text| - 1] == name; }
  }

  /** A parameter is named if and only if its placeholder is one of the roots. */
  lemma {:induction false} NamedIff(roots: seq<Value>, name: string)
    requires UsableRoots(roots)
    ensures name in NamesIn(roots) <==> Plain(name) && Text(Placeholder(name)) in roots
  {
    if roots != [] {
      var init, last := roots[..|roots| - 1], roots[|roots| - 1];
      NamedIff(init, name);
      BareName(last.text, name);
      assert roots == init + [last];
    }
  }

  /** A value that may stand in a closed list: absolute text that the policy admits. */
  predicate Allowed(policy: Policy, v: Value) {
    v.Text? && Absolute(v.text) && policy(v.text).Some?
  }

  predicate AllAllowed(policy: Policy, values: seq<Value>) {
    forall i :: 0 <= i < |values| ==> Allowed(policy, values[i])
  }

  /** Every value replaced by the path it confines to. */
  function Canonised(policy: Policy, values: seq<Value>): (r: seq<Value>)
    requires AllAllowed(policy, values)
    ensures |r| == |values|
    ensures forall i :: 0 <= i < |r| ==> r[i] == Text(policy(values[i].text).value)
  {
    seq(|values|, i requires 0 <= i < |values| => Text(policy(values[i].text).value))
  }

  /** The values that confinement changes, with what they change to, in order. */
  function Changes(policy: Policy, values: seq<Value>): (r: seq<Rename>)
    requires AllAllowed(policy, values)
    ensures AllAbsolute(r)
  {
    if values == [] then []
    else
      var given := values[|values| - 1].text;
      var canonical := policy(given).value;
      Changes(policy, values[..|values| - 1]) + if canonical == given then [] else [Rename(given, canonical)]
  }

  predicate IsChange(policy: Policy, r: Rename) {
    policy(r.given) == Some(r.canonical) && r.given != r.canonical
  }

  /** The changes are exactly the values that the policy moves. */
  lemma {:induction false} ChangesMean(policy: Policy, values: seq<Value>, r: Rename)
    requires AllAllowed(policy, values)
    ensures r in Changes(policy, values) <==> IsChange(policy, r) && Text(r.given) in values
  {
    if values != [] {
      var init, last := values[..|values| - 1], values[|values| - 1];
      ChangesMean(policy, init, r);
      assert values == init + [last];
    }
  }

  function FirstRename(renamed: seq<Rename>, given: string): Option<string> {
    if renamed == [] then None
    else if renamed[0].given == given then Some(renamed[0].canonical)
    else FirstRename(renamed[1..], given)
  }

  /** A default that named a link follows its value. */
  function DefaultAfter(default: Option<Value>, renamed: seq<Rename>): Option<Value> {
    if default.Some? && default.value.Text? then
      match FirstRename(renamed, default.value.text)
      case None => default
      case Some(canonical) => Some(Text(canonical))
    else default
  }

  /** A parameter with a closed list of allowed values. */
  predicate Closed(policy: Policy, p: Parameter) {
    p.values.Some? && p.values.value != [] && AllAllowed(policy, p.values.value)
  }

  function ConfineParameter(policy: Policy, p: Parameter, renamed: seq<Rename>)
    : (r: Option<(Parameter, seq<Rename>)>)
    ensures r.Some? && AllAbsolute(renamed) ==> AllAbsolute(r.value.1)
  {
    if !Closed(policy, p) then None
    else
      var all := renamed + Changes(policy, p.values.value);
      Some((Parameter(Some(Canonised(policy, p.values.value)), DefaultAfter(p.default, all)), all))
  }

  function ParametersFrom(
    policy: Policy, names: seq<string>, i: nat, parameters: map<string, Parameter>, renamed: seq<Rename>)
    : (r: Option<(map<string, Parameter>, seq<Rename>)>)
    requires i <= |names|
    ensures r.Some? && AllAbsolute(renamed) ==> AllAbsolute(r.value.1)
    decreases |names| - i
  {
    if i == |names| then Some((parameters, renamed))
    else if names[i] !in parameters then None
    else
      match ConfineParameter(policy, parameters[names[i]], renamed)
      case None => None
      case Some((p, renamed')) => ParametersFrom(policy, names, i + 1, parameters[names[i] := p], renamed')
  }

  function ConfinePattern(policy: Policy, p: Pattern, renamed: seq<Rename>): (r: Option<(Pattern, seq<Rename>)>)
    ensures r.Some? && AllAbsolute(renamed) ==> AllAbsolute(r.value.1)
  {
    if !UsableRoots(p.roots) then None
    else
      match ParametersFrom(policy, NamesIn(p.roots), 0, p.parameters, renamed)
      case None => None
      case Some((parameters, renamed')) => Some((p.(parameters := parameters), renamed'))
  }

  function PatternsFrom(policy: Policy, patterns: seq<Pattern>, i: nat, renamed: seq<Rename>)
    : (r: Option<(seq<Pattern>, seq<Rename>)>)
    requires i <= |patterns|
    ensures r.Some? && AllAbsolute(renamed) ==> AllAbsolute(r.value.1)
    decreases |patterns| - i
  {
    if i == |patterns| then Some((patterns, renamed))
    else
      match ConfinePattern(policy, patterns[i], renamed)
      case None => None
      case Some((p, renamed')) => PatternsFrom(policy, patterns[i := p], i + 1, renamed')
  }

  function Confined(alnum: char -> bool, policy: Policy, node: Node): Option<Node> {
    if node.patterns.None? then Some(node)
    else
      match PatternsFrom(policy, node.patterns.value, 0, [])
      case None => None
      case Some((patterns, renamed)) =>
        Some(Node(if node.prompt.Some? then Some(PromptFrom(alnum, node.prompt.value, renamed, 0)) else None,
                  Some(patterns)))
  }

  // ---- Confining twice ----

  /** The policy maps an allowed path to an absolute one that it leaves alone. */
  ghost predicate Settles(policy: Policy) {
    forall x: string :: policy(x).Some? ==> Absolute(policy(x).value) && policy(policy(x).value) == policy(x)
  }

  /** A value that confinement accepts and leaves alone. */
  predicate Canonical(policy: Policy, v: Value) {
    v.Text? && Absolute(v.text) && policy(v.text) == Some(v.text)
  }

  ghost predicate AllCanonical(policy: Policy, values: seq<Value>, n: nat) {
    n <= |values| && forall i :: 0 <= i < n ==> Canonical(policy, values[i])
  }

  lemma ValuesBecomeCanonical(policy: Policy, values: seq<Value>)
    requires Settles(policy) && AllAllowed(policy, values)
    ensures AllCanonical(policy, Canonised(policy, values), |values|)
  {
  }

  lemma {:induction false} CanonicalValuesStay(policy: Policy, values: seq<Value>)
    requires AllCanonical(policy, values, |values|)
    ensures AllAllowed(policy, values) && Canonised(policy, values) == values && Changes(policy, values) == []
  {
    if values != [] {
      CanonicalValuesStay(policy, values[..|values| - 1]);
    }
  }

  /** A parameter whose closed list is canonical. */
  ghost predicate CanonicalParameter(policy: Policy, p: Parameter) {
    p.values.Some? && p.values.value != [] && AllCanonical(policy, p.values.value, |p.values.value|)
  }

  lemma ParameterBecomesCanonical(policy: Policy, p: Parameter, renamed: seq<Rename>)
    requires Settles(policy) && ConfineParameter(policy, p, renamed).Some?
    ensures CanonicalParameter(policy, ConfineParameter(policy, p, renamed).value.0)
  {
    ValuesBecomeCanonical(policy, p.values.value);
  }

  lemma CanonicalParameterStays(policy: Policy, p: Parameter)
    requires CanonicalParameter(policy, p)
    ensures ConfineParameter(policy, p, []) == Some((p, []))
  {
    CanonicalValuesStay(policy, p.values.value);
  }

  /** The first `n` names have canonical parameters. */
  ghost predicate CanonicalNames(policy: Policy, names: seq<string>, n: nat, parameters: map<string, Parameter>) {
    n <= |names| &&
    forall i :: 0 <= i < n ==> names[i] in parameters && CanonicalParameter(policy, parameters[names[i]])
  }

  lemma OneMoreCanonical(policy: Policy, names: seq<string>, i: nat, parameters: map<string, Parameter>, p: Parameter)
    requires i < |names| && CanonicalNames(policy, names, i, parameters) && CanonicalParameter(policy, p)
    ensures CanonicalNames(policy, names, i + 1, parameters[names[i] := p])
  {
  }

  lemma {:induction false} ParametersBecomeCanonical(
    policy: Policy, names: seq<string>, i: nat, parameters: map<string, Parameter>, renamed: seq<Rename>)
    requires Settles(policy) && CanonicalNames(policy, names, i, parameters)
    requires ParametersFrom(policy, names, i, parameters, renamed).Some?
    ensures CanonicalNames(policy, names, |names|, ParametersFrom(policy, names, i, parameters, renamed).value.0)
    decreases |names| - i
  {
    if i < |names| {
      ParameterBecomesCanonical(policy, parameters[names[i]], renamed);
      var (p, renamed') := ConfineParameter(policy, parameters[names[i]], renamed).value;
      OneMoreCanonical(policy, names, i, parameters, p);
      ParametersBecomeCanonical(policy, names, i + 1, parameters[names[i] := p], renamed');
    }
  }

  lemma {:induction false} CanonicalParametersStay(
    policy: Policy, names: seq<string>, i: nat, parameters: map<string, Parameter>)
    requires i <= |names| && CanonicalNames(policy, names, |names|, parameters)
    ensures ParametersFrom(policy, names, i, parameters, []) == Some((parameters, []))
    decreases |names| - i
  {
    if i < |names| {
      var p := parameters[names[i]];
      CanonicalParameterStays(policy, p);
      assert parameters[names[i] := p] == parameters;
      CanonicalParametersStay(policy, names, i + 1, parameters);
    }
  }

  ghost predicate CanonicalPattern(policy: Policy, p: Pattern) {
    UsableRoots(p.roots) && CanonicalNames(policy, NamesIn(p.roots), |NamesIn(p.roots)|, p.parameters)
  }

  lemma PatternBecomesCanonical(policy: Policy, p: Pattern, renamed: seq<Rename>)
    requires Settles(policy) && ConfinePattern(policy, p, renamed).Some?
    ensures CanonicalPattern(policy, ConfinePattern(policy, p, renamed).value.0)
  {
    ParametersBecomeCanonical(policy, NamesIn(p.roots), 0, p.parameters, renamed);
  }

  lemma CanonicalPatternStays(policy: Policy, p: Pattern)
    requires CanonicalPattern(policy, p)
    ensures ConfinePattern(policy, p, []) == Some((p, []))
  {
    CanonicalParametersStay(policy, NamesIn(p.roots), 0, p.parameters);
  }

  ghost predicate CanonicalPatterns(policy: Policy, patterns: seq<Pattern>, n: nat) {
    n <= |patterns| && forall i :: 0 <= i < n ==> CanonicalPattern(policy, patterns[i])
  }

  lemma {:induction false} PatternsBecomeCanonical(
    policy: Policy, patterns: seq<Pattern>, i: nat, renamed: seq<Rename>)
    requires Settles(policy) && CanonicalPatterns(policy, patterns, i)
    requires PatternsFrom(policy, patterns, i, renamed).Some?
    ensures var r := PatternsFrom(policy, patterns, i, renamed).value.0; CanonicalPatterns(policy, r, |r|)
    decreases |patterns| - i
  {
    if i < |patterns| {
      PatternBecomesCanonical(policy, patterns[i], renamed);
      var (p, renamed') := ConfinePattern(policy, patterns[i], renamed).value;
      PatternsBecomeCanonical(policy, patterns[i := p], i + 1, renamed');
    }
  }

  lemma {:induction false} CanonicalPatternsStay(policy: Policy, patterns: seq<Pattern>, i: nat)
    requires i <= |patterns| && CanonicalPatterns(policy, patterns, |patterns|)
    ensures PatternsFrom(policy, patterns, i, []) == Some((patterns, []))
    decreases |patterns| - i
  {
    if i < |patterns| {
      CanonicalPatternStays(policy, patterns[i]);
      assert patterns[i := patterns[i]] == patterns;
      CanonicalPatternsStay(policy, patterns, i + 1);
    }
  }

  /** Confining an admitted node again succeeds and changes nothing: values, defaults and prompt all stay. */
  lemma ConfinedTwice(alnum: char -> bool, policy: Policy, node: Node)
    requires Settles(policy) && Confined(alnum, policy, node).Some?
    ensures Confined(alnum, policy, Confined(alnum, policy, node).value) == Confined(alnum, policy, node)
  {
    if node.patterns.Some? {
      PatternsBecomeCanonical(policy, node.patterns.value, 0, []);
      CanonicalPatternsStay(policy, Confined(alnum, policy, node).value.patterns.value, 0);
    }
  }

  /** After a success every value that a root can take is canonical and allowed. */
  lemma ConfinedIsCanonical(alnum: char -> bool, policy: Policy, node: Node)
    requires Settles(policy) && Confined(alnum, policy, node).Some? && node.patterns.Some?
    ensures var r := Confined(alnum, policy, node).value.patterns;
      r.Some? && CanonicalPatterns(policy, r.value, |r.value|)
  {
    PatternsBecomeCanonical(policy, node.patterns.value, 0, []);
  }

  // ---- What confinement does to a pattern ----

  /** Every rename is one the policy makes. */
  ghost predicate Consistent(policy: Policy, renamed: seq<Rename>) {
    forall i :: 0 <= i < |renamed| ==> IsChange(policy, renamed[i])
  }

  /** One parameter, confined: each value is the path it confines to, and a default from the list is still in it. */
  ghost predicate ParameterConfined(policy: Policy, before: Parameter, after: Parameter) {
    && Closed(policy, before) && after.values == Some(Canonised(policy, before.values.value))
    && (before.default.Some? && before.default.value in before.values.value ==>
          after.default == Some(Text(policy(before.default.value.text).value)))
  }

  /** The first `i` names are confined; every other parameter is as it was. */
  ghost predicate NamesConfined(
    policy: Policy, names: seq<string>, i: nat, before: map<string, Parameter>, after: map<string, Parameter>)
  {
    && i <= |names| && after.Keys == before.Keys
    && (forall k :: 0 <= k < i ==> names[k] in before)
    && forall name :: name in before ==>
      if name in names[..i] then ParameterConfined(policy, before[name], after[name]) else after[name] == before[name]
  }

  /** A rename is looked up to what the policy says, if it is there at all. */
  lemma {:induction false} FirstRenameMeans(policy: Policy, renamed: seq<Rename>, given: string)
    requires Consistent(policy, renamed)
    ensures FirstRename(renamed, given).Some? ==>
      policy(given) == FirstRename(renamed, given) && FirstRename(renamed, given) != Some(given)
    ensures FirstRename(renamed, given).None? ==> forall i :: 0 <= i < |renamed| ==> renamed[i].given != given
  {
    if renamed != [] && renamed[0].given != given {
      FirstRenameMeans(policy, renamed[1..], given);
      if FirstRename(renamed, given).None? {
        forall i | 0 <= i < |renamed| ensures renamed[i].given != given {
          if i > 0 { assert renamed[i] == renamed[1..][i - 1]; }
        }
      }
    }
  }

  lemma ConsistentMore(policy: Policy, renamed: seq<Rename>, values: seq<Value>)
    requires Consistent(policy, renamed) && AllAllowed(policy, values)
    ensures Consistent(policy, renamed + Changes(policy, values))
  {
    var all := renamed + Changes(policy, values);
    forall i | 0 <= i < |all| ensures IsChange(policy, all[i]) {
      if i >= |renamed| { ChangesMean(policy, values, all[i]); }
    }
  }

  /** A default that is a value of the list follows it. */
  lemma DefaultFollows(policy: Policy, values: seq<Value>, renamed: seq<Rename>, v: Value)
    requires Consistent(policy, renamed) && AllAllowed(policy, values) && v in values && Allowed(policy, v)
    ensures DefaultAfter(Some(v), renamed + Changes(policy, values)) == Some(Text(policy(v.text).value))
  {
    var all, r := renamed + Changes(policy, values), Rename(v.text, policy(v.text).value);
    ConsistentMore(policy, renamed, values);
    FirstRenameMeans(policy, all, v.text);
    ChangesMean(policy, values, r);
    if r in Changes(policy, values) { assert r in all; }
  }

  lemma ConfinedFirst(policy: Policy, p: Parameter, renamed: seq<Rename>)
    requires Consistent(policy, renamed) && Closed(policy, p)
    ensures ParameterConfined(policy, p, ConfineParameter(policy, p, renamed).value.0)
  {
    if p.default.Some? && p.default.value in p.values.value {
      DefaultFollows(policy, p.values.value, renamed, p.default.value);
    }
  }

  /** Confining a parameter once more finds nothing to change. */
  lemma ConfinedAgain(policy: Policy, before: Parameter, after: Parameter, renamed: seq<Rename>)
    requires Settles(policy) && Consistent(policy, renamed) && ParameterConfined(policy, before, after)
    ensures var r := ConfineParameter(policy, after, renamed);
      r.Some? && ParameterConfined(policy, before, r.value.0) && r.value.1 == renamed
  {
    ValuesBecomeCanonical(policy, before.values.value);
    CanonicalValuesStay(policy, after.values.value);
    JoinNothing(renamed);
    if before.default.Some? && before.default.value in before.values.value {
      FirstRenameMeans(policy, renamed, after.default.value.text);
    }
  }

  /** The rename is of a value in the closed list of one of the first `i` names. */
  ghost predicate FromNames(
    policy: Policy, names: seq<string>, i: nat, before: map<string, Parameter>, r: Rename)
    requires i <= |names|
  {
    IsChange(policy, r) && exists name :: name in names[..i] && HasValue(before, name, r.given)
  }

  predicate HasValue(before: map<string, Parameter>, name: string, given: string) {
    name in before && before[name].values.Some? && Text(given) in before[name].values.value
  }

  ghost predicate RenamesExact(
    policy: Policy, names: seq<string>, i: nat, before: map<string, Parameter>, known: seq<Rename>,
    renamed: seq<Rename>)
    requires i <= |names|
  {
    forall r :: r in renamed <==> r in known || FromNames(policy, names, i, before, r)
  }

  lemma NamesPrefix(names: seq<string>, i: nat)
    requires i < |names|
    ensures forall name :: name in names[..i + 1] <==> name in names[..i] || name == names[i]
  {
    assert names[..i + 1] == names[..i] + [names[i]];
  }

  /** One more name is confined. */
  lemma NamesStep(
    policy: Policy, names: seq<string>, i: nat, before: map<string, Parameter>, now: map<string, Parameter>,
    renamed: seq<Rename>)
    requires Settles(policy) && Consistent(policy, renamed) && i < |names|
    requires NamesConfined(policy, names, i, before, now) && names[i] in before && Closed(policy, before[names[i]])
    ensures var r := ConfineParameter(policy, now[names[i]], renamed);
      && r.Some? && Consistent(policy, r.value.1)
      && NamesConfined(policy, names, i + 1, before, now[names[i] := r.value.0])
  {
    NamesPrefix(names, i);
    if names[i] in names[..i] {
      ConfinedAgain(policy, before[names[i]], now[names[i]], renamed);
    } else {
      ConfinedFirst(policy, before[names[i]], renamed);
      ConsistentMore(policy, renamed, before[names[i]].values.value);
    }
  }

  lemma RenamesStep(
    policy: Policy, names: seq<string>, i: nat, before: map<string, Parameter>, now: map<string, Parameter>,
    known: seq<Rename>, renamed: seq<Rename>)
    requires Settles(policy) && Consistent(policy, renamed) && i < |names|
    requires NamesConfined(policy, names, i, before, now) && names[i] in before && Closed(policy, before[names[i]])
    requires RenamesExact(policy, names, i, before, known, renamed)
    ensures ConfineParameter(policy, now[names[i]], renamed).Some?
    ensures RenamesExact(policy, names, i + 1, before, known, ConfineParameter(policy, now[names[i]], renamed).value.1)
  {
    NamesPrefix(names, i);
    if names[i] in names[..i] {
      ConfinedAgain(policy, before[names[i]], now[names[i]], renamed);
    } else {
      var values := before[names[i]].values.value;
      forall r ensures r in Changes(policy, values) <==> IsChange(policy, r) && HasValue(before, names[i], r.given) {
        ChangesMean(policy, values, r);
      }
    }
  }

  /** Every named parameter has a closed list of allowed values. */
  ghost predicate AllClosed(policy: Policy, names: seq<string>, i: nat, before: map<string, Parameter>) {
    forall k :: i <= k < |names| ==> names[k] in before && Closed(policy, before[names[k]])
  }

  lemma {:induction false} ParametersMean(
    policy: Policy, names: seq<string>, i: nat, before: map<string, Parameter>, now: map<string, Parameter>,
    known: seq<Rename>, renamed: seq<Rename>)
    requires Settles(policy) && Consistent(policy, renamed) && i <= |names|
    requires NamesConfined(policy, names, i, before, now) && RenamesExact(policy, names, i, before, known, renamed)
    ensures ParametersFrom(policy, names, i, now, renamed).Some? <==> AllClosed(policy, names, i, before)
    ensures ParametersFrom(policy, names, i, now, renamed).Some? ==>
      var (after, all) := ParametersFrom(policy, names, i, now, renamed).value;
      && NamesConfined(policy, names, |names|, before, after) && Consistent(policy, all)
      && RenamesExact(policy, names, |names|, before, known, all)
    decreases |names| - i
  {
    if i < |names| && names[i] in before {
      if Closed(policy, before[names[i]]) {
        NamesStep(policy, names, i, before, now, renamed);
        RenamesStep(policy, names, i, before, now, known, renamed);
        var (p, all) := ConfineParameter(policy, now[names[i]], renamed).value;
        ParametersMean(policy, names, i + 1, before, now[names[i] := p], known, all);
      } else {
        NeverConfined(policy, names, i, before, now);
      }
    }
  }

  /** A parameter that is not closed has not been confined before. */
  lemma NeverConfined(
    policy: Policy, names: seq<string>, i: nat, before: map<string, Parameter>, now: map<string, Parameter>)
    requires i < |names| && NamesConfined(policy, names, i, before, now) && names[i] in before
    requires !Closed(policy, before[names[i]])
    ensures now[names[i]] == before[names[i]]
  {
  }

  /** The rename is of a value that a root of one of the first `n` patterns can take. */
  ghost predicate FromPatterns(policy: Policy, patterns: seq<Pattern>, n: nat, r: Rename)
    requires n <= |patterns|
  {
    exists k :: 0 <= k < n && FromPattern(policy, patterns[k], r)
  }

  ghost predicate FromPattern(policy: Policy, p: Pattern, r: Rename) {
    UsableRoots(p.roots) && FromNames(policy, NamesIn(p.roots), |NamesIn(p.roots)|, p.parameters, r)
  }

  ghost predicate RenamesOf(policy: Policy, patterns: seq<Pattern>, n: nat, renamed: seq<Rename>)
    requires n <= |patterns|
  {
    Consistent(policy, renamed) && forall r :: r in renamed <==> FromPatterns(policy, patterns, n, r)
  }

  /** The renames of a node are exactly the values of its closed lists that the policy moves, with where it does. */
  lemma {:induction false} RenamesExactly(
    policy: Policy, patterns: seq<Pattern>, i: nat, now: seq<Pattern>, renamed: seq<Rename>)
    requires Settles(policy) && i <= |patterns| == |now| && now[i..] == patterns[i..]
    requires RenamesOf(policy, patterns, i, renamed) && PatternsFrom(policy, now, i, renamed).Some?
    ensures RenamesOf(policy, patterns, |patterns|, PatternsFrom(policy, now, i, renamed).value.1)
    decreases |patterns| - i
  {
    if i < |patterns| {
      assert now[i] == now[i..][0] == patterns[i..][0];
      var (p, all) := ConfinePattern(policy, now[i], renamed).value;
      PatternRenames(policy, patterns, i, renamed);
      assert now[i := p][i + 1..] == now[i..][1..] == patterns[i..][1..] == patterns[i + 1..];
      RenamesExactly(policy, patterns, i + 1, now[i := p], all);
    }
  }

  lemma PatternRenames(policy: Policy, patterns: seq<Pattern>, i: nat, renamed: seq<Rename>)
    requires Settles(policy) && i < |patterns| && RenamesOf(policy, patterns, i, renamed)
    requires ConfinePattern(policy, patterns[i], renamed).Some?
    ensures RenamesOf(policy, patterns, i + 1, ConfinePattern(policy, patterns[i], renamed).value.1)
  {
    var p := patterns[i];
    ParametersMean(policy, NamesIn(p.roots), 0, p.parameters, p.parameters, renamed, renamed);
    var all := ConfinePattern(policy, p, renamed).value.1;
    forall r ensures r in all <==> FromPatterns(policy, patterns, i + 1, r) {
      assert r in all <==> r in renamed || FromPattern(policy, p, r);
    }
  }

  // ---- The edits in place ----

  lemma NamesPush(roots: seq<Value>, i: nat)
    requires i < |roots| && UsableRoots(roots[..i]) && UsableRoot(roots[i])
    ensures UsableRoots(roots[..i + 1])
    ensures var text := roots[i].text;
      NamesIn(roots[..i + 1])
      == NamesIn(roots[..i]) + if BarePlaceholder(text) then [text[2..|text| - 1]] else []
  {
    assert roots[..i + 1][..i] == roots[..i];
  }

  /** Succeeds exactly on usable roots, with the parameters whose placeholders they are, in the order of the roots. */
  method CollectNames(roots: seq<Value>) returns (r: Option<seq<string>>)
    ensures r.Some? <==> UsableRoots(roots)
    ensures r.Some? ==> r.value == NamesIn(roots)
    ensures r.Some? ==> forall name :: name in r.value <==> Plain(name) && Text(Placeholder(name)) in roots
  {
    var names: seq<string> := [];
    var i := 0;
    while i < |roots|
      invariant 0 <= i <= |roots| && UsableRoots(roots[..i]) && names == NamesIn(roots[..i])
    {
      var root := roots[i];
      if root.NotText? { return None; }
      BareHas(root.text);
      if HasPlaceholder(root.text) {
        if !BarePlaceholder(root.text) { return None; }
        names := names + [root.text[2..|root.text| - 1]];
      } else {
        JoinNothing(names);
      }
      NamesPush(roots, i);
      i := i + 1;
    }
    assert roots[..i] == roots;
    forall name ensures name in names <==> Plain(name) && Text(Placeholder(name)) in roots { NamedIff(roots, name); }
    return Some(names);
  }

  lemma ChangesPush(policy: Policy, values: seq<Value>, i: nat)
    requires i < |values| && AllAllowed(policy, values[..i]) && Allowed(policy, values[i])
    ensures AllAllowed(policy, values[..i + 1])
    ensures var given := values[i].text;
      var canonical := policy(given).value;
      Changes(policy, values[..i + 1])
      == Changes(policy, values[..i]) + if canonical == given then [] else [Rename(given, canonical)]
  {
    assert values[..i + 1][..i] == values[..i];
  }

  /**
   Succeeds exactly if every value is absolute text that the policy admits. Then every value is the path it confines to,
   and the changed ones are remembered in order after the known ones.
   */
  method ConfineValues(policy: Policy, list: seq<Value>, known: seq<Rename>)
    returns (r: Option<(seq<Value>, seq<Rename>)>)
    ensures r.Some? <==> AllAllowed(policy, list)
    ensures r.Some? ==> |r.value.0| == |list|
    ensures r.Some? ==> forall i :: 0 <= i < |list| ==> r.value.0[i] == Text(policy(list[i].text).value)
    ensures r.Some? ==> r.value.1 == known + Changes(policy, list)
  {
    var values, renamed := list, known;
    var i := 0;
    JoinNothing(known);
    while i < |values|
      invariant 0 <= i <= |values| == |list| && AllAllowed(policy, list[..i])
      invariant forall k :: 0 <= k < i ==> Allowed(policy, list[k]) && values[k] == Text(policy(list[k].text).value)
      invariant forall k :: i <= k < |list| ==> values[k] == list[k]
      invariant renamed == known + Changes(policy, list[..i])
    {
      if values[i].NotText? || !Absolute(values[i].text) { return None; }
      var given := values[i].text;
      var canonical := policy(given);
      if canonical.None? { return None; }
      ChangesPush(policy, list, i);
      JoinNothing(Changes(policy, list[..i]));
      if canonical.value != given {
        Group2(known, Changes(policy, list[..i]), [Rename(given, canonical.value)]);
        renamed := renamed + [Rename(given, canonical.value)];
        values := values[i := Text(canonical.value)];
      }
      i := i + 1;
    }
    assert list[..i] == list;
    return Some((values, renamed));
  }

  /**
   Success exactly if the roots are usable and every named parameter has a closed list of allowed values; then the
   parameters and the renames are told name by name.
   */
  ghost predicate PatternConfined(
    policy: Policy, pattern: Pattern, known: seq<Rename>, r: Option<(Pattern, seq<Rename>)>)
  {
    && (r.Some? <==>
          UsableRoots(pattern.roots) && AllClosed(policy, NamesIn(pattern.roots), 0, pattern.parameters))
    && (r.Some? ==>
          var names := NamesIn(pattern.roots);
          && r.value.0.roots == pattern.roots
          && NamesConfined(policy, names, |names|, pattern.parameters, r.value.0.parameters)
          && RenamesExact(policy, names, |names|, pattern.parameters, known, r.value.1))
  }

  lemma PatternMeans(policy: Policy, pattern: Pattern, known: seq<Rename>)
    ensures Settles(policy) && Consistent(policy, known) ==>
      PatternConfined(policy, pattern, known, ConfinePattern(policy, pattern, known))
  {
    if Settles(policy) && Consistent(policy, known) && UsableRoots(pattern.roots) {
      ParametersMean(policy, NamesIn(pattern.roots), 0, pattern.parameters, pattern.parameters, known, known);
    }
  }

  method ConfineParameters(policy: Policy, pattern: Pattern, known: seq<Rename>)
    returns (r: Option<(Pattern, seq<Rename>)>)
    ensures r == ConfinePattern(policy, pattern, known)
    // Under a policy that settles, success and result are told name by name.
    ensures Settles(policy) && Consistent(policy, known) ==> PatternConfined(policy, pattern, known, r)
  {
    PatternMeans(policy, pattern, known);
    var collected := CollectNames(pattern.roots);
    if collected.None? { return None; }
    var names := collected.value;
    var parameters, renamed := pattern.parameters, known;
    var i := 0;
    while i < |names|
      invariant 0 <= i <= |names|
      invariant ParametersFrom(policy, names, 0, pattern.parameters, known)
        == ParametersFrom(policy, names, i, parameters, renamed)
    {
      var name := names[i];
      if name !in parameters { return None; }
      var list := parameters[name].values;
      if list.None? || list.value == [] { return None; }
      var confined := ConfineValues(policy, list.value, renamed);
      if confined.None? { return None; }
      assert confined.value.0 == Canonised(policy, list.value);
      renamed := confined.value.1;
      var default := DefaultAfter(parameters[name].default, renamed);
      parameters := parameters[name := Parameter(Some(confined.value.0), default)];
      i := i + 1;
    }
    return Some((pattern.(parameters := parameters), renamed));
  }

  class GraphNode {
    var prompt: Option<string>
    var patterns: Option<seq<Pattern>>

    ghost function Contents(): Node
      reads this
    {
      Node(prompt, patterns)
    }

    /** Confines every pattern, then rewrites the prompt; a refused pattern leaves the prompt as it was. */
    method ConfinePatternRoots(alnum: char -> bool, policy: Policy) returns (ok: bool)
      modifies this
      ensures ok <==> Confined(alnum, policy, old(Contents())).Some?
      ensures ok ==> Contents() == Confined(alnum, policy, old(Contents())).value
      // Where the renames are orderly, every given path of the prompt is replaced once by its canonical path.
      ensures ok && old(prompt).Some? && old(patterns).Some? ==>
        var renamed := PatternsFrom(policy, old(patterns).value, 0, []).value.1;
        Orderly(alnum, renamed) ==> prompt == Some(Substituted(alnum, None, old(prompt).value, renamed))
      ensures !ok ==> prompt == old(prompt)
    {
      if patterns.None? { return true; }
      var edited: seq<Pattern> := patterns.value;
      var renamed: seq<Rename> := [];
      var i := 0;
      while i < |edited|
        invariant 0 <= i <= |edited| && prompt == old(prompt) && patterns == Some(edited)
        invariant AllAbsolute(renamed)
        invariant PatternsFrom(policy, old(patterns).value, 0, []) == PatternsFrom(policy, edited, i, renamed)
        decreases |edited| - i
      {
        var confined := ConfineParameters(policy, edited[i], renamed);
        if confined.None? { return false; }
        edited := edited[i := confined.value.0];
        patterns := Some(edited);
        renamed := confined.value.1;
        i := i + 1;
      }
      if prompt.Some? {
        var text := RewritePrompt(alnum, prompt.value, renamed);
        prompt := Some(text);
      }
      return true;
    }
  }
}
