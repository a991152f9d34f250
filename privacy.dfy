/** The privacy filter of `app/privacy.py`: a list of exclusion rules is compiled
    (disabled and blank rules dropped, invalid regular expressions skipped) and then
    matched first-match-wins against an application name and a window title.

    The regular-expression engine is foreign to the model: `RegexEngine` says only
    whether a pattern compiles and whether a compiled pattern (used case-insensitively)
    finds a match in a value. */
module Privacy {
  import opened Wrappers
  import opened Text

  /** `PrivacyRule`, one row of the rule table. */
  datatype PrivacyRule = PrivacyRule(
    id: int, scope: string, matchMode: string, pattern: string, enabled: bool, updatedTs: int)

  /** `_CompiledRule`: the rule, its trimmed case-folded pattern, and the compiled regular
      expression (the trimmed pattern) for rules in regex mode. */
  datatype CompiledRule = CompiledRule(rule: PrivacyRule, normalizedPattern: string, regex: Option<string>)

  /** `re.compile(p, flags=re.IGNORECASE)` succeeds iff `compiles(p)`; the compiled pattern's
      `search(v)` finds a match iff `search(p, v)`. */
  datatype RegexEngine = RegexEngine(compiles: string -> bool, search: (string, string) -> bool)

  predicate IsRegexMode(mode: string) { mode == "regex" }
  predicate IsContainsMode(mode: string) { mode == "contains" }
  predicate IsExactMode(mode: string) { mode == "exact" }
  predicate IsTitleScope(scope: string) { scope == "title" }
  predicate IsAppScope(scope: string) { scope == "app" }

  /** One iteration of the loop in `update_rules`: the compiled form of `rule`, or `None`
      when the rule is skipped. */
  function CompileOne(engine: RegexEngine, rule: PrivacyRule): (r: Option<CompiledRule>)
    ensures r.None? <==>
      !rule.enabled || Strip(rule.pattern) == []
      || (IsRegexMode(rule.matchMode) && !engine.compiles(Strip(rule.pattern)))
    ensures r.Some? ==>
      (r.value.rule == rule && r.value.normalizedPattern != []
       && r.value.normalizedPattern == Lower(Strip(rule.pattern)))
    ensures r.Some? ==> (r.value.regex.Some? <==> IsRegexMode(rule.matchMode))
  {
    var pattern := Strip(rule.pattern);
    if !rule.enabled || pattern == [] then None
    else if IsRegexMode(rule.matchMode) then
      if engine.compiles(pattern) then Some(CompiledRule(rule, Lower(pattern), Some(pattern))) else None
    else Some(CompiledRule(rule, Lower(pattern), None))
  }

  /** The `Some` results of `f` over `s`, in order: a loop that appends what it keeps. */
  function FilterMap<A, B>(f: A -> Option<B>, s: seq<A>): (r: seq<B>)
    ensures |r| <= |s|
    decreases |s|
  {
    if s == [] then []
    else FilterMap(f, s[..|s| - 1]) + Entries(f(s[|s| - 1]))
  }

  function Entries<B>(o: Option<B>): (r: seq<B>)
    ensures o.None? ==> r == []
    ensures o.Some? ==> r == [o.value]
  {
    match o
    case None => []
    case Some(item) => [item]
  }

  /** Filtering a concatenation filters each part. */
  lemma {:induction false} FilterMapAppend<A, B>(f: A -> Option<B>, a: seq<A>, b: seq<A>)
    ensures FilterMap(f, a + b) == FilterMap(f, a) + FilterMap(f, b)
    decreases |b|
  {
    if b == [] {
      assert a + b == a;
    } else {
      var init := b[..|b| - 1];
      assert (a + b)[..|a + b| - 1] == a + init;
      assert (a + b)[|a + b| - 1] == b[|b| - 1];
      FilterMapAppend(f, a, init);
      var tail := Entries(f(b[|b| - 1]));
      assert FilterMap(f, a + b) == (FilterMap(f, a) + FilterMap(f, init)) + tail;
    }
  }

  /** Each kept value is the result of `f` on some element, and each element on which `f`
      gives a value contributes it. */
  lemma {:induction false} FilterMapMembers<A, B>(f: A -> Option<B>, s: seq<A>)
    ensures forall c :: c in FilterMap(f, s) ==> exists k :: 0 <= k < |s| && f(s[k]) == Some(c)
    ensures forall k :: 0 <= k < |s| && f(s[k]).Some? ==> f(s[k]).value in FilterMap(f, s)
    decreases |s|
  {
    if s != [] {
      var init := s[..|s| - 1];
      FilterMapMembers(f, init);
      assert forall k :: 0 <= k < |init| ==> init[k] == s[k];
    }
  }

  /** The list `update_rules` builds from `rules`, in their order. */
  function Compile(engine: RegexEngine, rules: seq<PrivacyRule>): (c: seq<CompiledRule>)
    ensures |c| <= |rules|
  {
    FilterMap(r => CompileOne(engine, r), rules)
  }

  /** Compiling a concatenation compiles each part: every rule is compiled on its own. */
  lemma CompileAppend(engine: RegexEngine, a: seq<PrivacyRule>, b: seq<PrivacyRule>)
    ensures Compile(engine, a + b) == Compile(engine, a) + Compile(engine, b)
  {
    FilterMapAppend(r => CompileOne(engine, r), a, b);
  }

  /** Exactly the rules that survive `CompileOne` are compiled: each compiled entry is the
      compiled form of some rule, and each rule that compiles has its entry in the list. */
  lemma CompileMembers(engine: RegexEngine, rules: seq<PrivacyRule>)
    ensures forall c :: c in Compile(engine, rules) ==>
      exists k :: 0 <= k < |rules| && CompileOne(engine, rules[k]) == Some(c)
    ensures forall k :: 0 <= k < |rules| && CompileOne(engine, rules[k]).Some? ==>
      CompileOne(engine, rules[k]).value in Compile(engine, rules)
  {
    FilterMapMembers(r => CompileOne(engine, r), rules);
  }

  /** A compiled entry is never a disabled rule, never has a blank pattern, and, in regex
      mode, always holds a pattern that compiles. */
  lemma CompiledRulesAreUsable(engine: RegexEngine, rules: seq<PrivacyRule>, c: CompiledRule)
    requires c in Compile(engine, rules)
    ensures c.rule.enabled && Strip(c.rule.pattern) != []
    ensures c.normalizedPattern == Lower(Strip(c.rule.pattern))
    ensures IsRegexMode(c.rule.matchMode) ==>
      (c.regex == Some(Strip(c.rule.pattern)) && engine.compiles(Strip(c.rule.pattern)))
  {
    CompileMembers(engine, rules);
    var k :| 0 <= k < |rules| && CompileOne(engine, rules[k]) == Some(c);
  }

  /** The text a rule of this scope compares: the title for "title", the app otherwise. */
  function FieldFor(scope: string, appText: string, titleText: string): (v: string)
    ensures IsTitleScope(scope) ==> v == titleText
    ensures !IsTitleScope(scope) ==> v == appText
  {
    if IsTitleScope(scope) then titleText else appText
  }

  /** Whether the compiled rule `item` matches the trimmed app and title. A rule never
      matches an empty field, and a mode other than contains, exact and regex never
      matches. */
  predicate RuleMatches(engine: RegexEngine, item: CompiledRule, appText: string, titleText: string)
    ensures RuleMatches(engine, item, appText, titleText) ==> FieldFor(item.rule.scope, appText, titleText) != []
    ensures RuleMatches(engine, item, appText, titleText) ==>
      IsContainsMode(item.rule.matchMode) || IsExactMode(item.rule.matchMode) || IsRegexMode(item.rule.matchMode)
  {
    var value := FieldFor(item.rule.scope, appText, titleText);
    var mode := item.rule.matchMode;
    value != []
    && (if IsContainsMode(mode) then IsSubstring(item.normalizedPattern, Lower(value))
        else if IsExactMode(mode) then Lower(value) == item.normalizedPattern
        else IsRegexMode(mode) && item.regex.Some? && engine.search(item.regex.value, value))
  }

  /** The index of the first rule of `items` that matches, or `None`. */
  function FirstMatch(engine: RegexEngine, items: seq<CompiledRule>, appText: string, titleText: string)
    : (r: Option<nat>)
    ensures r.None? <==> forall k :: 0 <= k < |items| ==> !RuleMatches(engine, items[k], appText, titleText)
    ensures r.Some? ==> r.value < |items| && RuleMatches(engine, items[r.value], appText, titleText)
    ensures r.Some? ==> forall k :: 0 <= k < r.value ==> !RuleMatches(engine, items[k], appText, titleText)
    decreases |items|
  {
    if items == [] then None
    else if RuleMatches(engine, items[0], appText, titleText) then Some(0)
    else
      var r := FirstMatch(engine, items[1..], appText, titleText);
      FirstMatchShift(engine, items, appText, titleText, r);
      if r.None? then None else Some(r.value + 1)
  }

  /** What the search over the rules after the first says about the whole list, when the
      first rule does not match. */
  lemma FirstMatchShift(engine: RegexEngine, items: seq<CompiledRule>, appText: string, titleText: string,
                        r: Option<nat>)
    requires items != [] && !RuleMatches(engine, items[0], appText, titleText)
    requires r.None? <==> forall k :: 0 <= k < |items| - 1 ==> !RuleMatches(engine, items[1..][k], appText, titleText)
    requires r.Some? ==> r.value < |items| - 1 && RuleMatches(engine, items[1..][r.value], appText, titleText)
    requires r.Some? ==> forall k :: 0 <= k < r.value ==> !RuleMatches(engine, items[1..][k], appText, titleText)
    ensures r.None? <==> forall k :: 0 <= k < |items| ==> !RuleMatches(engine, items[k], appText, titleText)
    ensures r.Some? ==> RuleMatches(engine, items[r.value + 1], appText, titleText)
    ensures r.Some? ==> forall k :: 0 <= k < r.value + 1 ==> !RuleMatches(engine, items[k], appText, titleText)
  {
    var rest := items[1..];
    assert forall k :: 0 <= k < |rest| ==> rest[k] == items[k + 1];
    if r.None? {
      forall k | 0 < k < |items| ensures !RuleMatches(engine, items[k], appText, titleText) {
        assert items[k] == rest[k - 1];
      }
    } else {
      forall k | 0 < k < r.value + 1 ensures !RuleMatches(engine, items[k], appText, titleText) {
        assert items[k] == rest[k - 1];
      }
    }
  }

  /** An empty (after trimming) field is never excluded by a rule on that field. */
  lemma BlankFieldNeverMatches(engine: RegexEngine, item: CompiledRule, app: string, title: string)
    requires IsTitleScope(item.rule.scope) ==> Strip(title) == []
    requires !IsTitleScope(item.rule.scope) ==> Strip(app) == []
    ensures !RuleMatches(engine, item, Strip(app), Strip(title))
  {
  }

  /** A rule compares one field only: a title rule ignores the app and any other rule
      ignores the title. */
  lemma RuleReadsOneField(engine: RegexEngine, item: CompiledRule, a1: string, a2: string, t1: string, t2: string)
    requires IsTitleScope(item.rule.scope) ==> t1 == t2
    requires !IsTitleScope(item.rule.scope) ==> a1 == a2
    ensures RuleMatches(engine, item, a1, t1) == RuleMatches(engine, item, a2, t2)
  {
  }

  /** Under a mode other than contains, exact and regex, no rule ever matches. */
  lemma UnknownModeNeverMatches(engine: RegexEngine, item: CompiledRule, appText: string, titleText: string)
    requires !IsContainsMode(item.rule.matchMode) && !IsExactMode(item.rule.matchMode)
    requires !IsRegexMode(item.rule.matchMode)
    ensures !RuleMatches(engine, item, appText, titleText)
  {
  }

  /** A value equal to the pattern also contains it: an exact rule would never exclude a
      window the same rule in contains mode lets through. */
  lemma ExactImpliesContains(engine: RegexEngine, item: CompiledRule, appText: string, titleText: string)
    requires IsExactMode(item.rule.matchMode) && RuleMatches(engine, item, appText, titleText)
    ensures RuleMatches(engine, item.(rule := item.rule.(matchMode := "contains")), appText, titleText)
  {
    var value := FieldFor(item.rule.scope, appText, titleText);
    assert OccursAt(item.normalizedPattern, Lower(value), 0);
  }

  /** `stats()` as returned. */
  datatype Stats = Stats(enabledRules: nat, appRules: nat, titleRules: nat)

  /** The number of compiled rules whose scope is `scope`. */
  function CountScope(items: seq<CompiledRule>, scope: string): (n: nat)
    ensures n <= |items|
    decreases |items|
  {
    if items == [] then 0
    else CountScope(items[..|items| - 1], scope) + (if items[|items| - 1].rule.scope == scope then 1 else 0)
  }

  /** The app and title counts never exceed the number of rules: a rule has one scope. */
  lemma {:induction false} ScopeCountsBounded(items: seq<CompiledRule>)
    ensures CountScope(items, "app") + CountScope(items, "title") <= |items|
    decreases |items|
  {
    if items != [] {
      ScopeCountsBounded(items[..|items| - 1]);
    }
  }

  class PrivacyFilter {
    const engine: RegexEngine
    var compiledRules: seq<CompiledRule>

    /** `__init__`: compiles the initial rules. */
    constructor (engine: RegexEngine, rules: seq<PrivacyRule>)
      ensures this.engine == engine
      ensures compiledRules == Compile(engine, rules)
    {
      this.engine := engine;
      compiledRules := [];
      new;
      UpdateRules(rules);
    }

    /** `update_rules`: rebuilds the compiled list and replaces it as a whole. */
    method UpdateRules(rules: seq<PrivacyRule>)
      modifies this
      ensures compiledRules == Compile(engine, rules)
    {
      var compiled: seq<CompiledRule> := [];
      var i := 0;
      while i < |rules|
        invariant 0 <= i <= |rules|
        invariant compiled == Compile(engine, rules[..i])
      {
        var rule := rules[i];
        assert rules[..i + 1][..i] == rules[..i];
        i := i + 1;
        if !rule.enabled {
          continue;
        }
        var pattern := Strip(rule.pattern);
        if pattern == [] {
          continue;
        }
        var regexObj: Option<string> := None;
        if rule.matchMode == "regex" {
          if !engine.compiles(pattern) {
            continue;
          }
          regexObj := Some(pattern);
        }
        compiled := compiled + [CompiledRule(rule, Lower(pattern), regexObj)];
      }
      assert rules[..|rules|] == rules;
      compiledRules := compiled;
    }

    /** `match_reason`: the first compiled rule matching the trimmed app and title. */
    function MatchReason(app: string, title: string): (r: Option<PrivacyRule>)
      reads this
      ensures r.None? <==>
        forall k :: 0 <= k < |compiledRules| ==> !RuleMatches(engine, compiledRules[k], Strip(app), Strip(title))
      ensures r.Some? ==>
        exists k :: (0 <= k < |compiledRules|
          && RuleMatches(engine, compiledRules[k], Strip(app), Strip(title))
          && r.value == compiledRules[k].rule
          && forall j :: 0 <= j < k ==> !RuleMatches(engine, compiledRules[j], Strip(app), Strip(title)))
    {
      match FirstMatch(engine, compiledRules, Strip(app), Strip(title))
      case None => None
      case Some(k) => Some(compiledRules[k].rule)
    }

    /** `is_excluded`: some compiled rule matches. */
    predicate IsExcluded(app: string, title: string)
      reads this
      ensures IsExcluded(app, title) <==>
        exists k :: 0 <= k < |compiledRules| && RuleMatches(engine, compiledRules[k], Strip(app), Strip(title))
    {
      MatchReason(app, title).Some?
    }

    /** `stats`: the number of compiled rules and how many of them have scope "app" and
        "title". */
    method GetStats() returns (s: Stats)
      ensures s.enabledRules == |compiledRules|
      ensures s.appRules == CountScope(compiledRules, "app")
      ensures s.titleRules == CountScope(compiledRules, "title")
      ensures s.appRules + s.titleRules <= s.enabledRules
    {
      var rules := compiledRules;
      var appCount := 0;
      var titleCount := 0;
      var i := 0;
      while i < |rules|
        invariant 0 <= i <= |rules|
        invariant appCount == CountScope(rules[..i], "app")
        invariant titleCount == CountScope(rules[..i], "title")
      {
        assert rules[..i + 1][..i] == rules[..i];
        if IsAppScope(rules[i].rule.scope) {
          appCount := appCount + 1;
        } else if IsTitleScope(rules[i].rule.scope) {
          titleCount := titleCount + 1;
        }
        i := i + 1;
      }
      assert rules[..|rules|] == rules;
      ScopeCountsBounded(rules);
      s := Stats(|rules|, appCount, titleCount);
    }
  }
}
