/** Scanning a prompt against a group's rules.  Regular expressions and lower-casing are the library's; they enter
    as functions. */
module RuleScan {
  import opened Options
  import opened RuleCache

  datatype Library = Library(compiles: string -> bool, matches: (string, string) -> bool, lower: string -> string)

  datatype CompiledRule = CompiledRule(rule: AuditRule, patterns: seq<string>, regexps: seq<string>)

  datatype ScanResult = ScanResult(level: int, category: string, tags: seq<string>, detail: string)

  // ---------- compiling ----------

  /** The patterns that compile, in order. */
  function Compiling(lib: Library, patterns: seq<string>): seq<string> {
    if patterns == [] then []
    else
      var init, p := patterns[..|patterns| - 1], patterns[|patterns| - 1];
      Compiling(lib, init) + if lib.compiles(p) then [p] else []
  }

  function Compiled(lib: Library, rule: AuditRule): CompiledRule {
    CompiledRule(rule, rule.patterns, if rule.ruleType == "regex" then Compiling(lib, rule.patterns) else [])
  }

  method Compile(lib: Library, rules: seq<AuditRule>) returns (compiled: seq<CompiledRule>)
    ensures |compiled| == |rules| && forall k :: 0 <= k < |rules| ==> compiled[k] == Compiled(lib, rules[k])
  {
    compiled := [];
    for k := 0 to |rules|
      invariant |compiled| == k && forall j :: 0 <= j < k ==> compiled[j] == Compiled(lib, rules[j])
    {
      var regexps: seq<string> := [];
      var patterns := rules[k].patterns;
      if rules[k].ruleType == "regex" {
        for i := 0 to |patterns|
          invariant regexps == Compiling(lib, patterns[..i])
        {
          assert patterns[..i + 1][..i] == patterns[..i];
          if lib.compiles(patterns[i]) {
            regexps := regexps + [patterns[i]];
          }
        }
        assert patterns[..|patterns|] == patterns;
      }
      compiled := compiled + [CompiledRule(rules[k], patterns, regexps)];
    }
  }

  // ---------- matching one rule ----------

  predicate OccursAt(text: string, part: string, i: int) {
    0 <= i <= |text| - |part| && text[i..i + |part|] == part
  }

  predicate Contains(text: string, part: string) {
    exists i :: 0 <= i <= |text| && OccursAt(text, part, i)
  }

  predicate KeywordHits(lib: Library, keyword: string, prompt: string) {
    keyword != "" && Contains(lib.lower(prompt), lib.lower(keyword))
  }

  /** The label at the index of the first element from `i` on that hits; the empty label past the end of the labels. */
  function FirstHit(xs: seq<string>, labels: seq<string>, hits: string -> bool, i: nat): (tag: Option<string>)
    requires i <= |xs|
    ensures tag.None? <==> forall k :: i <= k < |xs| ==> !hits(xs[k])
    ensures tag.Some? ==> exists k :: i <= k < |xs| && hits(xs[k]) && (forall j :: i <= j < k ==> !hits(xs[j]))
                                      && tag.value == if k < |labels| then labels[k] else ""
    decreases |xs| - i
  {
    if i == |xs| then None
    else if hits(xs[i]) then Some(if i < |labels| then labels[i] else "")
    else FirstHit(xs, labels, hits, i + 1)
  }

  /** The tag a rule contributes, if it matches. */
  function Tag(lib: Library, cr: CompiledRule, prompt: string): Option<string> {
    if cr.rule.ruleType == "keyword" then FirstHit(cr.patterns, cr.patterns, p => KeywordHits(lib, p, prompt), 0)
    else if cr.rule.ruleType == "regex" then FirstHit(cr.regexps, cr.patterns, p => lib.matches(p, prompt), 0)
    else None
  }

  method MatchKeywords(lib: Library, patterns: seq<string>, prompt: string) returns (tag: Option<string>)
    ensures tag == FirstHit(patterns, patterns, p => KeywordHits(lib, p, prompt), 0)
  {
    tag := None;
    ghost var hits := p => KeywordHits(lib, p, prompt);
    for i := 0 to |patterns|
      invariant tag == None && FirstHit(patterns, patterns, hits, 0) == FirstHit(patterns, patterns, hits, i)
    {
      if patterns[i] != "" && Contains(lib.lower(prompt), lib.lower(patterns[i])) {
        return Some(patterns[i]);
      }
    }
  }

  method MatchRegexps(lib: Library, regexps: seq<string>, patterns: seq<string>, prompt: string)
    returns (tag: Option<string>)
    ensures tag == FirstHit(regexps, patterns, p => lib.matches(p, prompt), 0)
  {
    tag := None;
    ghost var hits := p => lib.matches(p, prompt);
    for i := 0 to |regexps|
      invariant tag == None && FirstHit(regexps, patterns, hits, 0) == FirstHit(regexps, patterns, hits, i)
    {
      if lib.matches(regexps[i], prompt) {
        return Some(if i < |patterns| then patterns[i] else "");
      }
    }
  }

  method MatchRule(lib: Library, cr: CompiledRule, prompt: string) returns (tag: Option<string>)
    ensures tag == Tag(lib, cr, prompt)
  {
    tag := None;
    if cr.rule.ruleType == "keyword" {
      tag := MatchKeywords(lib, cr.patterns, prompt);
    } else if cr.rule.ruleType == "regex" {
      tag := MatchRegexps(lib, cr.regexps, cr.patterns, prompt);
    }
  }

  /** The part stands in the text. */
  ghost predicate StandsIn(text: string, a: string, part: string, b: string) {
    text == a + part + b
  }

  /** A keyword hits if and only if it is not empty and stands in the prompt, both in lower case. */
  lemma KeywordHitsIff(lib: Library, keyword: string, prompt: string)
    ensures KeywordHits(lib, keyword, prompt) <==>
              keyword != "" && exists a, b :: StandsIn(lib.lower(prompt), a, lib.lower(keyword), b)
  {
    var text, part := lib.lower(prompt), lib.lower(keyword);
    if Contains(text, part) {
      var i :| 0 <= i <= |text| && OccursAt(text, part, i);
      assert text == text[..i] + text[i..i + |part|] + text[i + |part|..];
      assert StandsIn(text, text[..i], part, text[i + |part|..]);
    }
    if a, b :| StandsIn(text, a, part, b) {
      assert text[|a|..|a| + |part|] == part;
      assert OccursAt(text, part, |a|);
    }
  }

  /** A rule matches if and only if one of its keywords stands in the prompt, or one of its expressions compiles and
      matches; a rule of any other type never does. */
  lemma RuleMatchesIff(lib: Library, rule: AuditRule, prompt: string)
    ensures Tag(lib, Compiled(lib, rule), prompt).Some? <==>
              || (rule.ruleType == "keyword" &&
                  exists k :: 0 <= k < |rule.patterns| && KeywordHits(lib, rule.patterns[k], prompt))
              || (rule.ruleType == "regex" &&
                  exists p :: p in rule.patterns && lib.compiles(p) && lib.matches(p, prompt))
  {
    if rule.ruleType == "regex" {
      var regexps := Compiling(lib, rule.patterns);
      forall p ensures p in regexps <==> p in rule.patterns && lib.compiles(p) { CompilingMembers(lib, rule.patterns, p); }
      if p :| p in rule.patterns && lib.compiles(p) && lib.matches(p, prompt) {
        assert p in regexps;
      }
    }
  }

  // ---------- scanning ----------

  predicate Matches(lib: Library, cr: CompiledRule, prompt: string) {
    Tag(lib, cr, prompt).Some?
  }

  /** One tag per matching rule, in rule order. */
  function Tags(lib: Library, rules: seq<CompiledRule>, prompt: string): seq<string> {
    if rules == [] then []
    else
      var cr := rules[|rules| - 1];
      Tags(lib, rules[..|rules| - 1], prompt) +
      match Tag(lib, cr, prompt) case None => [] case Some(t) => [cr.rule.name + ": " + t]
  }

  function DetailOf(cr: CompiledRule, tag: string): string {
    cr.rule.description + " (命中: " + tag + ")"
  }

  ghost predicate TakenFrom(lib: Library, rules: seq<CompiledRule>, prompt: string, r: ScanResult, k: nat) {
    && k < |rules| && Matches(lib, rules[k], prompt)
    && r.level == rules[k].rule.riskLevel && r.category == rules[k].rule.category
    && r.detail == DetailOf(rules[k], Tag(lib, rules[k], prompt).value)
    && (forall j :: 0 <= j < k && Matches(lib, rules[j], prompt) ==> rules[j].rule.riskLevel < r.level)
  }

  /** The result reports the highest risk among the matching rules, and the first rule that has it; rules without a
      positive risk leave it at zero. */
  ghost predicate ReportsWorst(lib: Library, rules: seq<CompiledRule>, prompt: string, r: ScanResult) {
    && r.level >= 0
    && (forall k :: 0 <= k < |rules| && Matches(lib, rules[k], prompt) ==> rules[k].rule.riskLevel <= r.level)
    && (r.level == 0 ==> r.category == "" && r.detail == "")
    && (r.level > 0 ==> exists k: nat :: TakenFrom(lib, rules, prompt, r, k))
  }

  method ScanPrompt(lib: Library, rules: seq<CompiledRule>, prompt: string) returns (r: ScanResult)
    ensures prompt == "" ==> r == ScanResult(0, "", [], "")
    ensures prompt != "" ==> r.tags == Tags(lib, rules, prompt) && ReportsWorst(lib, rules, prompt, r)
  {
    r := ScanResult(0, "", [], "");
    if prompt == "" || |rules| == 0 {
      return;
    }
    for k := 0 to |rules|
      invariant r.tags == Tags(lib, rules[..k], prompt) && ReportsWorst(lib, rules[..k], prompt, r)
    {
      assert rules[..k + 1][..k] == rules[..k];
      var before := r;
      var tag := MatchRule(lib, rules[k], prompt);
      if tag.Some? {
        r := r.(tags := r.tags + [rules[k].rule.name + ": " + tag.value]);
        if rules[k].rule.riskLevel > r.level {
          r := r.(level := rules[k].rule.riskLevel, category := rules[k].rule.category,
                  detail := DetailOf(rules[k], tag.value));
        }
      }
      WorstExtends(lib, rules, prompt, before, r, k);
    }
    assert rules[..|rules|] == rules;
  }

  lemma TakenExtends(lib: Library, rules: seq<CompiledRule>, prompt: string, r: ScanResult, r': ScanResult, k: nat, j: nat)
    requires k < |rules| && TakenFrom(lib, rules[..k], prompt, r, j) && r' == r.(tags := r'.tags)
    ensures TakenFrom(lib, rules[..k + 1], prompt, r', j)
  {
    assert forall i :: 0 <= i < k ==> rules[..k + 1][i] == rules[..k][i];
  }

  lemma WorstExtends(lib: Library, rules: seq<CompiledRule>, prompt: string, before: ScanResult, r: ScanResult, k: nat)
    requires k < |rules| && ReportsWorst(lib, rules[..k], prompt, before)
    requires if Matches(lib, rules[k], prompt) && rules[k].rule.riskLevel > before.level
             then r.level == rules[k].rule.riskLevel && r.category == rules[k].rule.category
                  && r.detail == DetailOf(rules[k], Tag(lib, rules[k], prompt).value)
             else r == before.(tags := r.tags)
    ensures ReportsWorst(lib, rules[..k + 1], prompt, r)
  {
    var was, now := rules[..k], rules[..k + 1];
    forall j | 0 <= j < |now| && Matches(lib, now[j], prompt) ensures now[j].rule.riskLevel <= r.level {
      if j < k { assert now[j] == was[j]; }
    }
    if r.level > before.level {
      forall j | 0 <= j < k && Matches(lib, now[j], prompt) ensures now[j].rule.riskLevel < r.level {
        assert now[j] == was[j];
      }
      assert TakenFrom(lib, now, prompt, r, k);
    } else if r.level > 0 {
      var j: nat :| TakenFrom(lib, was, prompt, before, j);
      TakenExtends(lib, rules, prompt, before, r, k, j);
    }
  }

  // ---------- when a regular-expression tag names what matched ----------

  lemma {:induction false} CompilingLength(lib: Library, patterns: seq<string>)
    ensures |Compiling(lib, patterns)| <= |patterns|
    ensures |Compiling(lib, patterns)| == |patterns| ==> forall j :: 0 <= j < |patterns| ==> lib.compiles(patterns[j])
  {
    if patterns != [] { CompilingLength(lib, patterns[..|patterns| - 1]); }
  }

  /** Where the i-th compiled pattern stands in the rule's list: never before i, and at i only when everything up
      to there compiles. */
  lemma {:induction false} CompiledComesFrom(lib: Library, patterns: seq<string>, i: nat) returns (k: nat)
    requires i < |Compiling(lib, patterns)|
    ensures i <= k < |patterns| && patterns[k] == Compiling(lib, patterns)[i]
    ensures k == i ==> forall j :: 0 <= j <= i ==> lib.compiles(patterns[j])
  {
    var init := patterns[..|patterns| - 1];
    CompilingLength(lib, init);
    if i < |Compiling(lib, init)| {
      k := CompiledComesFrom(lib, init, i);
    } else {
      k := |patterns| - 1;
    }
  }

  lemma {:induction false} CompilingPrefix(lib: Library, patterns: seq<string>, n: nat)
    requires n <= |patterns| && forall j :: 0 <= j < n ==> lib.compiles(patterns[j])
    ensures patterns[..n] <= Compiling(lib, patterns)
  {
    if n > 0 {
      var init := patterns[..|patterns| - 1];
      if n < |patterns| {
        CompilingPrefix(lib, init, n);
        assert init[..n] == patterns[..n];
      } else {
        CompilingPrefix(lib, init, n - 1);
        CompilingLength(lib, init);
        assert init[..n - 1] == init;
      }
    }
  }

  lemma {:induction false} CompilingConcat(lib: Library, a: seq<string>, b: seq<string>)
    ensures Compiling(lib, a + b) == Compiling(lib, a) + Compiling(lib, b)
    decreases |b|
  {
    if b == [] {
      assert a + b == a;
    } else {
      assert (a + b)[..|a + b| - 1] == a + b[..|b| - 1];
      CompilingConcat(lib, a, b[..|b| - 1]);
    }
  }

  lemma {:induction false} CompilingMembers(lib: Library, patterns: seq<string>, x: string)
    ensures x in Compiling(lib, patterns) <==> x in patterns && lib.compiles(x)
  {
    if patterns != [] {
      assert patterns == patterns[..|patterns| - 1] + [patterns[|patterns| - 1]];
      CompilingMembers(lib, patterns[..|patterns| - 1], x);
    }
  }

  lemma {:induction false} FirstOccurrence(xs: seq<string>, x: string) returns (k: nat)
    requires x in xs
    ensures k < |xs| && xs[k] == x && forall j :: 0 <= j < k ==> xs[j] != x
  {
    if x in xs[..|xs| - 1] {
      k := FirstOccurrence(xs[..|xs| - 1], x);
    } else {
      k := |xs| - 1;
      assert forall j :: 0 <= j < k ==> xs[..k][j] == xs[j];
    }
  }

  lemma AllCompileIff(lib: Library, patterns: seq<string>)
    ensures |Compiling(lib, patterns)| == |patterns| <==> forall j :: 0 <= j < |patterns| ==> lib.compiles(patterns[j])
  {
    CompilingLength(lib, patterns);
    if forall j :: 0 <= j < |patterns| ==> lib.compiles(patterns[j]) {
      CompilingPrefix(lib, patterns, |patterns|);
    }
  }

  /** Where a pattern first stands in the list, and where among the compiled: at the same place exactly when everything
      before it compiles. */
  lemma FirstCompiled(lib: Library, patterns: seq<string>, x: string) returns (k: nat, i: nat)
    requires x in patterns && lib.compiles(x)
    ensures k < |patterns| && patterns[k] == x && forall j :: 0 <= j < k ==> patterns[j] != x
    ensures i <= k && i < |Compiling(lib, patterns)| && Compiling(lib, patterns)[i] == x
    ensures forall j :: 0 <= j < i ==> Compiling(lib, patterns)[j] != x
    ensures i == k <==> forall j :: 0 <= j < k ==> lib.compiles(patterns[j])
  {
    k := FirstOccurrence(patterns, x);
    var before, after := patterns[..k], patterns[k + 1..];
    assert patterns == before + ([x] + after);
    CompilingConcat(lib, before, [x] + after);
    CompilingConcat(lib, [x], after);
    assert [x][..0] == [] && Compiling(lib, [x]) == [x];
    CompilingMembers(lib, before, x);
    CompilingLength(lib, before);
    i := |Compiling(lib, before)|;
    assert forall j :: 0 <= j < i ==> Compiling(lib, patterns)[j] == Compiling(lib, before)[j];
    assert forall j :: 0 <= j < k ==> before[j] == patterns[j];
    AllCompileIff(lib, before);
  }

  /** Whatever compiles after a pattern that does not has already stood before that pattern. */
  ghost predicate NothingNewAfterFailure(lib: Library, patterns: seq<string>) {
    forall a, b :: 0 <= a < b < |patterns| && !lib.compiles(patterns[a]) && lib.compiles(patterns[b]) ==>
                     exists c :: 0 <= c < a && patterns[c] == patterns[b]
  }

  /** The tag a regular-expression rule reports, if any, is a pattern of the rule that compiles and matches. */
  predicate TagMatches(lib: Library, rule: AuditRule, prompt: string) {
    var tag := Tag(lib, Compiled(lib, rule), prompt);
    tag.Some? ==> tag.value in rule.patterns && lib.compiles(tag.value) && lib.matches(tag.value, prompt)
  }

  /** The compiled expression that hits first bears its own pattern as label. */
  lemma LabelIsRight(lib: Library, patterns: seq<string>, h: nat)
    requires NothingNewAfterFailure(lib, patterns) && h < |Compiling(lib, patterns)|
    requires forall j :: 0 <= j < h ==> Compiling(lib, patterns)[j] != Compiling(lib, patterns)[h]
    ensures h < |patterns| && patterns[h] == Compiling(lib, patterns)[h] && lib.compiles(patterns[h])
  {
    CompilingMembers(lib, patterns, Compiling(lib, patterns)[h]);
    var k, i := FirstCompiled(lib, patterns, Compiling(lib, patterns)[h]);
    assert i == h;
  }

  lemma TagIsRight(lib: Library, rule: AuditRule, prompt: string)
    requires rule.ruleType == "regex" && NothingNewAfterFailure(lib, rule.patterns)
    ensures TagMatches(lib, rule, prompt)
  {
    var patterns, regexps := rule.patterns, Compiling(lib, rule.patterns);
    var hits := p => lib.matches(p, prompt);
    var tag := FirstHit(regexps, patterns, hits, 0);
    if tag.Some? {
      var h :| 0 <= h < |regexps| && hits(regexps[h]) && (forall j :: 0 <= j < h ==> !hits(regexps[j]))
               && tag.value == if h < |patterns| then patterns[h] else "";
      LabelIsRight(lib, patterns, h);
    }
  }

  lemma {:induction false} FirstHitIs(xs: seq<string>, labels: seq<string>, hits: string -> bool, from: nat, i: nat)
    requires from <= i < |xs| && i < |labels| && hits(xs[i]) && forall j :: from <= j < i ==> !hits(xs[j])
    ensures FirstHit(xs, labels, hits, from) == Some(labels[i])
    decreases i - from
  {
    if from < i { FirstHitIs(xs, labels, hits, from + 1, i); }
  }

  /** Otherwise there are matches under which the rule reports a pattern that does not match. */
  lemma TagCanBeWrong(lib: Library, rule: AuditRule, a: nat, b: nat, prompt: string)
    requires rule.ruleType == "regex" && a < b < |rule.patterns|
    requires forall c :: 0 <= c < a ==> rule.patterns[c] != rule.patterns[b]
    requires !lib.compiles(rule.patterns[a]) && lib.compiles(rule.patterns[b])
    requires forall p :: lib.matches(p, prompt) <==> p == rule.patterns[b]
    ensures !TagMatches(lib, rule, prompt)
  {
    var patterns, x := rule.patterns, rule.patterns[b];
    var k, i := FirstCompiled(lib, patterns, x);
    assert a < k && i < k && patterns[i] != x;
    FirstHitIs(Compiling(lib, patterns), patterns, p => lib.matches(p, prompt), 0, i);
  }

  /** Compiled expressions are numbered without the failures, labels with them.  So whatever the patterns match, the
      reported tag is a pattern that matched, if and only if nothing new compiles after a failure. */
  lemma TagNamesTheMatch(lib: Library, rule: AuditRule)
    requires rule.ruleType == "regex"
    ensures (forall m: (string, string) -> bool, prompt: string :: TagMatches(lib.(matches := m), rule, prompt)) <==>
              NothingNewAfterFailure(lib, rule.patterns)
  {
    if NothingNewAfterFailure(lib, rule.patterns) {
      forall m: (string, string) -> bool, prompt: string ensures TagMatches(lib.(matches := m), rule, prompt) {
        TagIsRight(lib.(matches := m), rule, prompt);
      }
    } else {
      var a, b :| 0 <= a < b < |rule.patterns| && !lib.compiles(rule.patterns[a]) && lib.compiles(rule.patterns[b])
                  && !exists c :: 0 <= c < a && rule.patterns[c] == rule.patterns[b];
      var m := (p: string, _: string) => p == rule.patterns[b];
      TagCanBeWrong(lib.(matches := m), rule, a, b, "");
      assert !TagMatches(lib.(matches := m), rule, "");
    }
  }

  /** A rule whose first pattern does not compile reports that pattern when its second one matches. */
  lemma BrokenPatternIsReported(lib: Library, rule: AuditRule, prompt: string)
    requires rule.ruleType == "regex" && |rule.patterns| == 2 && !lib.compiles(rule.patterns[0])
    requires lib.compiles(rule.patterns[1]) && lib.matches(rule.patterns[1], prompt)
    ensures Tag(lib, Compiled(lib, rule), prompt) == Some(rule.patterns[0])
  {
    assert rule.patterns[..1][..0] == [];
    assert Compiling(lib, rule.patterns[..1]) == [];
    assert Compiling(lib, rule.patterns) == [rule.patterns[1]];
  }

  // ---------- one tag for each matching rule ----------

  /** The tags are those of the matching rules, all of them and in rule order; `at` says which rule each comes from. */
  ghost predicate TagsOf(lib: Library, rules: seq<CompiledRule>, prompt: string, tags: seq<string>, at: seq<int>) {
    && |at| == |tags| && Increasing(at)
    && (forall i :: 0 <= i < |rules| ==> (i in at <==> Matches(lib, rules[i], prompt)))
    && (forall k :: 0 <= k < |at| ==>
          && 0 <= at[k] < |rules| && Matches(lib, rules[at[k]], prompt)
          && tags[k] == rules[at[k]].rule.name + ": " + Tag(lib, rules[at[k]], prompt).value)
  }

  lemma PositionsNext(lib: Library, rules: seq<CompiledRule>, prompt: string, before: seq<int>, at: seq<int>)
    requires rules != [] && Increasing(before) && (forall k :: 0 <= k < |before| ==> 0 <= before[k] < |rules| - 1)
    requires forall i :: 0 <= i < |rules| - 1 ==> (i in before <==> Matches(lib, rules[..|rules| - 1][i], prompt))
    requires at == before + if Matches(lib, rules[|rules| - 1], prompt) then [|rules| - 1] else []
    ensures Increasing(at) && forall i :: 0 <= i < |rules| ==> (i in at <==> Matches(lib, rules[i], prompt))
  {
    forall i | 0 <= i < |rules| ensures i in at <==> Matches(lib, rules[i], prompt) {
      if i < |rules| - 1 { assert rules[i] == rules[..|rules| - 1][i]; }
    }
  }

  lemma {:induction false} TagsAreOfMatching(lib: Library, rules: seq<CompiledRule>, prompt: string) returns (at: seq<int>)
    ensures TagsOf(lib, rules, prompt, Tags(lib, rules, prompt), at)
  {
    at := [];
    if rules != [] {
      var init, last := rules[..|rules| - 1], |rules| - 1;
      var before := TagsAreOfMatching(lib, init, prompt);
      at := before + if Matches(lib, rules[last], prompt) then [last] else [];
      PositionsNext(lib, rules, prompt, before, at);
      assert forall k :: 0 <= k < |before| ==> rules[before[k]] == init[before[k]];
    }
  }
}
