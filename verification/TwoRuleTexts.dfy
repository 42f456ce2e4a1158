/** A deny beside another rule of the same plain path: which line comes first does not matter
  (native/rule_engine.cpp, lines 468-494 and 1463-1491). */
module TwoRuleTexts {
  import opened Options
  import opened Text
  import opened Sorting
  import opened PathMapper
  import opened PathKindCache
  import opened Rules
  import opened Precedence
  import opened PolicyIndex
  import opened IndexRefinement
  import opened IndexLimits
  import opened FiledRules
  import opened Whitelist
  import opened Redirect
  import opened ParsedRules
  import opened RuleCompiler
  import opened Policy
  import opened PolicyProperties
  import opened LineSyntax
  import opened RuleParser
  import opened ParserProperties
  import opened RuleRenderer
  import opened RuleRoundTrip
  import opened OneRuleTexts

  function TwoRuleText(package: string, word: string, first: string, second: string): string {
    "[" + package + "]" + ("\n" + ("mode = " + word + ("\n" + (first + ("\n" + second)))))
  }

  lemma FourTexts(a: string, b: string, c: string, d: string)
    ensures Unlines([a, b, c, d]) == a + ("\n" + (b + ("\n" + (c + ("\n" + d)))))
  {
    assert [a, b, c, d][1..] == [b, c, d];
    ThreeTexts(b, c, d);
  }

  lemma TwoRuleLines(package: string, word: string, first: string, second: string)
    requires OneLine(package) && OneLine(first) && OneLine(second) && OneLine(word)
    ensures var texts := ["[" + package + "]", "mode = " + word, first, second]; Lines(Unlines(texts)) == texts
  {
    LinesOfUnlines(["[" + package + "]", "mode = " + word, first, second]);
  }

  lemma TwoRulesLead(package: string, mode: PolicyMode, first: string, second: string, one: ParsedRuleLine, two: ParsedRuleLine)
    requires IsPackageName(package) && IsBodyLine(first) && IsBodyLine(second)
    requires Adds(first, 3, one)
    requires Adds(second, 4, two)
    ensures Fold(START, [HeaderText(package), Assignment("mode", ModeText(mode)), first, second], 1).parsed ==
      ParsedRules([BareSection(package, mode, [one, two])], [], [], [])
  {
    hide Fold, PolicyLine, Adds, GoesOn, Leads, IsPackageName, IsBodyLine, HeaderText, Assignment, ModeText;
    var head := [HeaderText(package), Assignment("mode", ModeText(mode))];
    var before, moded := Named(START, package), Moded(package, mode);
    var onwards := moded.(rules := moded.rules + [one]);
    var done := onwards.(rules := onwards.rules + [two]);
    HeadLeads(package, mode);
    AddedTo(first, 3, one, moded);
    AddedTo(second, 4, two, onwards);
    PolicyLineLeads(before, moded, first, 3, onwards);
    PolicyLineLeads(before, onwards, second, 4, done);
    LeadsOn(START, head, 1, Within(before, moded), [first], Within(before, onwards));
    LeadsOn(START, head + [first], 1, Within(before, onwards), [second], Within(before, done));
    EndOfLeads(START, head + [first] + [second], 1, Within(before, done));
    assert done == BareSection(package, mode, [one, two]);
    assert head + [first] + [second] == [HeaderText(package), Assignment("mode", ModeText(mode)), first, second];
  }

  lemma TwoRuleTextIsRead(package: string, mode: PolicyMode, word: string, first: string, second: string,
                          one: ParsedRuleLine, two: ParsedRuleLine)
    requires IsPackageName(package) && OneLine(package)
    requires OneLine(first) && OneLine(second) && IsBodyLine(first) && IsBodyLine(second)
    requires word == match mode case Whitelist => "whitelist" case Blacklist => "blacklist"
    requires Adds(first, 3, one)
    requires Adds(second, 4, two)
    ensures var parsed := ParsedRules([BareSection(package, mode, [one, two])], [], [], []);
      Parsed(TwoRuleText(package, word, first, second)) == parsed && Accepted(parsed)
  {
    hide Fold, Lines, PolicyLine, Adds, IsPackageName, IsBodyLine, HeaderText, Assignment, ModeText, Unlines, OneLine, BareSection;
    hide Accepted;
    var texts := ["[" + package + "]", "mode = " + word, first, second];
    FourTexts(texts[0], texts[1], first, second);
    HeadIs(package, mode, word);
    assert OneLine(word) by { WordsAreLines(mode, word); }
    TwoRuleLines(package, word, first, second);
    TwoRulesLead(package, mode, first, second, one, two);
    BareIsComplete(package, mode, [one, two]);
  }

  lemma WordsAreLines(mode: PolicyMode, word: string)
    requires word == match mode case Whitelist => "whitelist" case Blacklist => "blacklist"
    ensures OneLine(word)
  {
  }

  // ---------------------------------------------------------------------------
  // From the texts to the decision

  /** The policy was compiled, for a process of the package, from a text whose section holds just these lines. */
  ghost predicate HasTwoRules(policy: AppPolicy, package: string, mode: PolicyMode, one: ParsedRuleLine, two: ParsedRuleLine,
                              process: string, probe: string -> PathKind)
    reads policy
  {
    && PackagePart(process) == package && ':' !in package
    && policy.Valid()
    && policy.CompiledPolicy(ParsedRules([BareSection(package, mode, [one, two])], [], [], []), process, probe)
  }

  lemma TwoRulePolicy(policy: AppPolicy, package: string, mode: PolicyMode, one: ParsedRuleLine, two: ParsedRuleLine,
                      process: string, probe: string -> PathKind)
    requires HasTwoRules(policy, package, mode, one, two, process, probe) && one.action != Delete && two.action != Delete
    ensures policy.mode == mode
    ensures LinesOf([one, two], false) == [one, two] && RulesFrom(policy.rules, [one, two], package, probe)
    ensures multiset(policy.orderedRules) == multiset(policy.rules) && SortedBy(policy.orderedRules, ComesBefore)
    ensures forall r :: r in policy.rules ==> WellFormed(r)
  {
    hide RulesFrom, MatchingSection, WellFormed, PackagePart;
    ProcessMatches(package, process);
    TwoRuleSection(BareSection(package, mode, [one, two]), process);
    TwoAccessLines(one, two);
    RulesFromFacts(policy.rules, [one, two], package, probe);
  }

  lemma TwoAccessLines(one: ParsedRuleLine, two: ParsedRuleLine)
    requires one.action != Delete && two.action != Delete
    ensures LinesOf([one, two], false) == [one, two]
  {
    assert [one, two][1..] == [two] && [two][1..] == [] && LinesOf([], false) == [];
    assert LinesOf([two], false) == [two];
  }

  lemma TwoRuleSection(section: ParsedSection, process: string)
    requires section.enabled && IsProcessMatch(section.packageName, process)
    ensures MatchingSection([section], process) == Some(section)
  {
  }

  /** Such a section compiles. */
  lemma TwoRuleTextCompiles(package: string, mode: PolicyMode, one: ParsedRuleLine, two: ParsedRuleLine, p: string, t: string,
                            process: string)
    requires PackagePart(process) == package && ':' !in package
    requires WrittenPath(one.path, p) && (NeedsTarget(one.action) ==> WrittenPath(one.redirectTarget, t))
    requires WrittenPath(two.path, p) && (NeedsTarget(two.action) ==> WrittenPath(two.redirectTarget, t))
    ensures CompileFailure(ParsedRules([BareSection(package, mode, [one, two])], [], [], []), process) == None
  {
    hide LineFails, MatchingSection, PackagePart;
    ProcessMatches(package, process);
    TwoRuleSection(BareSection(package, mode, [one, two]), process);
    PlainLineCompiles(one, p, t, package);
    PlainLineCompiles(two, p, t, package);
    assert [one, two][1..] == [two] && [two][1..] == [];
    assert FirstBadLine([], package) == None && FirstBadLine([two], package) == None;
  }

  /** In a section of a deny and a rule of another kind with the same plain path, in either order, the deny decides: the
    policy blocks exactly what the two are about. */
  lemma DenyBesideAnother(policy: AppPolicy, package: string, one: ParsedRuleLine, two: ParsedRuleLine, text: string, p: string,
                          t: string, process: string, probe: string -> PathKind, q: Query, result: MatchResult)
    requires HasTwoRules(policy, package, Blacklist, one, two, process, probe)
    requires one.path == two.path == text && WrittenPath(text, p) && one.extensions == two.extensions == []
    requires NeedsTarget(one.action) ==> WrittenPath(one.redirectTarget, t)
    requires NeedsTarget(two.action) ==> WrittenPath(two.redirectTarget, t)
    requires (one.action == Deny && two.action in {Redirect, RedirectDynamic, Allow}) ||
             (two.action == Deny && one.action in {Redirect, RedirectDynamic, Allow})
    requires one.lineNumber < two.lineNumber && ResultOf(policy, q, result)
    ensures var path := EXTERNAL_ROOT + "/" + p;
      && (result.decision == Blocked <==> Concerns(KindOf(text, path, probe(path), LastName(p)), path, q))
      && (result.decision != Blocked ==> result.decision == Allowed)
  {
    hide HasTwoRules, Concerns, KindOf, HitFor, ImplicitlyAllowed, Granted, WrittenPath, GoesTo, RulesFrom, SortedBy;
    TwoRulePolicy(policy, package, Blacklist, one, two, process, probe);
    TwoPlainRules(policy.rules, one, two, text, p, t, package, probe);
    PlainIsText(text, p);
    PlainRuleIsDeep(p);
    DenyDecides(policy.rules, policy.orderedRules, one, two, package, probe, q);
  }

  /** Of a deny and another rule of the same plain path the deny decides all that the two are about. */
  lemma DenyDecides(rules: seq<CompiledRule>, ordered: seq<CompiledRule>, one: ParsedRuleLine, two: ParsedRuleLine,
                    package: string, probe: string -> PathKind, q: Query)
    requires RulesFrom(rules, [one, two], package, probe) && one.lineNumber < two.lineNumber
    requires multiset(ordered) == multiset(rules) && SortedBy(ordered, ComesBefore)
    requires |rules| == 2 && IsPlainDeep(rules[0]) && IsPlainDeep(rules[1])
    requires rules[0].path == rules[1].path && rules[0].pathKind == rules[1].pathKind
    requires rules[0].action == one.action != Delete && rules[1].action == two.action != Delete
    requires one.action == Deny || two.action == Deny
    requires one.action != two.action
    ensures var hit := HitFor(ordered, q);
      if Concerns(rules[0].pathKind, rules[0].path, q) then hit.Some? && hit.value.action == Deny else hit.None?
  {
    hide HitFor, Concerns, RulesFrom, SortedBy, Hits, Counts, IsExternal, ComesBefore;
    var deny, other := if one.action == Deny then rules[0] else rules[1], if one.action == Deny then rules[1] else rules[0];
    PlainHits(deny, q);
    PlainHits(other, q);
    HitForHits(ordered, q);
    SameMembers(ordered, rules);
    assert forall r :: r in rules ==> r == deny || r == other;
    if Hits(deny, q) {
      PlainCounts(deny, q);
      TwoAccessLines(one, two);
      DenyWins(rules, ordered, [one, two], package, probe, q, deny, other);
    }
  }

  predicate IsPlainDeep(rule: CompiledRule) {
    IsLiteral(rule) && rule.extensions == [] && IsExternal(rule.path) && |rule.path| > BELOW_ROOT
  }

  lemma TwoPlainRules(rules: seq<CompiledRule>, one: ParsedRuleLine, two: ParsedRuleLine, text: string, p: string, t: string,
                      package: string, probe: string -> PathKind)
    requires RulesFrom(rules, [one, two], package, probe)
    requires one.path == two.path == text && WrittenPath(text, p) && one.extensions == two.extensions == []
    requires NeedsTarget(one.action) ==> WrittenPath(one.redirectTarget, t)
    requires NeedsTarget(two.action) ==> WrittenPath(two.redirectTarget, t)
    ensures var path := EXTERNAL_ROOT + "/" + p;
      && |rules| == 2 && rules[0].action == one.action && rules[1].action == two.action && Words(p) != []
      && (forall r :: r in rules ==> r.path == path && r.extensions == [] && IsLiteral(r)
                                       && r.pathKind == KindOf(text, path, probe(path), LastName(p)))
  {
    hide CompiledFrom, KindOf, WrittenPath;
    PlainIsText(text, p);
    PlainPathIsTrimmed(p);
    PlainRuleIs(rules[0], one, p, t, package, probe);
    PlainRuleIs(rules[1], two, p, t, package, probe);
  }

  lemma PlainIsText(text: string, p: string)
    requires WrittenPath(text, p)
    ensures PlainPathText(p)
  {
  }

  lemma PlainCounts(rule: CompiledRule, q: Query)
    requires IsLiteral(rule) && IsExternal(rule.path) && |rule.path| > BELOW_ROOT
    ensures Counts(rule, q)
  {
  }

  /** The two texts, `+ p` then `- p` and `- p` then `+ p`, are read as such sections. */
  lemma DenyAndAllowAreRead(package: string, mode: PolicyMode, word: string, text: string, p: string, denyFirst: bool)
    requires IsPackageName(package) && OneLine(package) && WrittenPath(text, p)
    requires word == match mode case Whitelist => "whitelist" case Blacklist => "blacklist"
    ensures var one := ParsedRuleLine(if denyFirst then Deny else Allow, text, "", [], 3);
            var two := ParsedRuleLine(if denyFirst then Allow else Deny, text, "", [], 4);
            var parsed := ParsedRules([BareSection(package, mode, [one, two])], [], [], []);
      && Accepted(parsed)
      && Parsed(if denyFirst then TwoRuleText(package, word, "- " + text, "+ " + text)
                else TwoRuleText(package, word, "+ " + text, "- " + text)) == parsed
  {
    WrittenCharacters(text, p);
    if denyFirst {
      MarkedPair(package, mode, word, text, "- ", Deny, "+ ", Allow);
    } else {
      MarkedPair(package, mode, word, text, "+ ", Allow, "- ", Deny);
    }
  }

  lemma MarkedPair(package: string, mode: PolicyMode, word: string, text: string,
                   mark: string, action: RuleAction, nextMark: string, nextAction: RuleAction)
    requires IsPackageName(package) && OneLine(package) && IsTrimmed(text) && '@' !in text && '\n' !in text
    requires word == match mode case Whitelist => "whitelist" case Blacklist => "blacklist"
    requires (mark == "+ " && action == Allow) || (mark == "- " && action == Deny)
    requires (nextMark == "+ " && nextAction == Allow) || (nextMark == "- " && nextAction == Deny)
    ensures var one, two := ParsedRuleLine(action, text, "", [], 3), ParsedRuleLine(nextAction, text, "", [], 4);
            var parsed := ParsedRules([BareSection(package, mode, [one, two])], [], [], []);
      Parsed(TwoRuleText(package, word, mark + text, nextMark + text)) == parsed && Accepted(parsed)
  {
    hide Adds, IsBodyLine, TwoRuleText, Accepted, Parsed, IsPackageName, IsTrimmed, BareSection;
    var one, two := ParsedRuleLine(action, text, "", [], 3), ParsedRuleLine(nextAction, text, "", [], 4);
    MarkedLineAdds(mark, action, text, 3);
    MarkedLineAdds(nextMark, nextAction, text, 4);
    TwoRuleTextIsRead(package, mode, word, mark + text, nextMark + text, one, two);
  }
}
