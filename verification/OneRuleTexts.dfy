/** The smallest policies: one rule in a package section, from its text to the decision
  (native/rule_engine.cpp, lines 495-558, 997-1456 and 1706-1834). */
module OneRuleTexts {
  import opened Options
  import opened Text
  import opened Sorting
  import opened PathMapper
  import opened PathGlob
  import opened PathKindCache
  import opened Rules
  import opened Precedence
  import opened PolicyIndex
  import opened IndexRefinement
  import opened IndexLimits
  import opened NormalPaths
  import opened Whitelist
  import opened Redirect
  import opened ParsedRules
  import opened RuleCompiler
  import opened Policy
  import opened PolicyProperties
  import opened LineSyntax
  import opened RuleParser
  import opened ParserProperties
  import opened RuleRenderer
  import opened RuleRoundTrip
  import opened DocumentedRules

  // ---------------------------------------------------------------------------
  // What an operation implies

  /** Opening, creating, listing and removing a directory, and an open with the directory flag, imply a directory. */
  lemma ImpliesDirectory(context: RuntimeContext)
    ensures InferContextKind(context) == Directory <==>
      || context.operation in {OpenDirectory, CreateDirectory, EnumerateDirectory, RemoveDirectory}
      || (context.operation == Open && context.directoryFlag)
  {
  }

  /** Creating and removing a file, and an open that creates and does not ask for a directory, imply a file. */
  lemma ImpliesFile(context: RuntimeContext)
    ensures InferContextKind(context) == File <==>
      || context.operation in {CreateFile, RemoveFile}
      || (context.operation == Open && context.createFlag && !context.directoryFlag)
  {
  }

  // ---------------------------------------------------------------------------
  // The text

  function OneRuleText(package: string, mode: string, line: string): string {
    "[" + package + "]" + ("\n" + ("mode = " + mode + ("\n" + line)))
  }

  /** A package section with nothing set but its mode. */
  function BareSection(package: string, mode: PolicyMode, rules: seq<ParsedRuleLine>): ParsedSection {
    ParsedSection(package, true, true, mode, false, KeepDirs, AutoQuery, false, false, "", 0, 0, rules)
  }

  lemma ThreeTexts(a: string, b: string, c: string)
    ensures Unlines([a, b, c]) == a + ("\n" + (b + ("\n" + c)))
  {
    assert [a, b, c][1..] == [b, c] && [b, c][1..] == [c];
    assert Unlines([c]) == c;
    assert Unlines([b, c]) == b + ("\n" + c);
  }

  /** In any package section, the line adds the rule. */
  ghost predicate Adds(line: string, number: nat, rule: ParsedRuleLine) {
    forall s {:trigger PolicyLine(s, line, number)} :: PolicyLine(s, line, number) == Some(s.(rules := s.rules + [rule]))
  }

  lemma AddedTo(line: string, number: nat, rule: ParsedRuleLine, s: ParsedSection)
    requires Adds(line, number, rule)
    ensures PolicyLine(s, line, number) == Some(s.(rules := s.rules + [rule]))
  {
    hide PolicyLine;
  }

  lemma OneRuleTextIsRead(package: string, mode: PolicyMode, word: string, line: string, rule: ParsedRuleLine)
    requires IsPackageName(package) && OneLine(package) && OneLine(line) && IsBodyLine(line)
    requires word == match mode case Whitelist => "whitelist" case Blacklist => "blacklist"
    requires Adds(line, 3, rule)
    ensures var parsed := ParsedRules([BareSection(package, mode, [rule])], [], [], []);
      Parsed(OneRuleText(package, word, line)) == parsed && Accepted(parsed)
  {
    hide Fold, Lines, PolicyLine, Adds, IsPackageName, IsBodyLine, HeaderText, Assignment, ModeText, Unlines, OneLine, BareSection;
    hide Accepted;
    var texts := ["[" + package + "]", "mode = " + word, line];
    ThreeTexts(texts[0], texts[1], line);
    HeadIs(package, mode, word);
    OneRuleLines(package, word, line);
    OneRuleLeads(package, mode, line, rule);
    BareIsComplete(package, mode, [rule]);
  }

  lemma BareIsComplete(package: string, mode: PolicyMode, rules: seq<ParsedRuleLine>)
    ensures var parsed := ParsedRules([BareSection(package, mode, rules)], [], [], []);
      Validated(parsed) == parsed && Accepted(parsed)
  {
    var section := BareSection(package, mode, rules);
    assert [section][1..] == [];
    assert MissingModes([]) == [] && MissingModes([section]) == [];
  }

  lemma OneRuleLines(package: string, word: string, line: string)
    requires OneLine(package) && OneLine(line) && OneLine(word)
    ensures var texts := ["[" + package + "]", "mode = " + word, line]; Lines(Unlines(texts)) == texts
  {
    LinesOfUnlines(["[" + package + "]", "mode = " + word, line]);
  }

  function Moded(package: string, mode: PolicyMode): ParsedSection {
    NewSection(package).(hasMode := true, mode := mode)
  }

  lemma HeadLeads(package: string, mode: PolicyMode)
    requires IsPackageName(package)
    ensures Leads(START, [HeaderText(package), Assignment("mode", ModeText(mode))], 1,
                  Within(Named(START, package), Moded(package, mode)))
  {
    hide GoesOn, IsPackageName, Enter, HeaderText, Assignment, ModeText;
    var header, moding := HeaderText(package), Assignment("mode", ModeText(mode));
    var before := Named(START, package);
    PackageNameIsTrimmed(package);
    HeaderLeads(START, package, 1);
    EnterPackage(START, package, 1);
    ModeLeads(before, NewSection(package), mode, 2);
    LeadsOn(START, [header], 1, Within(before, NewSection(package)), [moding], Within(before, Moded(package, mode)));
    assert [header, moding] == [header] + [moding];
  }

  lemma HeadIs(package: string, mode: PolicyMode, word: string)
    requires word == match mode case Whitelist => "whitelist" case Blacklist => "blacklist"
    ensures HeaderText(package) == "[" + package + "]" && Assignment("mode", ModeText(mode)) == "mode = " + word
  {
  }

  lemma OneRuleLeads(package: string, mode: PolicyMode, line: string, rule: ParsedRuleLine)
    requires IsPackageName(package) && IsBodyLine(line)
    requires Adds(line, 3, rule)
    ensures Fold(START, [HeaderText(package), Assignment("mode", ModeText(mode)), line], 1).parsed ==
      ParsedRules([BareSection(package, mode, [rule])], [], [], [])
  {
    hide Fold, PolicyLine, Adds, GoesOn, Leads, IsPackageName, IsBodyLine, HeaderText, Assignment, ModeText;
    var head := [HeaderText(package), Assignment("mode", ModeText(mode))];
    var before, moded := Named(START, package), Moded(package, mode);
    var done := moded.(rules := moded.rules + [rule]);
    HeadLeads(package, mode);
    AddedTo(line, 3, rule, moded);
    PolicyLineLeads(before, moded, line, 3, done);
    LeadsOn(START, head, 1, Within(before, moded), [line], Within(before, done));
    EndOfLeads(START, head + [line], 1, Within(before, done));
    assert done == BareSection(package, mode, [rule]);
    assert head + [line] == [HeaderText(package), Assignment("mode", ModeText(mode)), line];
  }

  lemma PackageNameIsTrimmed(package: string)
    requires IsPackageName(package)
    ensures IsTrimmed(package)
  {
  }

  // ---------------------------------------------------------------------------
  // The rule line

  /** A relative path of ordinary names without special characters. */
  predicate PlainPathText(p: string) {
    && IsTrimmed(p) && |p| < 900
    && Words(p) != [] && Join(Words(p)) == p && (forall i :: 0 <= i < |Words(p)| ==> IsName(Words(p)[i]))
    && (forall i :: 0 <= i < |p| ==> p[i] !in "*?<>@\n")
  }

  lemma PlainCharacters(p: string)
    requires PlainPathText(p)
    ensures '*' !in p && '?' !in p && '<' !in p && '>' !in p && '@' !in p && '\n' !in p
  {
  }

  lemma MarkedLine(mark: string, action: RuleAction, p: string, s: ParsedSection, number: nat)
    requires (mark == "+ " && action == Allow) || (mark == "- " && action == Deny) || (mark == "! " && action == Delete)
    requires IsTrimmed(p) && '@' !in p
    ensures PolicyLine(s, mark + p, number) == Some(s.(rules := s.rules + [ParsedRuleLine(action, p, "", [], number)]))
    ensures IsBodyLine(mark + p)
  {
    hide PolicyLine, HasTypes, Trim;
    var rule := ParsedRuleLine(action, p, "", [], number);
    NoMarker(p);
    assert RuleText(rule) == mark + p;
    RuleLineIsRead(rule, s, number);
    RuleTextIsBodyLine(rule);
  }

  lemma MarkedLineAdds(mark: string, action: RuleAction, p: string, number: nat)
    requires (mark == "+ " && action == Allow) || (mark == "- " && action == Deny) || (mark == "! " && action == Delete)
    requires IsTrimmed(p) && '@' !in p
    ensures Adds(mark + p, number, ParsedRuleLine(action, p, "", [], number)) && IsBodyLine(mark + p)
  {
    hide PolicyLine, IsTrimmed, IsBodyLine;
    forall s
      ensures PolicyLine(s, mark + p, number) == Some(s.(rules := s.rules + [ParsedRuleLine(action, p, "", [], number)]))
    {
      MarkedLine(mark, action, p, s, number);
    }
    MarkedLine(mark, action, p, NewSection(""), number);
  }

  /** The path as it is written, perhaps with a slash behind it. */
  predicate WrittenPath(text: string, p: string) {
    PlainPathText(p) && (text == p || text == p + "/")
  }

  lemma WrittenCharacters(text: string, p: string)
    requires WrittenPath(text, p)
    ensures IsTrimmed(text) && '<' !in text && '>' !in text && '@' !in text && '\n' !in text && text[0] == p[0]
  {
    PlainCharacters(p);
  }

  lemma ArrowLine(arrow: string, action: RuleAction, p: string, t: string, s: ParsedSection, number: nat)
    requires (arrow == " -> " && action == Redirect) || (arrow == " => " && action == RedirectDynamic)
    requires IsTrimmed(p) && '@' !in p && '>' !in p && p[0] !in "medt+-!#["
    requires IsTrimmed(t) && '@' !in t
    ensures PolicyLine(s, p + arrow + t, number) == Some(s.(rules := s.rules + [ParsedRuleLine(action, p, t, [], number)]))
    ensures IsBodyLine(p + arrow + t)
  {
    hide PolicyLine, HasTypes, Trim, RuleIsPlain, IsBodyLine, Find;
    var rule := ParsedRuleLine(action, p, t, [], number);
    SimpleRedirectIsPlain(rule);
    assert RuleText(rule) == p + arrow + t;
    RuleLineIsRead(rule, s, number);
    RuleTextIsBodyLine(rule);
  }

  lemma ArrowLineAdds(arrow: string, action: RuleAction, p: string, t: string, number: nat)
    requires (arrow == " -> " && action == Redirect) || (arrow == " => " && action == RedirectDynamic)
    requires IsTrimmed(p) && '@' !in p && '>' !in p && p[0] !in "medt+-!#["
    requires IsTrimmed(t) && '@' !in t
    ensures Adds(p + arrow + t, number, ParsedRuleLine(action, p, t, [], number)) && IsBodyLine(p + arrow + t)
  {
    hide PolicyLine, IsTrimmed, IsBodyLine;
    forall s
      ensures PolicyLine(s, p + arrow + t, number) == Some(s.(rules := s.rules + [ParsedRuleLine(action, p, t, [], number)]))
    {
      ArrowLine(arrow, action, p, t, s, number);
    }
    ArrowLine(arrow, action, p, t, NewSection(""), number);
  }

  // ---------------------------------------------------------------------------
  // The compiled rule

  /** The name has a dot inside it, and none at its end. */
  predicate NamesFile(name: string) {
    exists i :: 0 < i < |name| - 1 && name[i] == '.' && '.' !in name[i + 1..]
  }

  /** The kind of a rule: a slash at the end of its text makes it a directory; else what the file system says, else a file by its
    name, else unknown. */
  function KindOf(text: string, path: string, found: PathKind, name: string): PathKind {
    if text != "" && text[|text| - 1] == '/' then Directory
    else if found != Auto then found
    else if NamesFile(name) then File
    else Auto
  }

  lemma KindIs(text: string, parent: string, name: string, probe: string -> PathKind)
    requires IsTrimmed(text) && SlashFree(name)
    ensures var path := parent + "/" + name;
      InferCompiledRuleKind(text, path, probe) == KindOf(text, path, probe(path), name)
  {
    hide LastIndex, Trim;
    TrimOfTrimmed(text);
    LastSlashIn(parent, name);
    var dot := LastIndex(name, '.');
    if NamesFile(name) {
      var i :| 0 < i < |name| - 1 && name[i] == '.' && '.' !in name[i + 1..];
      NoneBehind(name, i);
      LastIndexIs(name, '.', i);
    }
    if 0 < dot && dot + 1 < |name| {
      NoneBehindLast(name, dot);
    }
  }

  lemma NoneBehind(name: string, at: nat)
    requires at < |name| && '.' !in name[at + 1..]
    ensures forall j :: at < j < |name| ==> name[j] != '.'
  {
    assert forall j :: at < j < |name| ==> name[j] == name[at + 1..][j - at - 1];
  }

  lemma NoneBehindLast(name: string, dot: nat)
    requires dot < |name| && forall j :: dot < j < |name| ==> name[j] != '.'
    ensures '.' !in name[dot + 1..]
  {
  }

  function LastName(p: string): string
    requires Words(p) != []
  {
    Words(p)[|Words(p)| - 1]
  }

  lemma PathAndName(p: string) returns (parent: string)
    requires PlainPathText(p)
    ensures EXTERNAL_ROOT + "/" + p == parent + "/" + LastName(p) && SlashFree(LastName(p))
    ensures p[|p| - 1] != '/'
  {
    hide Join;
    var names := Words(p);
    var front, last := names[..|names| - 1], names[|names| - 1];
    assert names == front + [last] && IsName(last);
    JoinOfOne(last);
    if front == [] {
      assert names == [last];
      parent := EXTERNAL_ROOT;
    } else {
      JoinAppend(front, [last]);
      parent := EXTERNAL_ROOT + "/" + Join(front);
    }
    assert last[|last| - 1] in last;
  }

  lemma PlainPathIsLiteral(p: string)
    requires PlainPathText(p)
    ensures !HasGlobChars(EXTERNAL_ROOT + "/" + p) && AnalyzeGlobPattern(EXTERNAL_ROOT + "/" + p) == NoGlob
  {
    PlainCharacters(p);
    assert !HasGlobChars(p);
    LiteralBelowRoot(p);
  }

  lemma WrittenPathIsNormal(text: string, p: string, package: string)
    requires WrittenPath(text, p)
    ensures NormalizedRulePath(Expanded(text, package)) == Some(EXTERNAL_ROOT + "/" + p)
  {
    hide NormalizedRulePath, Words, Join, Expanded;
    WrittenCharacters(text, p);
    PlainTextStays(text, package);
    if text == p {
      RelativePathIsNormal(Words(p));
    } else {
      SlashedPathIsNormal(p);
    }
  }

  lemma SlashedPathIsNormal(p: string)
    requires PlainPathText(p)
    ensures NormalizedRulePath(p + "/") == Some(EXTERNAL_ROOT + "/" + p)
  {
    hide Words, Join, Trim, Walk, MapAlias;
    var path := EXTERNAL_ROOT + "/" + p;
    TrimOfTrimmed(p + "/");
    FirstOfJoin(Words(p));
    assert EXTERNAL_ROOT + "/" + (p + "/") == path + "/" == ALIASES[0] + ("/" + p + "/");
    MapAliasFinds(0, "/" + p + "/", 0);
    CollapsedOfNames(Words(p));
    WordsOfConcat(path, "/");
    WordsSkipSlash("/");
    WordsOfNothing();
    assert "/"[1..] == "" && Words(path) + [] == Words(path);
  }

  /** What a line with a plain path is compiled to. */
  lemma PlainRuleIs(rule: CompiledRule, line: ParsedRuleLine, p: string, t: string, package: string, probe: string -> PathKind)
    requires CompiledFrom(rule, line, package, probe) && WrittenPath(line.path, p) && line.extensions == []
    requires NeedsTarget(line.action) ==> WrittenPath(line.redirectTarget, t)
    ensures var path := EXTERNAL_ROOT + "/" + p;
      && rule.action == line.action && rule.path == path && rule.extensions == [] && !rule.hasGlob && !rule.hasPathGlob
      && rule.pathKind == KindOf(line.path, path, probe(path), LastName(p))
      && (NeedsTarget(line.action) ==> rule.redirectTarget == EXTERNAL_ROOT + "/" + t)
  {
    hide NormalizedRulePath, AnalyzeGlobPattern, LineFails, StrictlySorted, InferCompiledRuleKind, PlainPathText, KindOf;
    WrittenPathIsNormal(line.path, p, package);
    PlainPathIsLiteral(p);
    var parent := PathAndName(p);
    PlainPathIsTrimmed(p);
    WrittenCharacters(line.path, p);
    KindIs(line.path, parent, LastName(p), probe);
    if NeedsTarget(line.action) {
      WrittenPathIsNormal(line.redirectTarget, t, package);
    }
    NoTypes(rule.extensions, line.extensions);
  }

  lemma PlainPathIsTrimmed(p: string)
    requires PlainPathText(p)
    ensures IsTrimmed(p) && Words(p) != []
  {
  }

  lemma NoTypes(compiled: seq<string>, parsed: seq<string>)
    requires ExtensionsOf(compiled, parsed) && parsed == []
    ensures compiled == []
  {
    SomeMember(compiled);
  }

  lemma SomeMember(xs: seq<string>)
    ensures xs == [] || exists x: string :: x in xs
  {
    if xs != [] {
      assert xs[0] in xs;
    }
  }

  /** A plain line compiles. */
  lemma PlainLineCompiles(line: ParsedRuleLine, p: string, t: string, package: string)
    requires WrittenPath(line.path, p) && (NeedsTarget(line.action) ==> WrittenPath(line.redirectTarget, t))
    ensures !LineFails(line, package)
  {
    hide NormalizedRulePath, AnalyzeGlobPattern, PlainPathText, HasGlobChars, Expanded;
    WrittenPathIsNormal(line.path, p, package);
    PlainPathIsLiteral(p);
    if NeedsTarget(line.action) {
      WrittenPathIsNormal(line.redirectTarget, t, package);
      PlainPathIsLiteral(t);
    }
  }

  // ---------------------------------------------------------------------------
  // What a plain rule is about

  /** Where the kind of a rule is unknown: what earlier accesses have told of its path counts first, then what this access is to
    something else implies; without either it is taken for a folder. */
  predicate TakenForFolder(q: Query, path: string) {
    if path in q.cached && q.cached[path] != Auto then q.cached[path] == Directory else q.kind != File
  }

  /** The path itself, and what lies below it unless the rule is about a file. */
  predicate Concerns(kind: PathKind, path: string, q: Query) {
    || q.path == path
    || (IsDirectoryMatch(q.path, path) && (kind == Directory || (kind == Auto && TakenForFolder(q, path))))
  }

  /** The kind that a hit reports: that of the rule if it is known, and a file for every pattern; else what the access is to, if
    it is to the path of the rule; else what earlier accesses have told of that path; else what the access is to something
    else implies, and without all that a directory. */
  lemma KindOfHit(rule: CompiledRule, q: Query)
    ensures rule.hasGlob || rule.hasPathGlob ==> HitKind(rule, q) == File
    ensures !rule.hasGlob && !rule.hasPathGlob ==>
      var known := rule.path in q.cached && q.cached[rule.path] != Auto;
      && (rule.pathKind != Auto ==> HitKind(rule, q) == rule.pathKind)
      && (rule.pathKind == Auto && q.kind != Auto && q.path == rule.path ==> HitKind(rule, q) == q.kind)
      && (rule.pathKind == Auto && (q.kind == Auto || q.path != rule.path) && known ==> HitKind(rule, q) == q.cached[rule.path])
      && (rule.pathKind == Auto && q.kind != Auto && q.path != rule.path && !known ==> HitKind(rule, q) == q.kind)
      && (rule.pathKind == Auto && q.kind == Auto && !known ==> HitKind(rule, q) == Directory)
  {
  }

  lemma PlainHits(rule: CompiledRule, q: Query)
    requires !rule.hasGlob && !rule.hasPathGlob && rule.extensions == [] && rule.action != Delete
    ensures Hits(rule, q) <==> Concerns(rule.pathKind, rule.path, q)
  {
  }

  /** Alone in a policy, a plain rule below shared storage decides exactly what it is about. */
  lemma PlainRuleDecides(rule: CompiledRule, q: Query)
    requires WellFormed(rule) && !rule.hasGlob && !rule.hasPathGlob && rule.extensions == [] && rule.action != Delete
    requires IsExternal(rule.path) && |rule.path| > BELOW_ROOT
    ensures HitFor([rule], q) == if Concerns(rule.pathKind, rule.path, q) then Some(rule) else None
  {
    hide WellFormed, Hits, Concerns, SlotOf, Searched, IndexedHit;
    PlainHits(rule, q);
    assert [rule][1..] == [];
    if IsExternal(q.path) {
      AloneIsSearched(rule, q);
      if Hits(rule, q) {
        assert Reachable(rule);
        ReachableIsSearched(rule, q);
      }
    }
  }

  // ---------------------------------------------------------------------------
  // From the text to the decision

  /** The policy was compiled, for a process of the package, from a text whose section holds just this line. */
  ghost predicate HasOneRule(policy: AppPolicy, package: string, mode: PolicyMode, line: ParsedRuleLine, process: string,
                             probe: string -> PathKind)
    reads policy
  {
    && PackagePart(process) == package && ':' !in package
    && policy.Valid()
    && policy.CompiledPolicy(ParsedRules([BareSection(package, mode, [line])], [], [], []), process, probe)
  }

  lemma OneRuleSection(package: string, mode: PolicyMode, line: ParsedRuleLine, process: string)
    requires PackagePart(process) == package && ':' !in package
    ensures MatchingSection([BareSection(package, mode, [line])], process) == Some(BareSection(package, mode, [line]))
  {
    ProcessMatches(package, process);
  }

  /** The text of one plain rule compiles. */
  lemma OneRuleTextCompiles(package: string, mode: PolicyMode, line: ParsedRuleLine, p: string, t: string, process: string)
    requires PackagePart(process) == package && ':' !in package
    requires WrittenPath(line.path, p) && (NeedsTarget(line.action) ==> WrittenPath(line.redirectTarget, t))
    ensures CompileFailure(ParsedRules([BareSection(package, mode, [line])], [], [], []), process) == None
  {
    hide LineFails, MatchingSection;
    OneRuleSection(package, mode, line, process);
    PlainLineCompiles(line, p, t, package);
    assert [line][1..] == [];
    assert FirstBadLine([], package) == None;
  }

  /** What is in such a policy: its one rule, unless that is for deletion, its mode, and no shared folder. */
  lemma OneRulePolicy(policy: AppPolicy, package: string, mode: PolicyMode, line: ParsedRuleLine, p: string, t: string,
                      process: string, probe: string -> PathKind)
    requires HasOneRule(policy, package, mode, line, process, probe) && line.action != Delete && line.extensions == []
    requires WrittenPath(line.path, p) && (NeedsTarget(line.action) ==> WrittenPath(line.redirectTarget, t))
    ensures policy.mode == mode && policy.grants.accessiblePaths == [] && policy.packageName == package
    ensures |policy.orderedRules| == 1 && policy.rules == policy.orderedRules
    ensures IsPlainRule(policy.orderedRules[0], line, p, t, probe)
  {
    hide RulesFrom, PlainPathText, LineFails, MatchingSection, KindOf, WellFormed, NormalizedRulePath;
    OneRuleSection(package, mode, line, process);
    assert [line][1..] == [] && LinesOf([], false) == [];
    assert LinesOf([line], false) == [line];
    OneCompiledRule(policy.rules, policy.orderedRules, line, package, probe);
    PlainRuleIs(policy.rules[0], line, p, t, package, probe);
  }

  lemma OneCompiledRule(rules: seq<CompiledRule>, ordered: seq<CompiledRule>, line: ParsedRuleLine, package: string,
                        probe: string -> PathKind)
    requires RulesFrom(rules, [line], package, probe) && multiset(ordered) == multiset(rules)
    ensures |rules| == 1 && ordered == rules && CompiledFrom(rules[0], line, package, probe)
  {
    hide CompiledFrom;
    assert |multiset(ordered)| == |multiset(rules)| == 1;
    assert ordered[0] in multiset(rules);
  }

  ghost predicate IsPlainRule(rule: CompiledRule, line: ParsedRuleLine, p: string, t: string, probe: string -> PathKind)
    requires Words(p) != []
  {
    var path := EXTERNAL_ROOT + "/" + p;
    && WellFormed(rule) && rule.action == line.action && rule.path == path && rule.extensions == []
    && !rule.hasGlob && !rule.hasPathGlob
    && rule.pathKind == KindOf(line.path, path, probe(path), LastName(p))
    && (NeedsTarget(line.action) ==> rule.redirectTarget == EXTERNAL_ROOT + "/" + t)
  }

  /** The result that the matcher gives for an access in this policy. */
  ghost predicate ResultOf(policy: AppPolicy, q: Query, result: MatchResult)
    reads policy
  {
    DecidedBy(result, HitFor(policy.orderedRules, q), q, policy.mode, policy.grants,
              Granted(policy.rules, policy.grants.accessiblePaths))
  }

  /** For every plain path p, a blacklist that says only `- p` blocks exactly what the rule is about, and allows all else. */
  lemma DenyTextBlocks(policy: AppPolicy, package: string, text: string, p: string, process: string, probe: string -> PathKind,
                       q: Query, result: MatchResult)
    requires HasOneRule(policy, package, Blacklist, ParsedRuleLine(Deny, text, "", [], 3), process, probe) && WrittenPath(text, p)
    requires ResultOf(policy, q, result)
    ensures var path := EXTERNAL_ROOT + "/" + p;
      && (result.decision == Blocked <==> Concerns(KindOf(text, path, probe(path), LastName(p)), path, q))
      && (result.decision != Blocked ==> result.decision == Allowed)
  {
    hide Concerns, KindOf, HasOneRule, HitFor, ImplicitlyAllowed, Granted, WellFormed;
    OneRulePolicy(policy, package, Blacklist, ParsedRuleLine(Deny, text, "", [], 3), p, "", process, probe);
    PlainRuleIsDeep(p);
    PlainRuleDecides(policy.orderedRules[0], q);
    assert policy.orderedRules == [policy.orderedRules[0]];
  }

  /** So the deny of a folder that is not known to be one does not keep a file from being created in it. */
  lemma UnknownFolderIsOpen(policy: AppPolicy, package: string, p: string, process: string, probe: string -> PathKind,
                            q: Query, result: MatchResult, name: string)
    requires HasOneRule(policy, package, Blacklist, ParsedRuleLine(Deny, p, "", [], 3), process, probe) && WrittenPath(p, p)
    requires probe(EXTERNAL_ROOT + "/" + p) == Auto && !NamesFile(LastName(p))
    requires ResultOf(policy, q, result)
    requires q.path == EXTERNAL_ROOT + "/" + p + "/" + name && q.kind == File && EXTERNAL_ROOT + "/" + p !in q.cached
    ensures result.decision == Allowed
  {
    hide HasOneRule, ResultOf, PlainPathText, NamesFile;
    DenyTextBlocks(policy, package, p, p, process, probe, q, result);
    NoSlashAtEnd(p);
  }

  lemma NoSlashAtEnd(p: string)
    requires PlainPathText(p)
    ensures p != "" && p[|p| - 1] != '/'
  {
    var parent := PathAndName(p);
  }

  lemma PlainRuleIsDeep(p: string)
    requires PlainPathText(p)
    ensures IsExternal(EXTERNAL_ROOT + "/" + p) && |EXTERNAL_ROOT + "/" + p| > BELOW_ROOT
  {
    BelowRoot(p);
  }

  /** A whitelist that says only `+ p` allows exactly what the rule is about, what leads to it, what is related to the app's own
    directories, and all that is not shared storage. */
  lemma AllowTextAllows(policy: AppPolicy, package: string, text: string, p: string, process: string, probe: string -> PathKind,
                        q: Query, result: MatchResult)
    requires HasOneRule(policy, package, Whitelist, ParsedRuleLine(Allow, text, "", [], 3), process, probe) && WrittenPath(text, p)
    requires ResultOf(policy, q, result) && package != ""
    ensures var path := EXTERNAL_ROOT + "/" + p;
      && (result.decision == Allowed <==>
            || Concerns(KindOf(text, path, probe(path), LastName(p)), path, q)
            || !IsExternal(q.path)
            || IsDirectoryMatch(path, q.path)
            || IsDirectoryMatch(q.path, "/storage/emulated/0/Android/data/" + package)
            || IsDirectoryMatch("/storage/emulated/0/Android/data/" + package, q.path)
            || IsDirectoryMatch(q.path, "/storage/emulated/0/Android/media/" + package)
            || IsDirectoryMatch("/storage/emulated/0/Android/media/" + package, q.path))
      && (result.decision != Allowed ==> result.decision == Blocked)
  {
    hide Concerns, KindOf, HasOneRule, HitFor, WellFormed, IsDirectoryMatch;
    OneRulePolicy(policy, package, Whitelist, ParsedRuleLine(Allow, text, "", [], 3), p, "", process, probe);
    PlainRuleIsDeep(p);
    PlainRuleDecides(policy.orderedRules[0], q);
    assert policy.orderedRules == [policy.orderedRules[0]];
    OwnRoots(policy, package, Whitelist, ParsedRuleLine(Allow, text, "", [], 3), process, probe);
    AllowedWithoutHit(policy.orderedRules[0], policy.grants, q, package);
  }

  lemma OwnRoots(policy: AppPolicy, package: string, mode: PolicyMode, line: ParsedRuleLine, process: string, probe: string -> PathKind)
    requires HasOneRule(policy, package, mode, line, process, probe)
    ensures policy.grants.packageName == package
    ensures policy.grants.ownedDataRoot == "/storage/emulated/0/Android/data/" + package
    ensures policy.grants.ownedMediaRoot == "/storage/emulated/0/Android/media/" + package
  {
    hide MatchingSection, RulesFrom, WellFormed, OwnExports, AccessibleFolders, LinesOf, TrashDir, PathsOf, GrantsHold, Granted;
    hide PackagePart;
    OneRuleSection(package, mode, line, process);
    RootsAre(package);
  }

  lemma RootsAre(package: string)
    ensures EXTERNAL_ROOT + "/Android/data/" + package == "/storage/emulated/0/Android/data/" + package
    ensures EXTERNAL_ROOT + "/Android/media/" + package == "/storage/emulated/0/Android/media/" + package
  {
  }

  lemma AllowedWithoutHit(rule: CompiledRule, g: Grants, q: Query, package: string)
    requires rule.action == Allow && g.accessiblePaths == [] && g.packageName == package != ""
    requires g.ownedDataRoot == "/storage/emulated/0/Android/data/" + package
    requires g.ownedMediaRoot == "/storage/emulated/0/Android/media/" + package
    ensures ImplicitlyAllowed(g, Granted([rule], []), q.path) <==>
      || !IsExternal(q.path) || IsDirectoryMatch(rule.path, q.path)
      || IsDirectoryMatch(q.path, g.ownedDataRoot) || IsDirectoryMatch(g.ownedDataRoot, q.path)
      || IsDirectoryMatch(q.path, g.ownedMediaRoot) || IsDirectoryMatch(g.ownedMediaRoot, q.path)
  {
    hide IsDirectoryMatch;
    WhitelistWithoutHit([rule], g, q);
  }

  /** A section that says only `p -> t` redirects exactly what the rule is about: a file to t, anything else to the same place
    under t. */
  lemma RedirectTextRedirects(policy: AppPolicy, package: string, text: string, p: string, target: string, t: string, process: string,
                              probe: string -> PathKind, q: Query, result: MatchResult)
    requires HasOneRule(policy, package, Blacklist, ParsedRuleLine(Redirect, text, target, [], 3), process, probe)
    requires WrittenPath(text, p) && WrittenPath(target, t) && ResultOf(policy, q, result)
    ensures var path := EXTERNAL_ROOT + "/" + p;
      && (result.decision == Redirected <==> Concerns(KindOf(text, path, probe(path), LastName(p)), path, q))
      && (result.decision != Redirected ==> result.decision == Allowed)
      && (result.decision == Redirected && q.path == path ==> result.redirectPath == EXTERNAL_ROOT + "/" + t)
      && (forall s :: result.decision == Redirected && q.path == path + "/" + s ==>
            result.redirectPath == EXTERNAL_ROOT + "/" + t + "/" + s)
  {
    hide Concerns, KindOf, HasOneRule, HitFor, ImplicitlyAllowed, Granted, WellFormed, GoesTo;
    var path := EXTERNAL_ROOT + "/" + p;
    OneRulePolicy(policy, package, Blacklist, ParsedRuleLine(Redirect, text, target, [], 3), p, t, process, probe);
    var rule := policy.orderedRules[0];
    PlainRuleIsDeep(p);
    PlainRuleDecides(rule, q);
    assert policy.orderedRules == [rule];
    if result.decision == Redirected {
      PlainTarget(rule, q, result.redirectPath);
    }
  }

  lemma PlainTarget(rule: CompiledRule, q: Query, moved: string)
    requires !rule.hasGlob && !rule.hasPathGlob && Concerns(rule.pathKind, rule.path, q)
    requires GoesTo(rule, q.path, HitKind(rule, q), moved)
    ensures q.path == rule.path ==> moved == rule.redirectTarget
    ensures forall s :: q.path == rule.path + "/" + s ==> moved == rule.redirectTarget + "/" + s
  {
    if HitKind(rule, q) != File {
      if q.path == rule.path {
        assert q.path == rule.path + "";
        TargetsInWords(rule, q.path, HitKind(rule, q), moved, "");
      }
      forall s | q.path == rule.path + "/" + s ensures moved == rule.redirectTarget + "/" + s {
        assert q.path == rule.path + ("/" + s);
        TargetsInWords(rule, q.path, HitKind(rule, q), moved, "/" + s);
      }
    }
  }

  /** A section that says only `p => t` leaves every access to the daemon. */
  lemma DynamicTextAllows(policy: AppPolicy, package: string, text: string, p: string, target: string, t: string, process: string,
                          probe: string -> PathKind, q: Query, result: MatchResult)
    requires HasOneRule(policy, package, Blacklist, ParsedRuleLine(RedirectDynamic, text, target, [], 3), process, probe)
    requires WrittenPath(text, p) && WrittenPath(target, t) && ResultOf(policy, q, result)
    ensures result.decision == Allowed && result.redirectPath == ""
  {
    hide Concerns, KindOf, HasOneRule, HitFor, ImplicitlyAllowed, Granted, WellFormed;
    OneRulePolicy(policy, package, Blacklist, ParsedRuleLine(RedirectDynamic, text, target, [], 3), p, t, process, probe);
    PlainRuleIsDeep(p);
    PlainRuleDecides(policy.orderedRules[0], q);
    assert policy.orderedRules == [policy.orderedRules[0]];
  }

  /** The four texts are read as these sections. */
  lemma MarkedTextIsRead(package: string, mode: PolicyMode, word: string, mark: string, action: RuleAction, text: string, p: string)
    requires IsPackageName(package) && OneLine(package) && WrittenPath(text, p)
    requires (word == "whitelist" && mode == Whitelist) || (word == "blacklist" && mode == Blacklist)
    requires (mark == "+ " && action == Allow) || (mark == "- " && action == Deny)
    ensures var parsed := ParsedRules([BareSection(package, mode, [ParsedRuleLine(action, text, "", [], 3)])], [], [], []);
      Parsed(OneRuleText(package, word, mark + text)) == parsed && Accepted(parsed)
  {
    hide Adds, IsBodyLine, OneRuleText, Accepted, Parsed, PlainPathText;
    WrittenCharacters(text, p);
    MarkedLineAdds(mark, action, text, 3);
    OneRuleTextIsRead(package, mode, word, mark + text, ParsedRuleLine(action, text, "", [], 3));
  }

  lemma ArrowTextIsRead(package: string, arrow: string, action: RuleAction, text: string, p: string, target: string, t: string)
    requires IsPackageName(package) && OneLine(package) && WrittenPath(text, p) && WrittenPath(target, t) && p[0] !in "medt+-!#["
    requires (arrow == " -> " && action == Redirect) || (arrow == " => " && action == RedirectDynamic)
    ensures var parsed := ParsedRules([BareSection(package, Blacklist, [ParsedRuleLine(action, text, target, [], 3)])], [], [], []);
      Parsed(OneRuleText(package, "blacklist", text + arrow + target)) == parsed && Accepted(parsed)
  {
    hide Adds, IsBodyLine, OneRuleText, Accepted, Parsed, PlainPathText;
    WrittenCharacters(text, p);
    WrittenCharacters(target, t);
    ArrowLineAdds(arrow, action, text, target, 3);
    OneRuleTextIsRead(package, Blacklist, "blacklist", text + arrow + target, ParsedRuleLine(action, text, target, [], 3));
  }
}
