/** What every parse of a rule file leaves behind, and what the policy compiler may rely on. */
module ParserProperties {
  import opened Options
  import opened Sorting
  import opened Text
  import opened PathKindCache
  import opened Rules
  import opened Precedence
  import opened PolicyIndex
  import opened IndexRefinement
  import opened FiledRules
  import opened ParsedRules
  import opened RuleCompiler
  import opened Policy
  import opened PolicyProperties
  import opened LineSyntax
  import opened RuleParser
  import Buckets

  function CleanLine(line: string): string {
    Trim(WithoutReturn(line))
  }

  /** A line that ends in a carriage return reads as the line without it. */
  lemma ReturnIsInert(line: string)
    ensures CleanLine(line + "\r") == CleanLine(line)
  {
    assert (line + "\r")[..|line|] == line;
    TrimDropsReturn(line);
  }

  lemma TrimDropsReturn(line: string)
    ensures Trim(WithoutReturn(line)) == Trim(line)
  {
    if line != "" && line[|line| - 1] == '\r' {
      TrimLeftDropsLast(line);
    }
  }

  lemma {:induction false} TrimLeftDropsLast(line: string)
    requires line != "" && IsSpace(line[|line| - 1])
    ensures TrimRight(TrimLeft(line[..|line| - 1])) == TrimRight(TrimLeft(line))
  {
    var short := line[..|line| - 1];
    if short == "" {
      assert TrimLeft(line) == TrimLeft(line[1..]) == "";
    } else if IsSpace(line[0]) {
      assert short[1..] == line[1..][..|line| - 2];
      TrimLeftDropsLast(line[1..]);
    }
  }

  // ---------------------------------------------------------------------------
  // Rules and sections

  predicate HasTypes(text: string) {
    FindTypes(text, 0) >= 0
  }

  /** Paths are trimmed and not empty, and only redirects have a target and a type filter. */
  predicate RuleFits(rule: ParsedRuleLine) {
    && IsTrimmed(rule.path) && !HasTypes(rule.path)
    && (NeedsTarget(rule.action) ==> IsTrimmed(rule.redirectTarget))
    && (!NeedsTarget(rule.action) ==> rule.redirectTarget == "" && rule.extensions == [])
  }

  /** The rule is what its line of the text says. */
  predicate FromText(rule: ParsedRuleLine, all: seq<string>) {
    && 1 <= rule.lineNumber <= |all|
    && ReadRule(CleanLine(all[rule.lineNumber - 1]), rule.lineNumber) == Some(rule)
  }

  lemma RulesOfTextFit(rule: ParsedRuleLine, line: string, number: nat)
    requires ReadRule(line, number) == Some(rule)
    ensures RuleFits(rule) && rule.lineNumber == number
  {
    if IsMarked(line) {
      TrimIsTrimmed(line[1..]);
    } else {
      RedirectRuleFits(rule, line, number);
    }
  }

  lemma RedirectRuleFits(rule: ParsedRuleLine, line: string, number: nat)
    requires RedirectRule(line, number) == Some(rule)
    ensures RuleFits(rule) && rule.lineNumber == number
  {
    hide Find, FindTypes, ParseTypeFilter, Trim, IsTrimmed;
    var arrow, alias := Find(line, ARROW), Find(line, DYNAMIC_ARROW);
    var split := if arrow >= 0 && (alias < 0 || arrow < alias) then arrow else alias;
    TrimIsTrimmed(line[..split]);
    TrimIsTrimmed(line[split + 2..]);
    TargetIsTrimmed(Trim(line[split + 2..]));
  }

  lemma TargetIsTrimmed(text: string)
    requires IsTrimmed(text)
    ensures ParseTypeFilter(text).Filter? ==> IsTrimmed(ParseTypeFilter(text).path)
  {
    var at := FindTypes(text, 0);
    if at < 0 {
      TrimOfTrimmed(text);
    } else {
      TrimIsTrimmed(text[..at]);
    }
  }

  predicate SectionFits(section: ParsedSection, all: seq<string>, read: nat) {
    && IsTrimmed(section.packageName)
    && (forall i :: 0 <= i < |section.rules| ==> FromText(section.rules[i], all) && section.rules[i].lineNumber <= read)
    && forall i, j :: 0 <= i < j < |section.rules| ==> section.rules[i].lineNumber < section.rules[j].lineNumber
  }

  lemma RuleAddedFits(section: ParsedSection, rule: ParsedRuleLine, all: seq<string>, read: nat)
    requires SectionFits(section, all, read) && FromText(rule, all) && rule.lineNumber == read + 1
    ensures SectionFits(section.(rules := section.rules + [rule]), all, read + 1)
  {
  }

  lemma PolicyLineFits(section: ParsedSection, all: seq<string>, read: nat)
    requires SectionFits(section, all, read) && read < |all|
    requires PolicyLine(section, CleanLine(all[read]), read + 1).Some?
    ensures SectionFits(PolicyLine(section, CleanLine(all[read]), read + 1).value, all, read + 1)
    ensures PolicyLine(section, CleanLine(all[read]), read + 1).value.packageName == section.packageName
  {
    var line := CleanLine(all[read]);
    if !BeginsOption(line) {
      var rule := ReadRule(line, read + 1).value;
      RulesOfTextFit(rule, line, read + 1);
      RuleAddedFits(section, rule, all, read);
    }
  }

  // ---------------------------------------------------------------------------
  // The whole state

  ghost predicate NamesFit(sections: seq<ParsedSection>, packages: set<string>) {
    && (forall i :: 0 <= i < |sections| ==> sections[i].packageName in packages)
    && forall i, j :: 0 <= i < j < |sections| ==> sections[i].packageName != sections[j].packageName
  }

  ghost predicate SectionsFit(sections: seq<ParsedSection>, all: seq<string>, read: nat) {
    forall i :: 0 <= i < |sections| ==> SectionFits(sections[i], all, read)
  }

  /** Every package name is also a section name, so a name that is new to the one set is new to the other. */
  ghost predicate Sound(state: ParseState, all: seq<string>, read: nat) {
    && WellPlaced(state)
    && state.packages <= state.sectionNames
    && NamesFit(state.parsed.sections, state.packages)
    && SectionsFit(state.parsed.sections, all, read)
  }

  lemma MoreRead(sections: seq<ParsedSection>, all: seq<string>, read: nat)
    requires SectionsFit(sections, all, read)
    ensures SectionsFit(sections, all, read + 1)
  {
    forall i | 0 <= i < |sections| ensures SectionFits(sections[i], all, read + 1) {
      assert SectionFits(sections[i], all, read);
    }
  }

  lemma EnterKeepsSound(state: ParseState, name: string, all: seq<string>, read: nat)
    requires Sound(state, all, read) && (name == "" || IsTrimmed(name))
    ensures Sound(Enter(state, name, read + 1), all, read + 1)
  {
    MoreRead(state.parsed.sections, all, read);
    var next := Enter(state, name, read + 1);
    if next.active.InPolicy? {
      var sections := next.parsed.sections;
      assert sections == state.parsed.sections + [NewSection(name)];
      assert SectionFits(NewSection(name), all, read + 1);
    }
  }

  lemma BodyKeepsSound(state: ParseState, all: seq<string>, read: nat)
    requires Sound(state, all, read) && read < |all|
    ensures Sound(BodyStep(state, CleanLine(all[read]), read + 1), all, read + 1)
  {
    hide PolicyLine, SectionFits, AccessibleField, ExportField, SplitAssignment, Trim;
    MoreRead(state.parsed.sections, all, read);
    if state.active.InPolicy? {
      var section := Last(state.parsed.sections);
      assert SectionFits(section, all, read);
      if PolicyLine(section, CleanLine(all[read]), read + 1).Some? {
        PolicyLineFits(section, all, read);
      }
    }
  }

  lemma StepKeepsSound(state: ParseState, all: seq<string>, read: nat)
    requires Sound(state, all, read) && read < |all|
    ensures Sound(LineStep(state, CleanLine(all[read]), read + 1), all, read + 1)
  {
    var line := CleanLine(all[read]);
    if line == "" || line[0] == '#' {
      MoreRead(state.parsed.sections, all, read);
    } else if IsHeader(line) {
      TrimIsTrimmed(line[1..|line| - 1]);
      EnterKeepsSound(state, Trim(line[1..|line| - 1]), all, read);
    } else {
      BodyKeepsSound(state, all, read);
    }
  }

  lemma {:induction false} FoldKeepsSound(state: ParseState, all: seq<string>, read: nat)
    requires Sound(state, all, read) && read <= |all|
    ensures Sound(Fold(state, all[read..], read + 1), all, |all|)
    decreases |all| - read
  {
    if read < |all| {
      assert all[read..][0] == all[read] && all[read..][1..] == all[read + 1..];
      StepKeepsSound(state, all, read);
      FoldKeepsSound(LineStep(state, CleanLine(all[read]), read + 1), all, read + 1);
    }
  }

  /** Whatever the text, even one with errors: package sections have distinct names, and the rules of each stand in the
    order of their lines, each as its own line says it. */
  lemma ParsedTextIsSound(text: string)
    ensures forall i, j :: 0 <= i < j < |Parsed(text).sections| ==>
      Parsed(text).sections[i].packageName != Parsed(text).sections[j].packageName
    ensures forall s :: s in Parsed(text).sections ==>
      IsTrimmed(s.packageName) && IncreasingLines(s.rules) && forall r :: r in s.rules ==> FromText(r, Lines(text)) && RuleFits(r)
  {
    hide Fold, Lines, ReadRule, RuleFits, WithoutReturn, Trim, IsTrimmed, MissingModes, AccessibleErrors, ExportErrors;
    var all := Lines(text);
    FoldKeepsSound(START, all, 0);
    assert all[0..] == all;
    forall s, r | s in Parsed(text).sections && r in s.rules ensures FromText(r, all) && RuleFits(r) {
      RulesOfTextFit(r, CleanLine(all[r.lineNumber - 1]), r.lineNumber);
    }
  }

  /** The parser's second test for a repeated package can never fail: the first test has caught it. */
  lemma PackageTestNeverFails(text: string, read: nat, name: string)
    requires read <= |Lines(text)|
    requires name !in Fold(START, Lines(text)[..read], 1).sectionNames
    ensures name !in Fold(START, Lines(text)[..read], 1).packages
  {
    hide Fold, Lines;
    var some := Lines(text)[..read];
    FoldKeepsSound(START, some, 0);
    assert some[0..] == some;
  }

  // ---------------------------------------------------------------------------
  // What acceptance means

  lemma {:induction false} NoMissingModes(sections: seq<ParsedSection>)
    ensures MissingModes(sections) == [] <==> forall s :: s in sections ==> s.enabled ==> s.hasMode
  {
    if sections != [] {
      NoMissingModes(sections[1..]);
      assert sections == [sections[0]] + sections[1..];
    }
  }

  predicate AccessibleComplete(s: ParsedAccessibleSection) {
    s.path != "" && (s.fromPackage != "" || s.toPackage != "")
  }

  predicate ExportComplete(s: ParsedExportSection) {
    s.sourcePath != "" && s.targetPath != ""
  }

  lemma {:induction false} NoAccessibleErrors(sections: seq<ParsedAccessibleSection>)
    ensures AccessibleErrors(sections) == [] <==> forall s :: s in sections ==> AccessibleComplete(s)
  {
    if sections != [] {
      NoAccessibleErrors(sections[1..]);
      assert AccessibleErrorsOf(sections[0]) == [] <==> AccessibleComplete(sections[0]);
      assert sections == [sections[0]] + sections[1..];
    }
  }

  lemma {:induction false} NoExportErrors(sections: seq<ParsedExportSection>)
    ensures ExportErrors(sections) == [] <==> forall s :: s in sections ==> ExportComplete(s)
  {
    if sections != [] {
      NoExportErrors(sections[1..]);
      assert ExportErrorsOf(sections[0]) == [] <==> ExportComplete(sections[0]);
      assert sections == [sections[0]] + sections[1..];
    }
  }

  /** The checks at the end pass exactly when no line failed and every section is complete. */
  lemma ValidationIsCompleteness(parsed: ParsedRules)
    ensures Validated(parsed).errors == [] <==>
      && parsed.errors == []
      && (forall s :: s in parsed.sections ==> s.enabled ==> s.hasMode)
      && (forall s :: s in parsed.accessibleSections ==> AccessibleComplete(s))
      && (forall s :: s in parsed.exportSections ==> ExportComplete(s))
  {
    NoMissingModes(parsed.sections);
    NoAccessibleErrors(parsed.accessibleSections);
    NoExportErrors(parsed.exportSections);
  }

  // ---------------------------------------------------------------------------
  // From the text to the decision

  lemma {:induction false} MatchingSectionIsIn(sections: seq<ParsedSection>, process: string)
    ensures MatchingSection(sections, process).Some? ==> MatchingSection(sections, process).value in sections
  {
    if sections != [] {
      MatchingSectionIsIn(sections[1..], process);
    }
  }

  /** The ordered rules of the policy that a text gives to a process. */
  ghost predicate OrderedFor(ordered: seq<CompiledRule>, text: string, process: string, probe: string -> PathKind) {
    var section := MatchingSection(Parsed(text).sections, process);
    && section.Some?
    && SortedBy(ordered, ComesBefore)
    && exists rules: seq<CompiledRule> ::
         RulesFrom(rules, LinesOf(section.value.rules, false), section.value.packageName, probe) && multiset(ordered) == multiset(rules)
  }

  /** A policy compiled from the text has such rules. */
  lemma CompiledPolicyIsOrdered(policy: AppPolicy, text: string, process: string, probe: string -> PathKind)
    requires policy.Valid() && policy.CompiledPolicy(Parsed(text), process, probe)
    ensures OrderedFor(policy.orderedRules, text, process, probe)
  {
    hide RulesFrom, LinesOf, Parsed, Buckets.Holds, Buckets.Sorted, AccessibleFolders, OwnExports, At, WellFormed;
    assert multiset(policy.orderedRules) == multiset(policy.rules);
  }

  /** However the rules of a parsed text are compiled and sorted, their lines stay distinct, and the scan's first hit is
    the only hitting rule of highest precedence. */
  lemma ParsedRulesScanUniquely(text: string, process: string, ordered: seq<CompiledRule>, probe: string -> PathKind,
                                q: Query, other: CompiledRule)
    requires OrderedFor(ordered, text, process, probe)
    requires other in ordered && Hits(other, q)
    ensures DistinctLines(ordered) && FirstHit(ordered, q).Some?
    ensures other == FirstHit(ordered, q).value || LexicographicallyLess(Rank(FirstHit(ordered, q).value), Rank(other))
  {
    hide RulesFrom, Parsed, FirstHit, Hits, LexicographicallyLess, Rank, LinesOf, DistinctLines;
    var s, rules := CompiledSection(ordered, text, process, probe);
    SameMembers(rules, ordered);
    ScannedRuleIsHighest(rules, ordered, s.rules, s.packageName, probe, q, other);
  }

  /** And the rule that decides, by the index or the scan, is the only one of highest precedence among the hitting rules
    that count for the access, if none is overtaken. */
  lemma ParsedRulesDecideUniquely(text: string, process: string, ordered: seq<CompiledRule>, probe: string -> PathKind, q: Query)
    requires OrderedFor(ordered, text, process, probe) && NoneOvertaken(ordered)
    ensures HitFor(ordered, q).None? <==> forall r :: r in ordered && Hits(r, q) ==> !Counts(r, q)
    ensures HitFor(ordered, q).Some? ==> IsHighest(HitFor(ordered, q).value, ordered, q)
  {
    hide RulesFrom, Parsed, HitFor, Hits, LexicographicallyLess, Rank, LinesOf, NoneOvertaken, Counts;
    var s, rules := CompiledSection(ordered, text, process, probe);
    SameMembers(rules, ordered);
    DecidingRuleIsHighest(rules, ordered, s.rules, s.packageName, probe, q);
  }

  lemma CompiledSection(ordered: seq<CompiledRule>, text: string, process: string, probe: string -> PathKind)
    returns (section: ParsedSection, rules: seq<CompiledRule>)
    requires OrderedFor(ordered, text, process, probe)
    ensures IncreasingLines(section.rules) && RulesFrom(rules, LinesOf(section.rules, false), section.packageName, probe)
    ensures multiset(ordered) == multiset(rules)
  {
    hide RulesFrom, LinesOf, Parsed;
    section := MatchingSection(Parsed(text).sections, process).value;
    rules :| RulesFrom(rules, LinesOf(section.rules, false), section.packageName, probe) && multiset(ordered) == multiset(rules);
    ParsedTextIsSound(text);
    MatchingSectionIsIn(Parsed(text).sections, process);
  }

  // ---------------------------------------------------------------------------
  // Names of shared and exported sections

  /** The parts around the first marker have no white space of their own next to it. */
  predicate Tight(name: string, marker: string) {
    var at := Find(name, marker);
    at >= 0 && IsTrimmed(name[..at]) && IsTrimmed(name[at + |marker|..])
  }

  /** Two tight names with the same parts are the same name. */
  lemma TightNamesAreTold(one: string, two: string, marker: string)
    requires marker != "" && Tight(one, marker) && Tight(two, marker)
    ensures SubSectionName(one, marker) == SubSectionName(two, marker) <==> one == two
  {
    PartsOfTight(one, marker);
    PartsOfTight(two, marker);
  }

  lemma PartsOfTight(name: string, marker: string)
    requires Tight(name, marker)
    ensures SubSectionName(name, marker).Some?
    ensures name == SubSectionName(name, marker).value.0 + marker + SubSectionName(name, marker).value.1
  {
    var at := Find(name, marker);
    TrimOfTrimmed(name[..at]);
    TrimOfTrimmed(name[at + |marker|..]);
    assert name[at..][..|marker|] == marker;
    assert name == name[..at] + name[at..at + |marker|] + name[at + |marker|..];
  }

  ghost predicate SpaceFree(text: string) {
    text != "" && forall c :: c in text ==> !IsSpace(c)
  }

  /** But a blank before the marker makes another section name with the same parts. */
  lemma SpacedNamesAreNotTold(anchor: string, marker: string, id: string)
    requires SpaceFree(marker) && Trim(anchor) != "" && Trim(id) != ""
    requires Find(anchor + marker + id, marker) == |anchor|
    ensures SubSectionName(anchor + marker + id, marker) == Some((Trim(anchor), Trim(id)))
    ensures SubSectionName(anchor + " " + marker + id, marker) == Some((Trim(anchor), Trim(id)))
  {
    NameHasParts(anchor, marker, id);
    MarkerMovesOn(anchor, marker, id);
    assert (anchor + " ")[..|anchor|] == anchor;
    TrimLeftDropsLast(anchor + " ");
    NameHasParts(anchor + " ", marker, id);
  }

  function SharedSection(anchor: string, id: string, number: nat): ParsedAccessibleSection {
    ParsedAccessibleSection(anchor, id, "", "", "", "", number)
  }

  function ExportedSection(anchor: string, id: string, number: nat): ParsedExportSection {
    ParsedExportSection(anchor, id, "", "", "", false, false, false, "", number)
  }

  /** So the test for repeated sections lets both through: two shared sections with the same parts and no error. */
  lemma SpacedSharedSectionIsAccepted(state: ParseState, anchor: string, id: string, number: nat, later: nat)
    requires Trim(anchor) != "" && Trim(id) != "" && Find(anchor + ACCESSIBLE + id, ACCESSIBLE) == |anchor|
    requires anchor + ACCESSIBLE + id !in state.sectionNames && anchor + " " + ACCESSIBLE + id !in state.sectionNames
    ensures var one := Enter(state, anchor + ACCESSIBLE + id, number);
            var two := Enter(one, anchor + " " + ACCESSIBLE + id, later);
      && two.parsed.errors == state.parsed.errors
      && two.parsed.accessibleSections == state.parsed.accessibleSections +
           [SharedSection(Trim(anchor), Trim(id), number), SharedSection(Trim(anchor), Trim(id), later)]
  {
    hide SubSectionName, Find, Trim;
    SpacedNamesAreNotTold(anchor, ACCESSIBLE, id);
    assert |anchor + " " + ACCESSIBLE + id| > |anchor + ACCESSIBLE + id| > 0;
  }

  /** Exported sections likewise, if the name is not that of a shared section. */
  lemma SpacedExportSectionIsAccepted(state: ParseState, anchor: string, id: string, number: nat, later: nat)
    requires Trim(anchor) != "" && Trim(id) != "" && Find(anchor + EXPORT + id, EXPORT) == |anchor|
    requires Find(anchor + EXPORT + id, ACCESSIBLE) < 0
    requires anchor + EXPORT + id !in state.sectionNames && anchor + " " + EXPORT + id !in state.sectionNames
    ensures var one := Enter(state, anchor + EXPORT + id, number);
            var two := Enter(one, anchor + " " + EXPORT + id, later);
      && two.parsed.errors == state.parsed.errors
      && two.parsed.exportSections == state.parsed.exportSections +
           [ExportedSection(Trim(anchor), Trim(id), number), ExportedSection(Trim(anchor), Trim(id), later)]
  {
    hide Find, Trim, SubSectionName;
    SpacedNamesAreNotTold(anchor, EXPORT, id);
    NotSharedEither(anchor, id);
    assert |anchor + " " + EXPORT + id| > |anchor + EXPORT + id| > 0;
  }

  lemma NotSharedEither(anchor: string, id: string)
    requires Find(anchor + EXPORT + id, ACCESSIBLE) < 0
    ensures SubSectionName(anchor + EXPORT + id, ACCESSIBLE).None?
    ensures SubSectionName(anchor + " " + EXPORT + id, ACCESSIBLE).None?
  {
    hide Find, Trim, StartsWith;
    NoMarkerAcrossBlank(anchor, EXPORT, id, ACCESSIBLE);
  }

  lemma BehindBlank(left: string, middle: string, right: string, j: nat)
    requires |left| < j <= |left + " " + middle + right|
    ensures (left + " " + middle + right)[j..] == (left + middle + right)[j - 1..]
  {
  }

  /** A marker without white space that is not in a text is not there either once a blank has been put in. */
  lemma NoMarkerAcrossBlank(left: string, middle: string, right: string, marker: string)
    requires SpaceFree(marker) && Find(left + middle + right, marker) < 0
    ensures Find(left + " " + middle + right, marker) < 0
  {
    hide StartsWith, SpaceFree;
    var text, other := left + middle + right, left + " " + middle + right;
    forall j | 0 <= j <= |other| ensures !StartsWith(other[j..], marker) {
      if j > |left| {
        BehindBlank(left, middle, right, j);
      } else {
        assert !StartsWith(text[j..], marker);
        NoMarkerAcrossSpace(left, middle, right, marker, j);
      }
    }
  }

  lemma NameHasParts(left: string, marker: string, right: string)
    requires Find(left + marker + right, marker) == |left|
    requires Trim(left) != "" && Trim(right) != ""
    ensures SubSectionName(left + marker + right, marker) == Some((Trim(left), Trim(right)))
  {
    var name := left + marker + right;
    assert name[..|left|] == left;
    assert name[|left| + |marker|..] == right;
  }

  lemma MarkerMovesOn(left: string, marker: string, right: string)
    requires SpaceFree(marker) && Find(left + marker + right, marker) == |left|
    ensures Find(left + " " + marker + right, marker) == |left + " "|
  {
    hide SpaceFree;
    var other := left + " " + marker + right;
    forall j | 0 <= j < |left| + 1 ensures !StartsWith(other[j..], marker) {
      NoMarkerAcrossSpace(left, marker, right, marker, j);
    }
    assert other[|left| + 1..][..|marker|] == marker;
  }

  lemma NoMarkerAcrossSpace(left: string, middle: string, right: string, marker: string, j: nat)
    requires SpaceFree(marker) && j <= |left|
    requires j < |left| ==> !StartsWith((left + middle + right)[j..], marker)
    ensures !StartsWith((left + " " + middle + right)[j..], marker)
  {
    var other := left + " " + middle + right;
    if j + |marker| <= |left| {
      assert other[j..][..|marker|] == (left + middle + right)[j..][..|marker|];
    } else {
      assert marker[|left| - j] in marker;
      assert other[j..][|left| - j] == ' ';
      DiffersAt(other[j..], marker, |left| - j);
    }
  }
}
