/** Exactly which accepted rule files can be written out again so that they are read back as they were
  (native/rule_engine.cpp, lines 997-1309). */
module RuleRewriting {
  import opened Options
  import opened Text
  import opened Rules
  import opened ParsedRules
  import opened RuleCompiler
  import opened LineSyntax
  import opened RuleParser
  import opened ParserProperties
  import opened RuleRenderer
  import opened RuleRoundTrip
  import opened RuleSurvival

  // ---------------------------------------------------------------------------
  // What every section that was read is like

  /** Only types that do not read as themselves, or that make the rule look like a header, are in the way. */
  predicate TypesCanBeWritten(rule: ParsedRuleLine) {
    rule.extensions == [] || (PlainTypes(rule.extensions) && !IsHeader(RuleText(rule)))
  }

  ghost predicate RuleRead(rule: ParsedRuleLine) {
    (RuleIsPlain(rule) <==> TypesCanBeWritten(rule)) && OneLine(RuleText(rule))
  }

  ghost predicate OptionsRead(s: ParsedSection) {
    && (s.hasMode || s.mode == Blacklist)
    && s.minAgeDays < 0x8000_0000 && s.minSizeMb <= MAX_LONG
    && FieldCanBeWritten(s.trashDir)
  }

  ghost predicate SectionRead(s: ParsedSection) {
    && IsPackageName(s.packageName) && OneLine(s.packageName) && OptionsRead(s)
    && forall i :: 0 <= i < |s.rules| ==> RuleRead(s.rules[i])
  }

  ghost predicate SharedRead(a: ParsedAccessibleSection) {
    && IsTrimmed(a.anchorPackage) && IsTrimmed(a.ruleId) && OneLine(a.anchorPackage) && OneLine(a.ruleId)
    && FieldCanBeWritten(a.fromPackage) && FieldCanBeWritten(a.toPackage)
    && FieldCanBeWritten(a.path) && FieldCanBeWritten(a.description)
  }

  ghost predicate ExportRead(e: ParsedExportSection) {
    && IsTrimmed(e.anchorPackage) && IsTrimmed(e.ruleId) && OneLine(e.anchorPackage) && OneLine(e.ruleId)
    && FieldCanBeWritten(e.sourcePath) && FieldCanBeWritten(e.targetPath)
    && FieldCanBeWritten(e.title) && FieldCanBeWritten(e.description)
  }

  ghost predicate AllRead(parsed: ParsedRules) {
    && (forall i :: 0 <= i < |parsed.sections| ==> SectionRead(parsed.sections[i]))
    && (forall i :: 0 <= i < |parsed.accessibleSections| ==> SharedRead(parsed.accessibleSections[i]))
    && (forall i :: 0 <= i < |parsed.exportSections| ==> ExportRead(parsed.exportSections[i]))
  }

  // ---------------------------------------------------------------------------
  // Values, options and rules of one line

  lemma TrimmedValue(text: string)
    requires OneLine(text)
    ensures FieldCanBeWritten(Trim(text))
  {
    hide Trim;
    TrimIsTrimmed(text);
    TrimIsInside(text);
  }

  lemma AssignedValue(line: string)
    requires OneLine(line) && SplitAssignment(line).Some?
    ensures FieldCanBeWritten(SplitAssignment(line).value.1)
  {
    hide Trim;
    TrimmedValue(line[FirstIndex(line, '=') + 1..]);
  }

  lemma Int32IsSmall(n: nat)
    ensures ToInt32(n) < 0x8000_0000
  {
  }

  lemma TrashKeepsRead(s: ParsedSection, key: string, value: string)
    requires OptionsRead(s) && FieldCanBeWritten(value) && SetTrash(s, key, value).Some?
    ensures OptionsRead(SetTrash(s, key, value).value)
  {
    hide ReadInteger, ReadBool, ToInt32, FieldCanBeWritten, OptionsRead;
    TrashFieldsKeepRead(s, value);
    if ReadInteger(value).Some? {
      Int32IsSmall(ReadInteger(value).value);
      IntegerIsSmall(value);
    }
  }

  lemma TrashFieldsKeepRead(s: ParsedSection, value: string)
    requires OptionsRead(s) && FieldCanBeWritten(value)
    ensures forall flag :: OptionsRead(s.(trashEnabled := flag)) && OptionsRead(s.(trashOnRedirect := flag))
    ensures OptionsRead(s.(trashDir := value))
    ensures forall days: int :: days < 0x8000_0000 ==> OptionsRead(s.(minAgeDays := days))
    ensures forall mb: nat :: mb <= MAX_LONG ==> OptionsRead(s.(minSizeMb := mb))
  {
  }

  lemma IntegerIsSmall(value: string)
    requires ReadInteger(value).Some?
    ensures ReadInteger(value).value <= MAX_LONG
  {
    hide Trim, DigitsValue, AllDigits;
  }

  lemma OptionKeepsRead(s: ParsedSection, line: string)
    requires SectionRead(s) && OneLine(line) && BeginsOption(line) && SetOption(s, line).Some?
    ensures SectionRead(SetOption(s, line).value)
  {
    hide BeginsMode, BeginsEnabled, BeginsDelete, BeginsMediaQuery, BeginsTrash, SplitAssignment, SetMode, SetEnabled, SetDelete;
    hide SetMediaQuery, SetTrash, RuleRead, OptionsRead, IsPackageName, OneLine;
    if BeginsMode(line) {
      ModeKeepsRead(s, line);
    } else {
      AssignedValue(line);
      var (key, value) := SplitAssignment(line).value;
      SwitchesKeepRead(s, key, value);
      if SetTrash(s, key, value).Some? {
        TrashKeepsRead(s, key, value);
      }
    }
  }

  lemma ModeKeepsRead(s: ParsedSection, line: string)
    requires OptionsRead(s)
    ensures SetMode(s, line).Some? ==> OptionsRead(SetMode(s, line).value)
  {
    hide Trim, FirstIndex, FieldCanBeWritten;
  }

  lemma SwitchesKeepRead(s: ParsedSection, key: string, value: string)
    requires OptionsRead(s)
    ensures SetEnabled(s, key, value).Some? ==> OptionsRead(SetEnabled(s, key, value).value)
    ensures SetDelete(s, key, value).Some? ==> OptionsRead(SetDelete(s, key, value).value)
    ensures SetMediaQuery(s, key, value).Some? ==> OptionsRead(SetMediaQuery(s, key, value).value)
  {
    hide ReadBool, ReadDeleteDirMode, ReadMediaQueryMode, FieldCanBeWritten;
  }

  lemma LowerIsOneLine(text: string)
    requires OneLine(text)
    ensures OneLine(Lower(text))
  {
    forall i | 0 <= i < |text| ensures Lower(text)[i] != '\n' {
      assert text[i] in text;
    }
  }

  lemma TypeIsOneLine(piece: string)
    requires OneLine(piece) && ReadType(piece).Some?
    ensures OneLine(ReadType(piece).value)
  {
    hide Trim, Lower;
    TrimIsInside(piece);
    var trimmed := Trim(piece);
    LowerIsOneLine(if trimmed != "" && trimmed[0] == '.' then trimmed[1..] else trimmed);
  }

  lemma {:induction false} TypesAreOneLine(text: string)
    requires OneLine(text) && ReadTypes(text).Some?
    ensures AllOneLine(ReadTypes(text).value)
    decreases |text|
  {
    hide ReadType;
    if text != "" {
      var comma := FirstIndex(text, ',');
      if comma < 0 {
        TypeIsOneLine(text);
      } else {
        TypeIsOneLine(text[..comma]);
        TypesAreOneLine(text[comma + 1..]);
      }
    }
  }

  lemma {:induction false} ListedIsOneLine(types: seq<string>)
    requires types != [] && AllOneLine(types)
    ensures OneLine(Listed(types))
  {
    assert OneLine(types[0]);
    if |types| > 1 {
      ListedIsOneLine(types[1..]);
    }
  }

  lemma FilterIsOneLine(text: string)
    requires OneLine(text) && ParseTypeFilter(text).Filter?
    ensures OneLine(ParseTypeFilter(text).path) && AllOneLine(ParseTypeFilter(text).types)
  {
    hide Trim, ReadTypes, FindTypes, OneLine;
    var at := FindTypes(text, 0);
    if at < 0 {
      TrimIsOneLine(text);
    } else {
      PartsAreOneLine(text, at);
      TrimIsOneLine(text[..at]);
      TypesMarker(text, at);
      PartsAreOneLine(text, at + |TYPES|);
      TrimIsOneLine(text[at + |TYPES|..]);
      TypesAreOneLine(Trim(text[at + |TYPES|..]));
    }
  }

  lemma TypesMarker(text: string, at: nat)
    requires at <= |text| && TypesAt(text, at)
    ensures at + |TYPES| <= |text|
  {
  }

  lemma PartsAreOneLine(text: string, at: nat)
    requires OneLine(text) && at <= |text|
    ensures OneLine(text[..at]) && OneLine(text[at..])
  {
  }

  lemma TrimIsOneLine(text: string)
    requires OneLine(text)
    ensures OneLine(Trim(text))
  {
    hide Trim;
    TrimIsInside(text);
  }

  lemma RuleTextIsOneLine(rule: ParsedRuleLine)
    requires OneLine(rule.path) && OneLine(rule.redirectTarget) && AllOneLine(rule.extensions)
    ensures OneLine(RuleText(rule))
  {
    if rule.extensions != [] {
      ListedIsOneLine(rule.extensions);
    }
  }

  lemma RuleIsOneLine(line: string, rule: ParsedRuleLine, number: nat)
    requires OneLine(line) && line != "" && ReadRule(line, number) == Some(rule)
    ensures OneLine(RuleText(rule))
  {
    if IsMarked(line) {
      PartsAreOneLine(line, 1);
      TrimIsOneLine(line[1..]);
      assert rule.redirectTarget == "" && rule.extensions == [];
    } else {
      RedirectIsOneLine(line, rule, number);
    }
    RuleTextIsOneLine(rule);
  }

  lemma RedirectIsOneLine(line: string, rule: ParsedRuleLine, number: nat)
    requires OneLine(line) && RedirectRule(line, number) == Some(rule)
    ensures OneLine(rule.path) && OneLine(rule.redirectTarget) && AllOneLine(rule.extensions)
  {
    hide Find, FindTypes, Trim, ParseTypeFilter, OneLine;
    var arrow, alias := Find(line, ARROW), Find(line, DYNAMIC_ARROW);
    var split := if arrow >= 0 && (alias < 0 || arrow < alias) then arrow else alias;
    PartsAreOneLine(line, split);
    PartsAreOneLine(line, split + 2);
    TrimIsOneLine(line[..split]);
    TrimIsOneLine(line[split + 2..]);
    FilterIsOneLine(Trim(line[split + 2..]));
  }

  lemma PolicyLineKeepsRead(s: ParsedSection, line: string, number: nat)
    requires SectionRead(s) && IsBodyLine(line) && OneLine(line) && PolicyLine(s, line, number).Some?
    ensures SectionRead(PolicyLine(s, line, number).value)
  {
    hide BeginsOption, SetOption, ReadRule, SectionRead, RuleRead, IsBodyLine, OneLine;
    if BeginsOption(line) {
      OptionKeepsRead(s, line);
    } else {
      var rule := ReadRule(line, number).value;
      RuleIsRead(line, rule, number);
      MoreRulesRead(s, rule);
    }
  }

  lemma RuleIsRead(line: string, rule: ParsedRuleLine, number: nat)
    requires IsBodyLine(line) && OneLine(line) && !BeginsOption(line) && ReadRule(line, number) == Some(rule)
    ensures RuleRead(rule)
  {
    hide BeginsOption, ReadRule, RuleIsPlain, TypesCanBeWritten, OneLine, RuleText, IsHeader;
    RuleIsOneLine(line, rule, number);
    PlainByTypes(line, rule, number);
  }

  lemma MoreRulesRead(s: ParsedSection, rule: ParsedRuleLine)
    requires SectionRead(s) && RuleRead(rule)
    ensures SectionRead(s.(rules := s.rules + [rule]))
  {
    hide RuleRead, IsPackageName, OneLine, OptionsRead;
    assert OptionsRead(s.(rules := s.rules + [rule])) by {
      RulesAreNoOption(s, s.rules + [rule]);
    }
  }

  lemma RulesAreNoOption(s: ParsedSection, rules: seq<ParsedRuleLine>)
    requires OptionsRead(s)
    ensures OptionsRead(s.(rules := rules))
  {
  }

  lemma PlainByTypes(line: string, rule: ParsedRuleLine, number: nat)
    requires IsBodyLine(line) && !BeginsOption(line) && ReadRule(line, number) == Some(rule)
    ensures RuleIsPlain(rule) <==> TypesCanBeWritten(rule)
  {
    hide BeginsOption, ReadRule, RuleIsPlain, RuleText, IsBodyLine;
    ReadRuleIsPlain(line, rule, number);
  }

  // ---------------------------------------------------------------------------
  // Whole texts

  lemma SubNameParts(name: string, marker: string)
    requires OneLine(name) && SubSectionName(name, marker).Some?
    ensures var (left, right) := SubSectionName(name, marker).value;
      IsTrimmed(left) && IsTrimmed(right) && OneLine(left) && OneLine(right)
  {
    hide Find, Trim, OneLine;
    var at := Find(name, marker);
    PartsAreOneLine(name, at);
    PartsAreOneLine(name, at + |marker|);
    TrimIsOneLine(name[..at]);
    TrimIsOneLine(name[at + |marker|..]);
    TrimIsTrimmed(name[..at]);
    TrimIsTrimmed(name[at + |marker|..]);
  }

  lemma EnterKeepsRead(state: ParseState, name: string, number: nat)
    requires AllRead(state.parsed) && OneLine(name) && (name == "" || IsTrimmed(name))
    ensures AllRead(Enter(state, name, number).parsed)
  {
    hide SubSectionName, SectionRead, SharedRead, ExportRead, OneLine, IsTrimmed;
    var shared, exported := SubSectionName(name, ACCESSIBLE), SubSectionName(name, EXPORT);
    if shared.Some? {
      SubNameParts(name, ACCESSIBLE);
      NewSharedIsRead(shared.value.0, shared.value.1, number);
    }
    if exported.Some? {
      SubNameParts(name, EXPORT);
      NewExportIsRead(exported.value.0, exported.value.1, number);
    }
    if name != "" && shared.None? && exported.None? {
      NewSectionIsRead(name);
    }
  }

  lemma NewSharedIsRead(anchor: string, id: string, number: nat)
    requires IsTrimmed(anchor) && IsTrimmed(id) && OneLine(anchor) && OneLine(id)
    ensures SharedRead(ParsedAccessibleSection(anchor, id, "", "", "", "", number))
  {
  }

  lemma NewExportIsRead(anchor: string, id: string, number: nat)
    requires IsTrimmed(anchor) && IsTrimmed(id) && OneLine(anchor) && OneLine(id)
    ensures ExportRead(ParsedExportSection(anchor, id, "", "", "", false, false, false, "", number))
  {
  }

  lemma NewSectionIsRead(name: string)
    requires IsTrimmed(name) && OneLine(name)
    requires SubSectionName(name, ACCESSIBLE).None? && SubSectionName(name, EXPORT).None?
    ensures SectionRead(NewSection(name))
  {
  }

  lemma FieldsKeepRead(a: ParsedAccessibleSection, e: ParsedExportSection, key: string, value: string)
    requires FieldCanBeWritten(value)
    ensures SharedRead(a) && AccessibleField(a, key, value).Some? ==> SharedRead(AccessibleField(a, key, value).value)
    ensures ExportRead(e) && ExportField(e, key, value).Some? ==> ExportRead(ExportField(e, key, value).value)
  {
    hide IsTrimmed, OneLine, FieldCanBeWritten, ReadBool;
  }

  lemma BodyKeepsRead(state: ParseState, line: string, number: nat)
    requires WellPlaced(state) && AllRead(state.parsed) && IsBodyLine(line) && OneLine(line)
    ensures AllRead(BodyStep(state, line, number).parsed)
  {
    hide PolicyLine, SectionRead, SharedRead, ExportRead, SplitAssignment, AccessibleField, ExportField, IsBodyLine, OneLine;
    match state.active {
      case Nowhere =>
      case InPolicy =>
        var section := Last(state.parsed.sections);
        if PolicyLine(section, line, number).Some? {
          PolicyLineKeepsRead(section, line, number);
        }
      case InAccessible =>
        if SplitAssignment(line).Some? {
          AssignedValue(line);
          var (key, value) := SplitAssignment(line).value;
          FieldsKeepRead(Last(state.parsed.accessibleSections), ParsedExportSection("", "", "", "", "", false, false, false, "", 0), key, value);
        }
      case InExport =>
        if SplitAssignment(line).Some? {
          AssignedValue(line);
          var (key, value) := SplitAssignment(line).value;
          FieldsKeepRead(ParsedAccessibleSection("", "", "", "", "", "", 0), Last(state.parsed.exportSections), key, value);
        }
    }
  }

  lemma StepKeepsRead(state: ParseState, line: string, number: nat)
    requires WellPlaced(state) && AllRead(state.parsed) && OneLine(line)
    ensures AllRead(LineStep(state, CleanLine(line), number).parsed)
  {
    hide AllRead, Trim, WithoutReturn, BodyStep, Enter, OneLine, IsTrimmed;
    var clean := CleanLine(line);
    CleanIsOneLine(line);
    if clean == "" || clean[0] == '#' {
    } else if IsHeader(clean) {
      InsideIsOneLine(clean);
      TrimIsOneLine(clean[1..|clean| - 1]);
      TrimIsTrimmed(clean[1..|clean| - 1]);
      EnterKeepsRead(state, Trim(clean[1..|clean| - 1]), number);
    } else {
      BodyKeepsRead(state, clean, number);
    }
  }

  lemma InsideIsOneLine(text: string)
    requires OneLine(text) && |text| >= 2
    ensures OneLine(text[1..|text| - 1])
  {
  }

  lemma CleanIsOneLine(line: string)
    requires OneLine(line)
    ensures OneLine(CleanLine(line)) && (CleanLine(line) == "" || IsTrimmed(CleanLine(line)))
  {
    hide Trim;
    TrimIsOneLine(WithoutReturn(line));
    TrimIsTrimmed(WithoutReturn(line));
  }

  lemma {:induction false} FoldKeepsRead(state: ParseState, lines: seq<string>, number: nat)
    requires WellPlaced(state) && AllRead(state.parsed) && AllOneLine(lines)
    ensures AllRead(Fold(state, lines, number).parsed)
    decreases lines
  {
    hide AllRead, LineStep, Trim, WithoutReturn, OneLine;
    if lines != [] {
      assert OneLine(lines[0]);
      StepKeepsRead(state, lines[0], number);
      FoldKeepsRead(LineStep(state, CleanLine(lines[0]), number), lines[1..], number + 1);
    }
  }

  lemma {:induction false} LinesAreOneLine(text: string)
    ensures AllOneLine(Lines(text))
    decreases |text|
  {
    var end := FirstIndex(text, '\n');
    if end >= 0 {
      LinesAreOneLine(text[end + 1..]);
      assert OneLine(text[..end]);
    }
  }

  lemma ParsedIsRead(text: string)
    ensures AllRead(Parsed(text))
  {
    hide Fold, Lines, SectionRead, SharedRead, ExportRead, MissingModes, AccessibleErrors, ExportErrors;
    LinesAreOneLine(text);
    FoldKeepsRead(START, Lines(text), 1);
  }

  // ---------------------------------------------------------------------------
  // What may still be in the way

  predicate SectionRewritable(s: ParsedSection) {
    s.minAgeDays >= 0 && forall i :: 0 <= i < |s.rules| ==> TypesCanBeWritten(s.rules[i])
  }

  predicate ExportRewritable(e: ParsedExportSection) {
    Find(ExportName(e), EXPORT) == |e.anchorPackage| && SubSectionName(ExportName(e), ACCESSIBLE).None?
  }

  /** No negative age and no types that read as others; the names of shared and exported sections, written without blanks,
    are cut where they were cut and differ. */
  predicate Rewritable(parsed: ParsedRules) {
    && (forall i :: 0 <= i < |parsed.sections| ==> SectionRewritable(parsed.sections[i]))
    && (forall i :: 0 <= i < |parsed.accessibleSections| ==>
          Find(SharedName(parsed.accessibleSections[i]), ACCESSIBLE) == |parsed.accessibleSections[i].anchorPackage|)
    && (forall i :: 0 <= i < |parsed.exportSections| ==> ExportRewritable(parsed.exportSections[i]))
    && AllDistinct(SharedNames(parsed.accessibleSections)) && AllDistinct(ExportNames(parsed.exportSections))
  }

  lemma SectionExactly(s: ParsedSection)
    requires SectionRead(s)
    ensures SectionCanBeWritten(s) <==> SectionRewritable(s)
  {
    hide RuleIsPlain, TypesCanBeWritten, RuleText, IsPackageName;
    if SectionCanBeWritten(s) {
      forall i | 0 <= i < |s.rules| ensures TypesCanBeWritten(s.rules[i]) {
        assert RuleRead(s.rules[i]) && RuleCanBeWritten(s.rules[i]);
      }
    }
    if SectionRewritable(s) {
      forall i | 0 <= i < |s.rules| ensures RuleCanBeWritten(s.rules[i]) {
        assert RuleRead(s.rules[i]) && TypesCanBeWritten(s.rules[i]);
      }
    }
  }

  lemma SharedExactly(a: ParsedAccessibleSection)
    requires SharedRead(a) && AccessibleComplete(a)
    ensures SharedCanBeWritten(a) <==> Find(SharedName(a), ACCESSIBLE) == |a.anchorPackage|
  {
    hide Find, IsTrimmed, FieldCanBeWritten;
  }

  lemma ExportExactly(e: ParsedExportSection)
    requires ExportRead(e) && ExportComplete(e)
    ensures ExportCanBeWritten(e) <==> ExportRewritable(e)
  {
    hide Find, IsTrimmed, FieldCanBeWritten, SubSectionName;
  }

  lemma DistinctParts(one: seq<string>, two: seq<string>, three: seq<string>)
    requires AllDistinct(one + two + three)
    ensures AllDistinct(two) && AllDistinct(three)
  {
    var all := one + two + three;
    forall i, j | 0 <= i < j < |two| ensures two[i] != two[j] {
      assert two[i] == all[|one| + i] && two[j] == all[|one| + j];
    }
    forall i, j | 0 <= i < j < |three| ensures three[i] != three[j] {
      assert three[i] == all[|one| + |two| + i] && three[j] == all[|one| + |two| + j];
    }
  }

  lemma DistinctTogether(one: seq<string>, two: seq<string>)
    requires AllDistinct(one) && AllDistinct(two)
    requires forall i, j :: 0 <= i < |one| && 0 <= j < |two| ==> one[i] != two[j]
    ensures AllDistinct(one + two)
  {
  }

  lemma NamesAreDistinct(parsed: ParsedRules)
    requires AllRead(parsed) && Rewritable(parsed) && AllDistinct(PackageNames(parsed.sections))
    ensures AllDistinct(PackageNames(parsed.sections) + SharedNames(parsed.accessibleSections) + ExportNames(parsed.exportSections))
  {
    hide SectionRead, SharedRead, ExportRead, Find, ExportRewritable, SectionRewritable, AllDistinct;
    var one, two, three := PackageNames(parsed.sections), SharedNames(parsed.accessibleSections), ExportNames(parsed.exportSections);
    forall i, j | 0 <= i < |one| && 0 <= j < |two| ensures one[i] != two[j] {
      PackageIsNotShared(parsed.sections[i], parsed.accessibleSections[j]);
    }
    DistinctTogether(one, two);
    forall i, j | 0 <= i < |one + two| && 0 <= j < |three| ensures (one + two)[i] != three[j] {
      if i < |one| {
        PackageIsNotExport(parsed.sections[i], parsed.exportSections[j]);
      } else {
        SharedIsNotExport(parsed.accessibleSections[i - |one|], parsed.exportSections[j]);
      }
    }
    DistinctTogether(one + two, three);
  }

  lemma PackageIsNotShared(s: ParsedSection, a: ParsedAccessibleSection)
    requires SectionRead(s) && SharedRead(a) && Find(SharedName(a), ACCESSIBLE) == |a.anchorPackage|
    ensures s.packageName != SharedName(a)
  {
    hide Find, Trim;
    TrimOfTrimmed(a.anchorPackage);
    TrimOfTrimmed(a.ruleId);
    NameHasParts(a.anchorPackage, ACCESSIBLE, a.ruleId);
  }

  lemma PackageIsNotExport(s: ParsedSection, e: ParsedExportSection)
    requires SectionRead(s) && ExportRead(e) && ExportRewritable(e)
    ensures s.packageName != ExportName(e)
  {
    hide Find, Trim;
    TrimOfTrimmed(e.anchorPackage);
    TrimOfTrimmed(e.ruleId);
    NameHasParts(e.anchorPackage, EXPORT, e.ruleId);
  }

  lemma SharedIsNotExport(a: ParsedAccessibleSection, e: ParsedExportSection)
    requires SharedRead(a) && Find(SharedName(a), ACCESSIBLE) == |a.anchorPackage| && ExportRewritable(e)
    ensures SharedName(a) != ExportName(e)
  {
    hide Find, Trim;
    TrimOfTrimmed(a.anchorPackage);
    TrimOfTrimmed(a.ruleId);
    NameHasParts(a.anchorPackage, ACCESSIBLE, a.ruleId);
  }

  lemma PackagesAreDistinct(text: string)
    ensures AllDistinct(PackageNames(Parsed(text).sections))
  {
    hide Parsed;
    ParsedTextIsSound(text);
  }

  lemma AcceptedIsComplete(text: string)
    requires Accepted(Parsed(text))
    ensures var parsed := Parsed(text);
      && (forall s :: s in parsed.sections ==> s.enabled ==> s.hasMode)
      && (forall a :: a in parsed.accessibleSections ==> AccessibleComplete(a))
      && (forall e :: e in parsed.exportSections ==> ExportComplete(e))
  {
    hide Fold, Lines, MissingModes, AccessibleErrors, ExportErrors, AccessibleComplete, ExportComplete;
    ValidationIsCompleteness(Fold(START, Lines(text), 1).parsed);
  }

  /** What an accepted text is read as can be written exactly when nothing of that is in the way: everything else that the
    round trip asks for holds of every accepted text. */
  lemma AcceptedCanBeWritten(text: string)
    requires Accepted(Parsed(text))
    ensures CanBeWritten(Parsed(text)) <==> Rewritable(Parsed(text))
  {
    ParsedIsRead(text);
    AcceptedIsComplete(text);
    PackagesAreDistinct(text);
    WritableExactly(Parsed(text));
  }

  lemma WritableExactly(parsed: ParsedRules)
    requires AllRead(parsed) && AllDistinct(PackageNames(parsed.sections))
    requires parsed.sections != [] || parsed.accessibleSections != [] || parsed.exportSections != []
    requires forall s :: s in parsed.sections ==> s.enabled ==> s.hasMode
    requires forall a :: a in parsed.accessibleSections ==> AccessibleComplete(a)
    requires forall e :: e in parsed.exportSections ==> ExportComplete(e)
    ensures CanBeWritten(parsed) <==> Rewritable(parsed)
  {
    hide SectionRead, SharedRead, ExportRead, SectionCanBeWritten, SharedCanBeWritten, ExportCanBeWritten;
    hide SectionRewritable, ExportRewritable, AccessibleComplete, ExportComplete, Find, AllDistinct;
    forall i | 0 <= i < |parsed.sections|
      ensures SectionCanBeWritten(parsed.sections[i]) <==> SectionRewritable(parsed.sections[i])
    {
      SectionExactly(parsed.sections[i]);
    }
    forall i | 0 <= i < |parsed.accessibleSections|
      ensures SharedCanBeWritten(parsed.accessibleSections[i]) <==>
        Find(SharedName(parsed.accessibleSections[i]), ACCESSIBLE) == |parsed.accessibleSections[i].anchorPackage|
    {
      SharedExactly(parsed.accessibleSections[i]);
    }
    forall i | 0 <= i < |parsed.exportSections|
      ensures ExportCanBeWritten(parsed.exportSections[i]) <==> ExportRewritable(parsed.exportSections[i])
    {
      ExportExactly(parsed.exportSections[i]);
    }
    if CanBeWritten(parsed) {
      DistinctParts(PackageNames(parsed.sections), SharedNames(parsed.accessibleSections), ExportNames(parsed.exportSections));
    }
    if Rewritable(parsed) {
      NamesAreDistinct(parsed);
    }
  }

  /** Reading, writing and reading such a text again is reading it, but for the line numbers. */
  lemma AcceptedTextRoundTrip(text: string)
    requires Accepted(Parsed(text)) && Rewritable(Parsed(text))
    ensures SameButLines(Parsed(Render(Parsed(text))), Parsed(text)) && Accepted(Parsed(Render(Parsed(text))))
  {
    hide Parsed, Render, Rewritable, CanBeWritten, Accepted, SameButLines;
    AcceptedCanBeWritten(text);
    RoundTrip(Parsed(text));
  }
}
