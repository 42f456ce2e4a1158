/** Whole rule files: what is written out is read back (native/rule_engine.cpp, lines 997-1309). */
module RuleRoundTrip {
  import opened Options
  import opened Text
  import opened ParsedRules
  import opened LineSyntax
  import opened RuleParser
  import opened ParserProperties
  import opened RuleRenderer

  // ---------------------------------------------------------------------------
  // Fields

  /** A field is left out when it is empty. */
  function Field(key: string, value: string): seq<string> {
    if value == "" then [] else [Assignment(key, value)]
  }

  predicate FieldCanBeWritten(value: string) {
    (value == "" || IsTrimmed(value)) && '\n' !in value
  }

  predicate IsFieldKey(key: string) {
    IsTrimmed(key) && '=' !in key && key[0] != '#' && key[0] != '['
  }

  // ---------------------------------------------------------------------------
  // Shared sections

  function Sharing(before: ParseState, a: ParsedAccessibleSection): (state: ParseState)
    ensures WellPlaced(state)
  {
    before.(active := InAccessible, parsed := before.parsed.(accessibleSections := before.parsed.accessibleSections + [a]))
  }

  lemma SharedFieldLeads(before: ParseState, now: ParsedAccessibleSection, key: string, value: string, number: nat,
                         next: ParsedAccessibleSection)
    requires IsFieldKey(key) && FieldCanBeWritten(value)
    requires if value == "" then next == now else AccessibleField(now, key, value) == Some(next)
    ensures Leads(Sharing(before, now), Field(key, value), number, Sharing(before, next))
  {
    hide GoesOn;
    if value == "" {
      LeadsNowhere(Sharing(before, now), number);
    } else {
      var shared := before.parsed.accessibleSections;
      assert (shared + [now])[..|shared|] == shared;
      SplitOfAssignment(key, value);
      BodyLineLeads(Sharing(before, now), Assignment(key, value), number);
    }
  }

  function SharedName(a: ParsedAccessibleSection): string {
    a.anchorPackage + ACCESSIBLE + a.ruleId
  }

  function SharedLines(a: ParsedAccessibleSection): seq<string> {
    [HeaderText(SharedName(a))] +
    (Field("from", a.fromPackage) + Field("to", a.toPackage) + Field("path", a.path) + Field("description", a.description))
  }

  predicate SharedCanBeWritten(a: ParsedAccessibleSection) {
    && IsTrimmed(a.anchorPackage) && IsTrimmed(a.ruleId) && Find(SharedName(a), ACCESSIBLE) == |a.anchorPackage|
    && '\n' !in a.anchorPackage && '\n' !in a.ruleId
    && FieldCanBeWritten(a.fromPackage) && FieldCanBeWritten(a.toPackage)
    && FieldCanBeWritten(a.path) && FieldCanBeWritten(a.description)
    && AccessibleComplete(a)
  }

  /** A name with its marker, before and after. */
  lemma JoinedNameIsTrimmed(left: string, marker: string, right: string)
    requires IsTrimmed(left) && IsTrimmed(right)
    ensures IsTrimmed(left + marker + right)
  {
  }

  lemma EnterShared(start: ParseState, a: ParsedAccessibleSection, number: nat)
    requires SharedCanBeWritten(a) && SharedName(a) !in start.sectionNames
    ensures Enter(start, SharedName(a), number) ==
      Sharing(start.(sectionNames := start.sectionNames + {SharedName(a)}),
              ParsedAccessibleSection(a.anchorPackage, a.ruleId, "", "", "", "", number))
  {
    TrimOfTrimmed(a.anchorPackage);
    TrimOfTrimmed(a.ruleId);
    NameHasParts(a.anchorPackage, ACCESSIBLE, a.ruleId);
  }

  lemma SharedTextsAreRead()
    ensures IsFieldKey("from") && IsFieldKey("to") && IsFieldKey("path") && IsFieldKey("description")
    ensures forall a, value :: AccessibleField(a, "from", value) == Some(a.(fromPackage := value))
    ensures forall a, value :: AccessibleField(a, "to", value) == Some(a.(toPackage := value))
    ensures forall a, value :: AccessibleField(a, "path", value) == Some(a.(path := value))
    ensures forall a, value :: AccessibleField(a, "description", value) == Some(a.(description := value))
  {
  }

  lemma SharedFieldsLead(before: ParseState, a: ParsedAccessibleSection, start: ParsedAccessibleSection, number: nat)
    requires SharedCanBeWritten(a)
    requires start == a.(fromPackage := "", toPackage := "", path := "", description := "")
    ensures Leads(Sharing(before, start),
                  Field("from", a.fromPackage) + Field("to", a.toPackage) + Field("path", a.path)
                  + Field("description", a.description),
                  number, Sharing(before, a))
  {
    SharedTextsAreRead();
    hide GoesOn, Leads, Field, AccessibleField, IsFieldKey, FieldCanBeWritten, IsTrimmed;
    var one := start.(fromPackage := a.fromPackage);
    var two := one.(toPackage := a.toPackage);
    var three := two.(path := a.path);
    var first, second, third := Field("from", a.fromPackage), Field("to", a.toPackage), Field("path", a.path);
    SharedFieldLeads(before, start, "from", a.fromPackage, number, one);
    SharedFieldLeads(before, one, "to", a.toPackage, number + |first|, two);
    SharedFieldLeads(before, two, "path", a.path, number + |first| + |second|, three);
    SharedFieldLeads(before, three, "description", a.description, number + |first| + |second| + |third|, a);
    FourGroups(Sharing(before, start), first, number, Sharing(before, one), second, Sharing(before, two),
               third, Sharing(before, three), Field("description", a.description), Sharing(before, a));
  }

  lemma SharedLeads(start: ParseState, a: ParsedAccessibleSection, number: nat)
    requires WellPlaced(start) && SharedCanBeWritten(a) && SharedName(a) !in start.sectionNames
    ensures Leads(start, SharedLines(a), number,
                  Sharing(start.(sectionNames := start.sectionNames + {SharedName(a)}), a.(lineNumber := number)))
  {
    hide GoesOn;
    var before, b := start.(sectionNames := start.sectionNames + {SharedName(a)}), a.(lineNumber := number);
    var empty := ParsedAccessibleSection(a.anchorPackage, a.ruleId, "", "", "", "", number);
    JoinedNameIsTrimmed(a.anchorPackage, ACCESSIBLE, a.ruleId);
    HeaderLeads(start, SharedName(a), number);
    EnterShared(start, a, number);
    SharedFieldsLead(before, b, empty, number + 1);
    LeadsOn(start, [HeaderText(SharedName(a))], number, Sharing(before, empty),
            Field("from", a.fromPackage) + Field("to", a.toPackage) + Field("path", a.path) + Field("description", a.description),
            Sharing(before, b));
  }

  // ---------------------------------------------------------------------------
  // Exported sections

  function Exporting(before: ParseState, e: ParsedExportSection): (state: ParseState)
    ensures WellPlaced(state)
  {
    before.(active := InExport, parsed := before.parsed.(exportSections := before.parsed.exportSections + [e]))
  }

  lemma ExportFieldLeads(before: ParseState, now: ParsedExportSection, key: string, value: string, number: nat,
                         next: ParsedExportSection)
    requires IsFieldKey(key) && FieldCanBeWritten(value)
    requires if value == "" then next == now else ExportField(now, key, value) == Some(next)
    ensures Leads(Exporting(before, now), Field(key, value), number, Exporting(before, next))
  {
    hide GoesOn;
    if value == "" {
      LeadsNowhere(Exporting(before, now), number);
    } else {
      var exported := before.parsed.exportSections;
      assert (exported + [now])[..|exported|] == exported;
      SplitOfAssignment(key, value);
      BodyLineLeads(Exporting(before, now), Assignment(key, value), number);
    }
  }

  function ExportName(e: ParsedExportSection): string {
    e.anchorPackage + EXPORT + e.ruleId
  }

  function ExportTexts(e: ParsedExportSection): seq<string> {
    Field("source", e.sourcePath) + Field("target", e.targetPath) + Field("title", e.title) + Field("description", e.description)
  }

  function ExportFlags(e: ParsedExportSection): seq<string> {
    Field("media_scan", BoolText(e.mediaScan)) + Field("add_to_downloads", BoolText(e.addToDownloads))
    + Field("allow_child", BoolText(e.allowChild)) + []
  }

  function ExportLines(e: ParsedExportSection): seq<string> {
    [HeaderText(ExportName(e))] + (ExportTexts(e) + ExportFlags(e))
  }

  predicate ExportCanBeWritten(e: ParsedExportSection) {
    && IsTrimmed(e.anchorPackage) && IsTrimmed(e.ruleId) && Find(ExportName(e), EXPORT) == |e.anchorPackage|
    && SubSectionName(ExportName(e), ACCESSIBLE).None?
    && '\n' !in e.anchorPackage && '\n' !in e.ruleId
    && FieldCanBeWritten(e.sourcePath) && FieldCanBeWritten(e.targetPath)
    && FieldCanBeWritten(e.title) && FieldCanBeWritten(e.description)
    && ExportComplete(e)
  }

  lemma EnterExport(start: ParseState, e: ParsedExportSection, number: nat)
    requires ExportCanBeWritten(e) && ExportName(e) !in start.sectionNames
    ensures Enter(start, ExportName(e), number) ==
      Exporting(start.(sectionNames := start.sectionNames + {ExportName(e)}),
                ParsedExportSection(e.anchorPackage, e.ruleId, "", "", "", false, false, false, "", number))
  {
    TrimOfTrimmed(e.anchorPackage);
    TrimOfTrimmed(e.ruleId);
    NameHasParts(e.anchorPackage, EXPORT, e.ruleId);
  }

  lemma ExportTextsAreRead()
    ensures IsFieldKey("source") && IsFieldKey("target") && IsFieldKey("title") && IsFieldKey("description")
    ensures forall e, value :: ExportField(e, "source", value) == Some(e.(sourcePath := value))
    ensures forall e, value :: ExportField(e, "target", value) == Some(e.(targetPath := value))
    ensures forall e, value :: ExportField(e, "title", value) == Some(e.(title := value))
    ensures forall e, value :: ExportField(e, "description", value) == Some(e.(description := value))
  {
  }

  lemma ExportTextsLead(before: ParseState, e: ParsedExportSection, start: ParsedExportSection, number: nat)
    requires ExportCanBeWritten(e)
    requires start.sourcePath == start.targetPath == start.title == start.description == ""
    ensures Leads(Exporting(before, start), ExportTexts(e), number,
                  Exporting(before, start.(sourcePath := e.sourcePath, targetPath := e.targetPath, title := e.title,
                                           description := e.description)))
  {
    ExportTextsAreRead();
    hide GoesOn, Leads, Field, ExportField, IsFieldKey, FieldCanBeWritten, IsTrimmed;
    var one := start.(sourcePath := e.sourcePath);
    var two := one.(targetPath := e.targetPath);
    var three := two.(title := e.title);
    var four := three.(description := e.description);
    var first, second, third := Field("source", e.sourcePath), Field("target", e.targetPath), Field("title", e.title);
    ExportFieldLeads(before, start, "source", e.sourcePath, number, one);
    ExportFieldLeads(before, one, "target", e.targetPath, number + |first|, two);
    ExportFieldLeads(before, two, "title", e.title, number + |first| + |second|, three);
    ExportFieldLeads(before, three, "description", e.description, number + |first| + |second| + |third|, four);
    FourGroups(Exporting(before, start), first, number, Exporting(before, one), second, Exporting(before, two),
               third, Exporting(before, three), Field("description", e.description), Exporting(before, four));
  }

  lemma FlagsAreRead(start: ParsedExportSection, e: ParsedExportSection)
    ensures ExportField(start, "media_scan", BoolText(e.mediaScan)) == Some(start.(mediaScan := e.mediaScan))
    ensures var one := start.(mediaScan := e.mediaScan);
            var two := one.(addToDownloads := e.addToDownloads);
      && ExportField(one, "add_to_downloads", BoolText(e.addToDownloads)) == Some(two)
      && ExportField(two, "allow_child", BoolText(e.allowChild)) == Some(two.(allowChild := e.allowChild))
    ensures forall b :: BoolText(b) != "" && FieldCanBeWritten(BoolText(b))
  {
  }

  lemma ExportFlagsLead(before: ParseState, e: ParsedExportSection, start: ParsedExportSection, number: nat)
    ensures Leads(Exporting(before, start), ExportFlags(e), number,
                  Exporting(before, start.(mediaScan := e.mediaScan, addToDownloads := e.addToDownloads,
                                           allowChild := e.allowChild)))
  {
    hide GoesOn;
    var one := start.(mediaScan := e.mediaScan);
    var two := one.(addToDownloads := e.addToDownloads);
    var three := two.(allowChild := e.allowChild);
    FlagsAreRead(start, e);
    hide Leads, Field, ExportField, BoolText;
    var first, second, third := Field("media_scan", BoolText(e.mediaScan)),
      Field("add_to_downloads", BoolText(e.addToDownloads)), Field("allow_child", BoolText(e.allowChild));
    ExportFieldLeads(before, start, "media_scan", BoolText(e.mediaScan), number, one);
    ExportFieldLeads(before, one, "add_to_downloads", BoolText(e.addToDownloads), number + |first|, two);
    ExportFieldLeads(before, two, "allow_child", BoolText(e.allowChild), number + |first| + |second|, three);
    LeadsNowhere(Exporting(before, three), number + |first| + |second| + |third|);
    FourGroups(Exporting(before, start), first, number, Exporting(before, one), second, Exporting(before, two),
               third, Exporting(before, three), [], Exporting(before, three));
  }

  lemma ExportNameIsTrimmed(e: ParsedExportSection)
    requires ExportCanBeWritten(e)
    ensures IsTrimmed(ExportName(e))
  {
    JoinedNameIsTrimmed(e.anchorPackage, EXPORT, e.ruleId);
  }

  lemma ExportLeads(start: ParseState, e: ParsedExportSection, number: nat)
    requires WellPlaced(start) && ExportCanBeWritten(e) && ExportName(e) !in start.sectionNames
    ensures Leads(start, ExportLines(e), number,
                  Exporting(start.(sectionNames := start.sectionNames + {ExportName(e)}), e.(lineNumber := number)))
  {
    hide GoesOn, Leads, Enter, WellPlaced, HeaderText, ExportTexts, ExportFlags, IsTrimmed;
    var before, end := start.(sectionNames := start.sectionNames + {ExportName(e)}), e.(lineNumber := number);
    var empty := ParsedExportSection(e.anchorPackage, e.ruleId, "", "", "", false, false, false, "", number);
    var half := empty.(sourcePath := e.sourcePath, targetPath := e.targetPath, title := e.title, description := e.description);
    ExportNameIsTrimmed(e);
    hide ExportCanBeWritten;
    HeaderLeads(start, ExportName(e), number);
    EnterExport(start, e, number);
    ExportTextsLead(before, e, empty, number + 1);
    ExportFlagsLead(before, e, half, number + 1 + |ExportTexts(e)|);
    LeadsOn(Exporting(before, empty), ExportTexts(e), number + 1, Exporting(before, half), ExportFlags(e), Exporting(before, end));
    LeadsOn(start, [HeaderText(ExportName(e))], number, Exporting(before, empty), ExportTexts(e) + ExportFlags(e),
            Exporting(before, end));
  }

  // ---------------------------------------------------------------------------
  // Lists of sections

  function PackageLines(sections: seq<ParsedSection>): seq<string> {
    if sections == [] then [] else SectionLines(sections[0]) + PackageLines(sections[1..])
  }

  function NumberedSections(sections: seq<ParsedSection>, number: nat): seq<ParsedSection> {
    if sections == [] then []
    else [NumberedSection(sections[0], number)] + NumberedSections(sections[1..], number + |SectionLines(sections[0])|)
  }

  function AllSharedLines(shared: seq<ParsedAccessibleSection>): seq<string> {
    if shared == [] then [] else SharedLines(shared[0]) + AllSharedLines(shared[1..])
  }

  function NumberedShared(shared: seq<ParsedAccessibleSection>, number: nat): seq<ParsedAccessibleSection> {
    if shared == [] then []
    else [shared[0].(lineNumber := number)] + NumberedShared(shared[1..], number + |SharedLines(shared[0])|)
  }

  function AllExportLines(exported: seq<ParsedExportSection>): seq<string> {
    if exported == [] then [] else ExportLines(exported[0]) + AllExportLines(exported[1..])
  }

  function NumberedExports(exported: seq<ParsedExportSection>, number: nat): seq<ParsedExportSection> {
    if exported == [] then []
    else [exported[0].(lineNumber := number)] + NumberedExports(exported[1..], number + |ExportLines(exported[0])|)
  }

  function PackageNames(sections: seq<ParsedSection>): seq<string> {
    seq(|sections|, i requires 0 <= i < |sections| => sections[i].packageName)
  }

  function SharedNames(shared: seq<ParsedAccessibleSection>): seq<string> {
    seq(|shared|, i requires 0 <= i < |shared| => SharedName(shared[i]))
  }

  function ExportNames(exported: seq<ParsedExportSection>): seq<string> {
    seq(|exported|, i requires 0 <= i < |exported| => ExportName(exported[i]))
  }

  predicate AllDistinct(names: seq<string>) {
    forall i, j :: 0 <= i < j < |names| ==> names[i] != names[j]
  }

  /** The state has parsed these sections, and has seen no name but the given ones. */
  ghost predicate Holding(state: ParseState, sections: seq<ParsedSection>, shared: seq<ParsedAccessibleSection>,
                          exported: seq<ParsedExportSection>, names: seq<string>) {
    && WellPlaced(state)
    && state.parsed == ParsedRules(sections, shared, exported, [])
    && (forall n :: n in state.sectionNames || n in state.packages ==> n in names)
  }

  lemma FirstNameIsNew(seen: seq<string>, names: seq<string>)
    requires AllDistinct(seen + names) && names != []
    ensures names[0] !in seen
    ensures AllDistinct((seen + [names[0]]) + names[1..])
  {
    var all := seen + names;
    assert all[|seen|] == names[0];
    assert forall i :: 0 <= i < |seen| ==> all[i] == seen[i];
    assert (seen + [names[0]]) + names[1..] == all;
  }

  lemma NewToState(state: ParseState, sections: seq<ParsedSection>, shared: seq<ParsedAccessibleSection>,
                   exported: seq<ParsedExportSection>, names: seq<string>)
    requires Holding(state, sections, shared, exported, names)
    ensures WellPlaced(state)
    ensures forall n :: n !in names ==> n !in state.sectionNames && n !in state.packages
  {
  }

  lemma PackageHeld(start: ParseState, done: seq<ParsedSection>, name: string, s: ParsedSection, seen: seq<string>)
    requires Holding(start, done, [], [], seen)
    ensures Holding(Within(Named(start, name), s), done + [s], [], [], seen + [name])
  {
  }

  lemma SharedHeld(start: ParseState, sections: seq<ParsedSection>, done: seq<ParsedAccessibleSection>, name: string,
                   a: ParsedAccessibleSection, seen: seq<string>)
    requires Holding(start, sections, done, [], seen)
    ensures Holding(Sharing(start.(sectionNames := start.sectionNames + {name}), a), sections, done + [a], [], seen + [name])
  {
  }

  lemma ExportHeld(start: ParseState, sections: seq<ParsedSection>, shared: seq<ParsedAccessibleSection>,
                   done: seq<ParsedExportSection>, name: string, e: ParsedExportSection, seen: seq<string>)
    requires Holding(start, sections, shared, done, seen)
    ensures Holding(Exporting(start.(sectionNames := start.sectionNames + {name}), e), sections, shared, done + [e], seen + [name])
  {
  }

  lemma {:induction false} PackagesLead(start: ParseState, done: seq<ParsedSection>, sections: seq<ParsedSection>,
                                        seen: seq<string>, number: nat) returns (end: ParseState)
    requires Holding(start, done, [], [], seen)
    requires forall i :: 0 <= i < |sections| ==> SectionCanBeWritten(sections[i])
    requires AllDistinct(seen + PackageNames(sections))
    ensures Leads(start, PackageLines(sections), number, end)
    ensures Holding(end, done + NumberedSections(sections, number), [], [], seen + PackageNames(sections))
    decreases |sections|
  {
    hide GoesOn, SectionLines, SectionCanBeWritten, NumberedSection, Holding, WellPlaced, AllDistinct;
    NewToState(start, done, [], [], seen);
    if sections == [] {
      end := start;
      assert done + NumberedSections(sections, number) == done && seen + PackageNames(sections) == seen;
      LeadsNowhere(start, number);
    } else {
      var s, rest, names := sections[0], sections[1..], PackageNames(sections);
      var numbered, width := NumberedSection(s, number), |SectionLines(s)|;
      var next := Within(Named(start, s.packageName), numbered);
      PackageHeld(start, done, s.packageName, numbered, seen);
      assert names[1..] == PackageNames(rest);
      FirstNameIsNew(seen, names);
      SectionLeads(start, s, number);
      end := PackagesLead(next, done + [numbered], rest, seen + [s.packageName], number + width);
      LeadsOn(start, SectionLines(s), number, next, PackageLines(rest), end);
      assert done + NumberedSections(sections, number) == (done + [numbered]) + NumberedSections(rest, number + width);
      assert seen + names == (seen + [s.packageName]) + PackageNames(rest);
    }
  }

  lemma {:induction false} AllSharedLead(start: ParseState, sections: seq<ParsedSection>, done: seq<ParsedAccessibleSection>,
                                         shared: seq<ParsedAccessibleSection>, seen: seq<string>, number: nat)
    returns (end: ParseState)
    requires Holding(start, sections, done, [], seen)
    requires forall i :: 0 <= i < |shared| ==> SharedCanBeWritten(shared[i])
    requires AllDistinct(seen + SharedNames(shared))
    ensures Leads(start, AllSharedLines(shared), number, end)
    ensures Holding(end, sections, done + NumberedShared(shared, number), [], seen + SharedNames(shared))
    decreases |shared|
  {
    hide GoesOn, SharedLines, SharedCanBeWritten, SharedName, Holding, WellPlaced, AllDistinct;
    NewToState(start, sections, done, [], seen);
    if shared == [] {
      end := start;
      assert done + NumberedShared(shared, number) == done && seen + SharedNames(shared) == seen;
      LeadsNowhere(start, number);
    } else {
      var a, rest, names := shared[0], shared[1..], SharedNames(shared);
      var numbered, width, name := a.(lineNumber := number), |SharedLines(a)|, SharedName(a);
      var next := Sharing(start.(sectionNames := start.sectionNames + {name}), numbered);
      SharedHeld(start, sections, done, name, numbered, seen);
      assert names[1..] == SharedNames(rest);
      FirstNameIsNew(seen, names);
      SharedLeads(start, a, number);
      end := AllSharedLead(next, sections, done + [numbered], rest, seen + [name], number + width);
      LeadsOn(start, SharedLines(a), number, next, AllSharedLines(rest), end);
      assert done + NumberedShared(shared, number) == (done + [numbered]) + NumberedShared(rest, number + width);
      assert seen + names == (seen + [name]) + SharedNames(rest);
    }
  }

  lemma {:induction false} AllExportsLead(start: ParseState, sections: seq<ParsedSection>, shared: seq<ParsedAccessibleSection>,
                                          done: seq<ParsedExportSection>, exported: seq<ParsedExportSection>,
                                          seen: seq<string>, number: nat)
    returns (end: ParseState)
    requires Holding(start, sections, shared, done, seen)
    requires forall i :: 0 <= i < |exported| ==> ExportCanBeWritten(exported[i])
    requires AllDistinct(seen + ExportNames(exported))
    ensures Leads(start, AllExportLines(exported), number, end)
    ensures Holding(end, sections, shared, done + NumberedExports(exported, number), seen + ExportNames(exported))
    decreases |exported|
  {
    hide GoesOn, ExportLines, ExportCanBeWritten, ExportName, Holding, WellPlaced, AllDistinct;
    NewToState(start, sections, shared, done, seen);
    if exported == [] {
      end := start;
      assert done + NumberedExports(exported, number) == done && seen + ExportNames(exported) == seen;
      LeadsNowhere(start, number);
    } else {
      var e, rest, names := exported[0], exported[1..], ExportNames(exported);
      var numbered, width, name := e.(lineNumber := number), |ExportLines(e)|, ExportName(e);
      var next := Exporting(start.(sectionNames := start.sectionNames + {name}), numbered);
      ExportHeld(start, sections, shared, done, name, numbered, seen);
      assert names[1..] == ExportNames(rest);
      FirstNameIsNew(seen, names);
      ExportLeads(start, e, number);
      end := AllExportsLead(next, sections, shared, done + [numbered], rest, seen + [name], number + width);
      LeadsOn(start, ExportLines(e), number, next, AllExportLines(rest), end);
      assert done + NumberedExports(exported, number) == (done + [numbered]) + NumberedExports(rest, number + width);
      assert seen + names == (seen + [name]) + ExportNames(rest);
    }
  }

  // ---------------------------------------------------------------------------
  // Texts

  predicate OneLine(line: string) {
    '\n' !in line
  }

  predicate AllOneLine(lines: seq<string>) {
    forall i :: 0 <= i < |lines| ==> OneLine(lines[i])
  }

  function Unlines(lines: seq<string>): string
    requires lines != []
  {
    if |lines| == 1 then lines[0] else lines[0] + ("\n" + Unlines(lines[1..]))
  }

  lemma {:induction false} LinesOfUnlines(lines: seq<string>)
    requires lines != [] && AllOneLine(lines)
    ensures Lines(Unlines(lines)) == lines
  {
    assert OneLine(lines[0]);
    if |lines| > 1 {
      LinesOfUnlines(lines[1..]);
      FirstLine(lines[0], Unlines(lines[1..]));
      assert lines == [lines[0]] + lines[1..];
    } else {
      assert lines == [lines[0]];
    }
  }

  lemma FirstLine(line: string, rest: string)
    requires OneLine(line)
    ensures Lines(line + ("\n" + rest)) == [line] + Lines(rest)
  {
    hide Lines, FirstIndex;
    var text := line + ("\n" + rest);
    assert forall j :: 0 <= j < |line| ==> text[j] == line[j];
    assert text[|line|] == '\n';
    assert text[..|line|] == line && text[|line| + 1..] == rest;
    LinesAt(text, |line|);
  }

  lemma LinesAt(text: string, end: nat)
    requires FirstIndex(text, '\n') == end
    ensures Lines(text) == [text[..end]] + Lines(text[end + 1..])
  {
  }

  lemma OneLineAssignment(key: string, value: string)
    requires OneLine(key) && OneLine(value)
    ensures OneLine(Assignment(key, value))
  {
  }

  lemma OptionsAreOneLine(s: ParsedSection)
    requires OneLine(s.trashDir)
    ensures AllOneLine(OptionLines(s))
  {
    hide ModeLines, DeleteLines, SwitchLines, DirLines;
    FirstOptionsAreOneLine(s);
    SwitchesAreOneLine(s);
    DirIsOneLine(s);
    OneLines(ModeLines(s), DeleteLines(s));
    OneLines(ModeLines(s) + DeleteLines(s), SwitchLines(s));
    OneLines(ModeLines(s) + DeleteLines(s) + SwitchLines(s), DirLines(s));
  }

  lemma FirstOptionsAreOneLine(s: ParsedSection)
    ensures AllOneLine(ModeLines(s)) && AllOneLine(DeleteLines(s))
  {
    hide Assignment;
    OneLineAssignment("enabled", BoolText(s.enabled));
    OneLineAssignment("mode", ModeText(s.mode));
    OneLineAssignment("delete_existing", BoolText(s.deleteExisting));
    OneLineAssignment("delete_dirs", DeleteDirText(s.deleteDirMode));
    OneLineAssignment("media_query", MediaQueryText(s.mediaQuery));
  }

  lemma SwitchesAreOneLine(s: ParsedSection)
    ensures AllOneLine(SwitchLines(s))
  {
    hide Assignment, Digits;
    OneLineAssignment("trash", BoolText(s.trashEnabled));
    OneLineAssignment("trash_redirect", BoolText(s.trashOnRedirect));
    OneLineAssignment("min_age_days", Digits(Natural(s.minAgeDays)));
    OneLineAssignment("min_size_mb", Digits(s.minSizeMb));
  }

  lemma DirIsOneLine(s: ParsedSection)
    requires OneLine(s.trashDir)
    ensures AllOneLine(DirLines(s))
  {
    hide Assignment;
    OneLineAssignment("trash_dir", s.trashDir);
  }

  lemma SectionIsOneLine(s: ParsedSection)
    requires SectionCanBeWritten(s)
    ensures AllOneLine(SectionLines(s))
  {
    hide OptionLines, RuleText, RuleIsPlain, OptionsCanBeWritten;
    OptionsAreOneLine(s);
    assert forall i :: 0 <= i < |s.rules| ==> RuleCanBeWritten(s.rules[i]) && RuleTexts(s.rules)[i] == RuleText(s.rules[i]);
  }

  lemma {:induction false} PackagesAreOneLine(sections: seq<ParsedSection>)
    requires forall i :: 0 <= i < |sections| ==> SectionCanBeWritten(sections[i])
    ensures AllOneLine(PackageLines(sections))
  {
    if sections != [] {
      SectionIsOneLine(sections[0]);
      PackagesAreOneLine(sections[1..]);
    }
  }

  lemma FieldIsOneLine(key: string, value: string)
    requires OneLine(key) && OneLine(value)
    ensures AllOneLine(Field(key, value))
  {
  }

  lemma OneLines(first: seq<string>, second: seq<string>)
    requires AllOneLine(first) && AllOneLine(second)
    ensures AllOneLine(first + second)
  {
  }

  lemma NameIsOneLine(anchor: string, marker: string, id: string)
    requires OneLine(anchor) && OneLine(marker) && OneLine(id)
    ensures OneLine(anchor + marker + id)
  {
  }

  lemma HeaderIsOneLine(name: string)
    requires OneLine(name)
    ensures AllOneLine([HeaderText(name)])
  {
  }

  lemma SharedIsOneLine(a: ParsedAccessibleSection)
    requires SharedCanBeWritten(a)
    ensures AllOneLine(SharedLines(a))
  {
    FieldIsOneLine("from", a.fromPackage);
    FieldIsOneLine("to", a.toPackage);
    FieldIsOneLine("path", a.path);
    FieldIsOneLine("description", a.description);
  }

  lemma ExportTextsAreOneLine(e: ParsedExportSection)
    requires ExportCanBeWritten(e)
    ensures AllOneLine(ExportTexts(e))
  {
    FieldIsOneLine("source", e.sourcePath);
    FieldIsOneLine("target", e.targetPath);
    FieldIsOneLine("title", e.title);
    FieldIsOneLine("description", e.description);
  }

  lemma ExportIsOneLine(e: ParsedExportSection)
    requires ExportCanBeWritten(e)
    ensures AllOneLine(ExportLines(e))
  {
    hide Field, ExportTexts, AllOneLine, OneLine, HeaderText;
    ExportHeaderIsOneLine(e);
    ExportTextsAreOneLine(e);
    ExportFlagsAreOneLine(e);
    OneLines(ExportTexts(e), ExportFlags(e));
    OneLines([HeaderText(ExportName(e))], ExportTexts(e) + ExportFlags(e));
  }

  lemma ExportHeaderIsOneLine(e: ParsedExportSection)
    requires ExportCanBeWritten(e)
    ensures AllOneLine([HeaderText(ExportName(e))])
  {
    NameIsOneLine(e.anchorPackage, EXPORT, e.ruleId);
    HeaderIsOneLine(ExportName(e));
  }

  lemma ExportFlagsAreOneLine(e: ParsedExportSection)
    ensures AllOneLine(ExportFlags(e))
  {
    hide Field;
    FieldIsOneLine("media_scan", BoolText(e.mediaScan));
    FieldIsOneLine("add_to_downloads", BoolText(e.addToDownloads));
    FieldIsOneLine("allow_child", BoolText(e.allowChild));
  }

  lemma {:induction false} SharedAreOneLine(shared: seq<ParsedAccessibleSection>)
    requires forall i :: 0 <= i < |shared| ==> SharedCanBeWritten(shared[i])
    ensures AllOneLine(AllSharedLines(shared))
  {
    if shared != [] {
      SharedIsOneLine(shared[0]);
      SharedAreOneLine(shared[1..]);
      OneLines(SharedLines(shared[0]), AllSharedLines(shared[1..]));
    }
  }

  lemma {:induction false} ExportsAreOneLine(exported: seq<ParsedExportSection>)
    requires forall i :: 0 <= i < |exported| ==> ExportCanBeWritten(exported[i])
    ensures AllOneLine(AllExportLines(exported))
  {
    if exported != [] {
      ExportIsOneLine(exported[0]);
      ExportsAreOneLine(exported[1..]);
      OneLines(ExportLines(exported[0]), AllExportLines(exported[1..]));
    }
  }

  // ---------------------------------------------------------------------------
  // The round trip

  function AllLines(parsed: ParsedRules): seq<string> {
    PackageLines(parsed.sections) + AllSharedLines(parsed.accessibleSections) + AllExportLines(parsed.exportSections)
  }

  /** The same rules, each rule, shared and exported section under the number of the line it is written on. */
  function Numbered(parsed: ParsedRules): ParsedRules {
    var packages := |PackageLines(parsed.sections)|;
    ParsedRules(NumberedSections(parsed.sections, 1),
                NumberedShared(parsed.accessibleSections, 1 + packages),
                NumberedExports(parsed.exportSections, 1 + packages + |AllSharedLines(parsed.accessibleSections)|),
                [])
  }

  predicate CanBeWritten(parsed: ParsedRules) {
    && (parsed.sections != [] || parsed.accessibleSections != [] || parsed.exportSections != [])
    && (forall i :: 0 <= i < |parsed.sections| ==>
          SectionCanBeWritten(parsed.sections[i]) && (parsed.sections[i].enabled ==> parsed.sections[i].hasMode))
    && (forall i :: 0 <= i < |parsed.accessibleSections| ==> SharedCanBeWritten(parsed.accessibleSections[i]))
    && (forall i :: 0 <= i < |parsed.exportSections| ==> ExportCanBeWritten(parsed.exportSections[i]))
    && AllDistinct(PackageNames(parsed.sections) + SharedNames(parsed.accessibleSections) + ExportNames(parsed.exportSections))
  }

  function Render(parsed: ParsedRules): string {
    if AllLines(parsed) == [] then "" else Unlines(AllLines(parsed))
  }

  lemma SomeLines(parsed: ParsedRules)
    requires CanBeWritten(parsed)
    ensures AllLines(parsed) != [] && AllOneLine(AllLines(parsed))
  {
    PackagesAreOneLine(parsed.sections);
    SharedAreOneLine(parsed.accessibleSections);
    ExportsAreOneLine(parsed.exportSections);
    OneLines(PackageLines(parsed.sections), AllSharedLines(parsed.accessibleSections));
    OneLines(PackageLines(parsed.sections) + AllSharedLines(parsed.accessibleSections), AllExportLines(parsed.exportSections));
    if parsed.sections != [] {
      assert SectionLines(parsed.sections[0]) != [];
    } else if parsed.accessibleSections != [] {
      assert SharedLines(parsed.accessibleSections[0]) != [];
    } else {
      assert ExportLines(parsed.exportSections[0]) != [];
    }
  }

  lemma AllLinesLead(parsed: ParsedRules)
    requires CanBeWritten(parsed)
    ensures Fold(START, AllLines(parsed), 1).parsed == Numbered(parsed)
  {
    hide GoesOn, Fold, PackageLines, AllSharedLines, AllExportLines, NumberedSections, NumberedShared, NumberedExports;
    hide SectionCanBeWritten, SharedCanBeWritten, ExportCanBeWritten;
    var sections, shared, exported := parsed.sections, parsed.accessibleSections, parsed.exportSections;
    var one, two, three := PackageLines(sections), AllSharedLines(shared), AllExportLines(exported);
    var names := PackageNames(sections) + SharedNames(shared) + ExportNames(exported);
    assert [] + PackageNames(sections) == names[..|sections|];
    var first := PackagesLead(START, [], sections, [], 1);
    assert [] + PackageNames(sections) + SharedNames(shared) == names[..|sections| + |shared|];
    var second := AllSharedLead(first, NumberedSections(sections, 1), [], shared, PackageNames(sections), 1 + |one|);
    var third := AllExportsLead(second, NumberedSections(sections, 1), NumberedShared(shared, 1 + |one|), [], exported,
                                PackageNames(sections) + SharedNames(shared), 1 + |one| + |two|);
    LeadsOn(START, one, 1, first, two, second);
    LeadsOn(START, one + two, 1, second, three, third);
    EndOfLeads(START, AllLines(parsed), 1, third);
  }

  lemma {:induction false} NumberedModes(sections: seq<ParsedSection>, number: nat)
    requires forall i :: 0 <= i < |sections| ==> sections[i].enabled ==> sections[i].hasMode
    ensures MissingModes(NumberedSections(sections, number)) == []
  {
    if sections != [] {
      NumberedModes(sections[1..], number + |SectionLines(sections[0])|);
    }
  }

  lemma {:induction false} NumberedSharedComplete(shared: seq<ParsedAccessibleSection>, number: nat)
    requires forall i :: 0 <= i < |shared| ==> AccessibleComplete(shared[i])
    ensures AccessibleErrors(NumberedShared(shared, number)) == []
  {
    if shared != [] {
      NumberedSharedComplete(shared[1..], number + |SharedLines(shared[0])|);
    }
  }

  lemma {:induction false} NumberedExportsComplete(exported: seq<ParsedExportSection>, number: nat)
    requires forall i :: 0 <= i < |exported| ==> ExportComplete(exported[i])
    ensures ExportErrors(NumberedExports(exported, number)) == []
  {
    if exported != [] {
      NumberedExportsComplete(exported[1..], number + |ExportLines(exported[0])|);
    }
  }

  lemma WrittenIsComplete(parsed: ParsedRules)
    requires CanBeWritten(parsed)
    ensures forall i :: 0 <= i < |parsed.accessibleSections| ==> AccessibleComplete(parsed.accessibleSections[i])
    ensures forall i :: 0 <= i < |parsed.exportSections| ==> ExportComplete(parsed.exportSections[i])
  {
    hide SectionCanBeWritten;
  }

  lemma NumberedIsNotEmpty(parsed: ParsedRules)
    requires parsed.sections != [] || parsed.accessibleSections != [] || parsed.exportSections != []
    ensures Accepted(Numbered(parsed))
  {
    hide SectionLines, SharedLines, ExportLines, PackageLines, AllSharedLines, AllExportLines;
  }

  lemma NumberedIsComplete(parsed: ParsedRules)
    requires CanBeWritten(parsed)
    ensures Validated(Numbered(parsed)) == Numbered(parsed) && Accepted(Numbered(parsed))
  {
    hide PackageLines, AllSharedLines, AllExportLines, NumberedSections, NumberedShared, NumberedExports;
    hide SectionCanBeWritten, SharedCanBeWritten, ExportCanBeWritten, MissingModes, AccessibleErrors, ExportErrors;
    WrittenIsComplete(parsed);
    NumberedIsNotEmpty(parsed);
    var packages := |PackageLines(parsed.sections)|;
    NumberedModes(parsed.sections, 1);
    NumberedSharedComplete(parsed.accessibleSections, 1 + packages);
    NumberedExportsComplete(parsed.exportSections, 1 + packages + |AllSharedLines(parsed.accessibleSections)|);
  }

  predicate SameRule(a: ParsedRuleLine, b: ParsedRuleLine) {
    a == b.(lineNumber := a.lineNumber)
  }

  predicate SameSection(a: ParsedSection, b: ParsedSection) {
    && a == b.(rules := a.rules)
    && |a.rules| == |b.rules| && forall i :: 0 <= i < |a.rules| ==> SameRule(a.rules[i], b.rules[i])
  }

  /** Nothing differs but line numbers. */
  ghost predicate SameButLines(a: ParsedRules, b: ParsedRules) {
    && |a.sections| == |b.sections|
    && (forall i :: 0 <= i < |a.sections| ==> SameSection(a.sections[i], b.sections[i]))
    && |a.accessibleSections| == |b.accessibleSections|
    && (forall i :: 0 <= i < |a.accessibleSections| ==>
          a.accessibleSections[i] == b.accessibleSections[i].(lineNumber := a.accessibleSections[i].lineNumber))
    && |a.exportSections| == |b.exportSections|
    && (forall i :: 0 <= i < |a.exportSections| ==>
          a.exportSections[i] == b.exportSections[i].(lineNumber := a.exportSections[i].lineNumber))
  }

  lemma NumberingKeepsSection(s: ParsedSection, number: nat)
    ensures SameSection(NumberedSection(s, number), s)
  {
    hide OptionLines;
  }

  lemma {:induction false} NumberingKeepsSections(sections: seq<ParsedSection>, number: nat)
    ensures |NumberedSections(sections, number)| == |sections|
    ensures forall i :: 0 <= i < |sections| ==> SameSection(NumberedSections(sections, number)[i], sections[i])
  {
    hide SectionLines, SameSection, NumberedSection;
    if sections != [] {
      NumberingKeepsSection(sections[0], number);
      NumberingKeepsSections(sections[1..], number + |SectionLines(sections[0])|);
    }
  }

  lemma {:induction false} NumberingKeepsShared(shared: seq<ParsedAccessibleSection>, number: nat)
    ensures |NumberedShared(shared, number)| == |shared|
    ensures forall i :: 0 <= i < |shared| ==>
      NumberedShared(shared, number)[i] == shared[i].(lineNumber := NumberedShared(shared, number)[i].lineNumber)
  {
    hide SharedLines;
    if shared != [] {
      NumberingKeepsShared(shared[1..], number + |SharedLines(shared[0])|);
    }
  }

  lemma {:induction false} NumberingKeepsExports(exported: seq<ParsedExportSection>, number: nat)
    ensures |NumberedExports(exported, number)| == |exported|
    ensures forall i :: 0 <= i < |exported| ==>
      NumberedExports(exported, number)[i] == exported[i].(lineNumber := NumberedExports(exported, number)[i].lineNumber)
  {
    hide ExportLines;
    if exported != [] {
      NumberingKeepsExports(exported[1..], number + |ExportLines(exported[0])|);
    }
  }

  lemma NumberingKeeps(parsed: ParsedRules)
    ensures SameButLines(Numbered(parsed), parsed)
  {
    hide PackageLines, AllSharedLines, AllExportLines, NumberedSections, NumberedShared, NumberedExports, SameSection;
    var packages := |PackageLines(parsed.sections)|;
    NumberingKeepsSections(parsed.sections, 1);
    NumberingKeepsShared(parsed.accessibleSections, 1 + packages);
    NumberingKeepsExports(parsed.exportSections, 1 + packages + |AllSharedLines(parsed.accessibleSections)|);
  }

  /** Rules that can be written are accepted and read back as they were; only the line numbers are those of the text. */
  lemma RoundTrip(parsed: ParsedRules)
    requires CanBeWritten(parsed)
    ensures Parsed(Render(parsed)) == Numbered(parsed)
    ensures SameButLines(Parsed(Render(parsed)), parsed)
    ensures Accepted(Parsed(Render(parsed)))
  {
    hide Fold, Lines, Validated, Numbered, CanBeWritten, AllLines, Accepted, SameButLines;
    SomeLines(parsed);
    LinesOfUnlines(AllLines(parsed));
    AllLinesLead(parsed);
    NumberedIsComplete(parsed);
    NumberingKeeps(parsed);
  }
}
