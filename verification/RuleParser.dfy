/** The rule file parser (native/rule_engine.cpp, lines 750-972 and 997-1309). Error texts are reduced to their line
  numbers. */
module RuleParser {
  import opened Options
  import opened Text
  import opened Rules
  import opened ParsedRules
  import opened RuleCompiler
  import opened LineSyntax
  import opened PolicyProperties

  datatype Active = Nowhere | InPolicy | InAccessible | InExport

  datatype ParseState = ParseState(
    active: Active,
    sectionNames: set<string>,
    packages: set<string>,
    parsed: ParsedRules
  )

  const START := ParseState(Nowhere, {}, {}, ParsedRules([], [], [], []))

  function NewSection(package: string): ParsedSection {
    ParsedSection(package, true, false, Blacklist, false, KeepDirs, AutoQuery, false, false, "", 0, 0, [])
  }

  /** The section being filled is the last of its kind. */
  predicate WellPlaced(state: ParseState) {
    && (state.active.InPolicy? ==> state.parsed.sections != [])
    && (state.active.InAccessible? ==> state.parsed.accessibleSections != [])
    && (state.active.InExport? ==> state.parsed.exportSections != [])
  }

  function Last<T>(items: seq<T>): T
    requires items != []
  {
    items[|items| - 1]
  }

  function WithLast<T>(items: seq<T>, last: T): seq<T>
    requires items != []
  {
    items[..|items| - 1] + [last]
  }

  function Failed(state: ParseState, number: nat): ParseState {
    state.(parsed := state.parsed.(errors := state.parsed.errors + [number]))
  }

  // ---------------------------------------------------------------------------
  // Section headers

  predicate IsHeader(line: string) {
    |line| >= 2 && line[0] == '[' && line[|line| - 1] == ']'
  }

  const ACCESSIBLE := ".accessible."
  const EXPORT := ".export."

  function Enter(state: ParseState, name: string, number: nat): (next: ParseState)
    ensures WellPlaced(next)
  {
    var outside := state.(active := Nowhere);
    if name == "" || name in state.sectionNames then Failed(outside, number)
    else
      var named := outside.(sectionNames := state.sectionNames + {name});
      var shared, exported := SubSectionName(name, ACCESSIBLE), SubSectionName(name, EXPORT);
      if shared.Some? then
        var section := ParsedAccessibleSection(shared.value.0, shared.value.1, "", "", "", "", number);
        named.(active := InAccessible,
               parsed := named.parsed.(accessibleSections := named.parsed.accessibleSections + [section]))
      else if exported.Some? then
        var section := ParsedExportSection(exported.value.0, exported.value.1, "", "", "", false, false, false, "", number);
        named.(active := InExport, parsed := named.parsed.(exportSections := named.parsed.exportSections + [section]))
      else if name in state.packages then Failed(named, number)
      else
        named.(active := InPolicy, packages := state.packages + {name},
               parsed := named.parsed.(sections := named.parsed.sections + [NewSection(name)]))
  }

  // ---------------------------------------------------------------------------
  // The lines of a package section; none where the parser reports an error

  /** Options leave the name and the rules of their section alone. */
  predicate SameRules(changed: ParsedSection, section: ParsedSection) {
    changed.packageName == section.packageName && changed.rules == section.rules
  }

  /** Only the first letters and the value are looked at, not the key. */
  function SetMode(section: ParsedSection, line: string): (changed: Option<ParsedSection>)
    ensures changed.Some? ==> SameRules(changed.value, section)
  {
    var equal := FirstIndex(line, '=');
    if equal < 0 then None
    else
      var value := Trim(line[equal + 1..]);
      if value == "whitelist" then Some(section.(mode := Whitelist, hasMode := true))
      else if value == "blacklist" then Some(section.(mode := Blacklist, hasMode := true))
      else None
  }

  function SetEnabled(section: ParsedSection, key: string, value: string): (changed: Option<ParsedSection>)
    ensures changed.Some? ==> SameRules(changed.value, section)
  {
    var flag := ReadBool(value);
    if flag.None? then None
    else if key == "enabled" then Some(section.(enabled := flag.value))
    else if key == "disabled" then Some(section.(enabled := !flag.value))
    else None
  }

  function SetDelete(section: ParsedSection, key: string, value: string): (changed: Option<ParsedSection>)
    ensures changed.Some? ==> SameRules(changed.value, section)
  {
    if key == "delete_existing" then
      match ReadBool(value) case None => None case Some(flag) => Some(section.(deleteExisting := flag))
    else if key == "delete_dirs" then
      match ReadDeleteDirMode(value) case None => None case Some(mode) => Some(section.(deleteDirMode := mode))
    else None
  }

  function SetMediaQuery(section: ParsedSection, key: string, value: string): (changed: Option<ParsedSection>)
    ensures changed.Some? ==> SameRules(changed.value, section)
  {
    if key != "media_query" then None
    else match ReadMediaQueryMode(value) case None => None case Some(mode) => Some(section.(mediaQuery := mode))
  }

  function SetTrash(section: ParsedSection, key: string, value: string): (changed: Option<ParsedSection>)
    ensures changed.Some? ==> SameRules(changed.value, section)
  {
    if key == "trash" then
      match ReadBool(value) case None => None case Some(flag) => Some(section.(trashEnabled := flag))
    else if key == "trash_redirect" then
      match ReadBool(value) case None => None case Some(flag) => Some(section.(trashOnRedirect := flag))
    else if key == "trash_dir" then
      if value == "" then None else Some(section.(trashDir := value))
    else if key == "min_age_days" then
      match ReadInteger(value) case None => None case Some(days) => Some(section.(minAgeDays := ToInt32(days)))
    else if key == "min_size_mb" then
      match ReadInteger(value) case None => None case Some(mb) => Some(section.(minSizeMb := mb))
    else None
  }

  /** A rule that starts with its mark. */
  function MarkedRule(line: string, number: nat): Option<ParsedRuleLine>
    requires line != ""
  {
    var path := Trim(line[1..]);
    if path == "" || FindTypes(path, 0) >= 0 then None
    else
      var action := if line[0] == '+' then Allow else if line[0] == '-' then Deny else Delete;
      Some(ParsedRuleLine(action, path, "", [], number))
  }

  const ARROW := "->"
  const DYNAMIC_ARROW := "=>"

  /** A rule with an arrow; the first arrow of either kind separates path and target. */
  function RedirectRule(line: string, number: nat): Option<ParsedRuleLine> {
    var arrow, alias := Find(line, ARROW), Find(line, DYNAMIC_ARROW);
    var split := if arrow >= 0 && (alias < 0 || arrow < alias) then arrow else alias;
    if split < 0 then None
    else
      assert split + 2 <= |line|;
      var left, right := Trim(line[..split]), Trim(line[split + 2..]);
      if left == "" || right == "" || FindTypes(left, 0) >= 0 then None
      else
        match ParseTypeFilter(right)
        case BadFilter => None
        case Filter(target, types) =>
          Some(ParsedRuleLine(if split == alias then RedirectDynamic else Redirect, left, target, types, number))
  }

  predicate BeginsMode(line: string) {
    StartsWith(line, "mode")
  }

  predicate BeginsEnabled(line: string) {
    StartsWith(line, "enabled") || StartsWith(line, "disabled")
  }

  predicate BeginsDelete(line: string) {
    StartsWith(line, "delete_existing") || StartsWith(line, "delete_dirs")
  }

  predicate BeginsMediaQuery(line: string) {
    StartsWith(line, "media_query")
  }

  predicate BeginsTrash(line: string) {
    StartsWith(line, "trash") || StartsWith(line, "min_age_days") || StartsWith(line, "min_size_mb")
  }

  /** The beginnings that make a line an option, whatever follows. */
  predicate BeginsOption(line: string) {
    BeginsMode(line) || BeginsEnabled(line) || BeginsDelete(line) || BeginsMediaQuery(line) || BeginsTrash(line)
  }

  function SetOption(section: ParsedSection, line: string): (changed: Option<ParsedSection>)
    requires BeginsOption(line)
    ensures changed.Some? ==> SameRules(changed.value, section)
  {
    if BeginsMode(line) then SetMode(section, line)
    else
      var assignment := SplitAssignment(line);
      if assignment.None? then None
      else
        var (key, value) := assignment.value;
        if BeginsEnabled(line) then SetEnabled(section, key, value)
        else if BeginsDelete(line) then SetDelete(section, key, value)
        else if BeginsMediaQuery(line) then SetMediaQuery(section, key, value)
        else SetTrash(section, key, value)
  }

  predicate IsMarked(line: string) {
    line != "" && line[0] in {'+', '-', '!'}
  }

  function ReadRule(line: string, number: nat): Option<ParsedRuleLine> {
    if IsMarked(line) then MarkedRule(line, number) else RedirectRule(line, number)
  }

  function PolicyLine(section: ParsedSection, line: string, number: nat): Option<ParsedSection> {
    if BeginsOption(line) then SetOption(section, line)
    else
      match ReadRule(line, number)
      case None => None
      case Some(rule) => Some(section.(rules := section.rules + [rule]))
  }

  // ---------------------------------------------------------------------------
  // The lines of the other sections

  function AccessibleField(section: ParsedAccessibleSection, key: string, value: string): Option<ParsedAccessibleSection> {
    if key == "from" then Some(section.(fromPackage := value))
    else if key == "to" then Some(section.(toPackage := value))
    else if key == "path" then Some(section.(path := value))
    else if key == "description" then Some(section.(description := value))
    else None
  }

  function ExportField(section: ParsedExportSection, key: string, value: string): Option<ParsedExportSection> {
    if key == "source" then Some(section.(sourcePath := value))
    else if key == "target" then Some(section.(targetPath := value))
    else if key == "title" then Some(section.(title := value))
    else if key == "description" then Some(section.(description := value))
    else
      var flag := ReadBool(value);
      if flag.None? then None
      else if key == "media_scan" then Some(section.(mediaScan := flag.value))
      else if key == "add_to_downloads" then Some(section.(addToDownloads := flag.value))
      else if key == "allow_child" then Some(section.(allowChild := flag.value))
      else None
  }

  // ---------------------------------------------------------------------------
  // Whole texts

  /** What one trimmed line does. */
  function LineStep(state: ParseState, line: string, number: nat): (next: ParseState)
    requires WellPlaced(state)
    ensures WellPlaced(next)
  {
    if line == "" || line[0] == '#' then state
    else if IsHeader(line) then Enter(state, Trim(line[1..|line| - 1]), number)
    else BodyStep(state, line, number)
  }

  function BodyStep(state: ParseState, line: string, number: nat): (next: ParseState)
    requires WellPlaced(state)
    ensures WellPlaced(next)
  {
    var parsed := state.parsed;
    match state.active
    case Nowhere => Failed(state, number)
    case InPolicy =>
      var section := PolicyLine(Last(parsed.sections), line, number);
      if section.None? then Failed(state, number)
      else state.(parsed := parsed.(sections := WithLast(parsed.sections, section.value)))
    case InAccessible =>
      var pair := SplitAssignment(line);
      if pair.None? then Failed(state, number)
      else
        var section := AccessibleField(Last(parsed.accessibleSections), pair.value.0, pair.value.1);
        if section.None? then Failed(state, number)
        else state.(parsed := parsed.(accessibleSections := WithLast(parsed.accessibleSections, section.value)))
    case InExport =>
      var pair := SplitAssignment(line);
      if pair.None? then Failed(state, number)
      else
        var section := ExportField(Last(parsed.exportSections), pair.value.0, pair.value.1);
        if section.None? then Failed(state, number)
        else state.(parsed := parsed.(exportSections := WithLast(parsed.exportSections, section.value)))
  }

  function WithoutReturn(line: string): string {
    if line != "" && line[|line| - 1] == '\r' then line[..|line| - 1] else line
  }

  /** The state after some lines, the first of which has the given number. */
  function Fold(state: ParseState, lines: seq<string>, number: nat): (end: ParseState)
    requires WellPlaced(state)
    ensures WellPlaced(end)
    decreases lines
  {
    if lines == [] then state
    else Fold(LineStep(state, Trim(WithoutReturn(lines[0])), number), lines[1..], number + 1)
  }

  function Lines(text: string): (lines: seq<string>)
    ensures lines != []
    decreases |text|
  {
    var end := FirstIndex(text, '\n');
    if end < 0 then [text] else [text[..end]] + Lines(text[end + 1..])
  }

  // The checks at the end: a section without its mode is reported under line 0.

  function MissingModes(sections: seq<ParsedSection>): seq<nat> {
    if sections == [] then []
    else (if sections[0].enabled && !sections[0].hasMode then [0] else []) + MissingModes(sections[1..])
  }

  function AccessibleErrorsOf(s: ParsedAccessibleSection): seq<nat> {
    (if s.path == "" then [s.lineNumber] else [])
    + (if s.fromPackage == "" && s.toPackage == "" then [s.lineNumber] else [])
  }

  function AccessibleErrors(sections: seq<ParsedAccessibleSection>): seq<nat> {
    if sections == [] then [] else AccessibleErrorsOf(sections[0]) + AccessibleErrors(sections[1..])
  }

  function ExportErrorsOf(s: ParsedExportSection): seq<nat> {
    (if s.sourcePath == "" then [s.lineNumber] else []) + (if s.targetPath == "" then [s.lineNumber] else [])
  }

  function ExportErrors(sections: seq<ParsedExportSection>): seq<nat> {
    if sections == [] then [] else ExportErrorsOf(sections[0]) + ExportErrors(sections[1..])
  }

  function Validated(parsed: ParsedRules): ParsedRules {
    parsed.(errors := parsed.errors + MissingModes(parsed.sections) + AccessibleErrors(parsed.accessibleSections)
                      + ExportErrors(parsed.exportSections))
  }

  function Parsed(text: string): ParsedRules {
    Validated(Fold(START, Lines(text), 1).parsed)
  }

  predicate Accepted(parsed: ParsedRules) {
    parsed.errors == [] && (parsed.sections != [] || parsed.accessibleSections != [] || parsed.exportSections != [])
  }

  /** Where the line that begins at a position ends. */
  function LineEnd(text: string, position: nat): (end: nat)
    requires position <= |text|
    ensures position <= end <= |text|
  {
    var found := FirstIndex(text[position..], '\n');
    if found < 0 then |text| else position + found
  }

  function Remaining(text: string, position: nat): seq<string>
    requires position <= |text| + 1
  {
    if position > |text| then [] else Lines(text[position..])
  }

  lemma NextLine(text: string, position: nat)
    requires position <= |text|
    ensures Remaining(text, position) == [text[position..LineEnd(text, position)]] + Remaining(text, LineEnd(text, position) + 1)
  {
    hide FirstIndex;
    var rest, end := text[position..], LineEnd(text, position);
    if end == |text| {
      assert text[position..end] == rest;
    } else {
      assert rest[..end - position] == text[position..end];
      assert rest[end - position + 1..] == text[end + 1..];
    }
  }

  method ReadLine(state: ParseState, line: string, number: nat, ghost rest: seq<string>) returns (next: ParseState)
    requires WellPlaced(state)
    ensures WellPlaced(next)
    ensures Fold(state, [line] + rest, number) == Fold(next, rest, number + 1)
  {
    next := LineStep(state, Trim(WithoutReturn(line)), number);
    assert ([line] + rest)[1..] == rest;
  }

  /** Finds one line after the other, and keeps the section being filled at the end of its list. */
  method ParseRulesIni(text: string) returns (parsed: ParsedRules, ok: bool)
    ensures parsed == Parsed(text)
    ensures ok <==> Accepted(parsed)
  {
    var end := ReadLines(text);
    parsed := ValidateParsedRules(end.parsed);
    ok := parsed.errors == [] && (parsed.sections != [] || parsed.accessibleSections != [] || parsed.exportSections != []);
  }

  method ReadLines(text: string) returns (state: ParseState)
    ensures state == Fold(START, Lines(text), 1)
  {
    state := START;
    var lineNumber, position := 0, 0;
    assert text[0..] == text;
    while position <= |text|
      invariant position <= |text| + 1
      invariant WellPlaced(state)
      invariant Fold(state, Remaining(text, position), lineNumber + 1) == Fold(START, Lines(text), 1)
      decreases |text| + 1 - position
    {
      var lineEnd := LineEnd(text, position);
      var line := text[position..lineEnd];
      NextLine(text, position);
      lineNumber := lineNumber + 1;
      state := ReadLine(state, line, lineNumber, Remaining(text, lineEnd + 1));
      position := lineEnd + 1;
    }
  }

  method ValidateParsedRules(before: ParsedRules) returns (parsed: ParsedRules)
    ensures parsed == Validated(before)
  {
    var errors := before.errors;
    errors := CheckModes(before.sections, errors);
    errors := CheckAccessible(before.accessibleSections, errors);
    errors := CheckExports(before.exportSections, errors);
    parsed := before.(errors := errors);
  }

  method CheckModes(sections: seq<ParsedSection>, before: seq<nat>) returns (errors: seq<nat>)
    ensures errors == before + MissingModes(sections)
  {
    errors := before;
    for i := 0 to |sections|
      invariant errors + MissingModes(sections[i..]) == before + MissingModes(sections)
    {
      var section := sections[i];
      assert sections[i..][0] == section && sections[i..][1..] == sections[i + 1..];
      if section.enabled && !section.hasMode {
        errors := errors + [0];
      }
    }
  }

  lemma AccessibleErrorsAdd(s: ParsedAccessibleSection, was: seq<nat>, rest: seq<nat>)
    ensures var one := if s.path == "" then was + [s.lineNumber] else was;
            var two := if s.fromPackage == "" && s.toPackage == "" then one + [s.lineNumber] else one;
      two + rest == was + (AccessibleErrorsOf(s) + rest)
  {
  }

  lemma ExportErrorsAdd(s: ParsedExportSection, was: seq<nat>, rest: seq<nat>)
    ensures var one := if s.sourcePath == "" then was + [s.lineNumber] else was;
            var two := if s.targetPath == "" then one + [s.lineNumber] else one;
      two + rest == was + (ExportErrorsOf(s) + rest)
  {
  }

  method CheckAccessible(sections: seq<ParsedAccessibleSection>, before: seq<nat>) returns (errors: seq<nat>)
    ensures errors == before + AccessibleErrors(sections)
  {
    errors := before;
    for i := 0 to |sections|
      invariant errors + AccessibleErrors(sections[i..]) == before + AccessibleErrors(sections)
    {
      var section := sections[i];
      hide AccessibleErrorsOf;
      ghost var was, rest := errors, AccessibleErrors(sections[i + 1..]);
      assert sections[i..][0] == section && sections[i..][1..] == sections[i + 1..];
      if section.path == "" {
        errors := errors + [section.lineNumber];
      }
      if section.fromPackage == "" && section.toPackage == "" {
        errors := errors + [section.lineNumber];
      }
      AccessibleErrorsAdd(section, was, rest);
    }
  }

  method CheckExports(sections: seq<ParsedExportSection>, before: seq<nat>) returns (errors: seq<nat>)
    ensures errors == before + ExportErrors(sections)
  {
    errors := before;
    for i := 0 to |sections|
      invariant errors + ExportErrors(sections[i..]) == before + ExportErrors(sections)
    {
      var section := sections[i];
      hide ExportErrorsOf;
      ghost var was, rest := errors, ExportErrors(sections[i + 1..]);
      assert sections[i..][0] == section && sections[i..][1..] == sections[i + 1..];
      if section.sourcePath == "" {
        errors := errors + [section.lineNumber];
      }
      if section.targetPath == "" {
        errors := errors + [section.lineNumber];
      }
      ExportErrorsAdd(section, was, rest);
    }
  }
}
