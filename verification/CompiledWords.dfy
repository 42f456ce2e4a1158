/** What the parts of a section compile to, in plain words (native/rule_engine.cpp, lines 515-531 and 1311-1461). */
module CompiledWords {
  import opened Options
  import opened Text
  import opened PathMapper
  import opened PathGlob
  import opened PathKindCache
  import opened Rules
  import opened NormalPaths
  import opened ParsedRules
  import opened RuleCompiler
  import opened Policy
  import opened LineSyntax
  import opened RuleParser
  import opened RuleRoundTrip
  import opened OneRuleTexts

  // ---------------------------------------------------------------------------
  // The package placeholder

  /** The first `<pkg>` of a text gives way to the name of the package, and so does every later one. */
  lemma PlaceholderIs(front: string, rest: string, package: string)
    requires '<' !in front
    ensures Expanded(front + "<pkg>" + rest, package) == front + package + Expanded(rest, package)
  {
    hide Expanded;
    var text := front + "<pkg>" + rest;
    forall j | 0 <= j < |front| ensures !StartsWith(text[j..], PACKAGE_PLACEHOLDER) {
      assert text[j..][0] == front[j] && front[j] in front;
      DiffersAt(text[j..], PACKAGE_PLACEHOLDER, 0);
    }
    ExpandedSkips(text, package, |front|);
    var tail := text[|front|..];
    assert tail == "<pkg>" + rest;
    assert tail[..5] == PACKAGE_PLACEHOLDER && tail[5..] == rest;
    ExpandedHere(tail, package);
    assert text[..|front|] == front;
    assert front + (package + Expanded(rest, package)) == front + package + Expanded(rest, package);
  }

  // ---------------------------------------------------------------------------
  // File types

  /** The type as it is compared: in small letters, without a dot in front. */
  predicate IsWrittenAs(e: string, p: string) {
    if p != "" && p[0] == '.' then e == Lower(p[1..]) else e == Lower(p)
  }

  /** The types of a compiled rule are those of its line; what is nothing without its dot is left out. */
  lemma TypesAre(compiled: seq<string>, parsed: seq<string>, e: string)
    requires ExtensionsOf(compiled, parsed)
    ensures e in compiled <==> e != "" && exists p :: p in parsed && IsWrittenAs(e, p)
  {
    hide Lower;
    assert forall p: string :: PlainExtension(p) == e <==> IsWrittenAs(e, p);
  }

  // ---------------------------------------------------------------------------
  // Targets

  /** A relative path of ordinary names in which wildcards may stand. */
  predicate RelativePattern(t: string) {
    && IsTrimmed(t) && |t| < 900 && '<' !in t
    && Words(t) != [] && Join(Words(t)) == t && forall i :: 0 <= i < |Words(t)| ==> IsName(Words(t)[i])
  }

  lemma PatternIsNormal(t: string, package: string)
    requires RelativePattern(t)
    ensures NormalizedRulePath(Expanded(t, package)) == Some("/storage/emulated/0/" + t)
    ensures HasGlobChars("/storage/emulated/0/" + t) <==> '*' in t || '?' in t
  {
    hide NormalizedRulePath, Words, Join, Expanded;
    PlainTextStays(t, package);
    RelativePathIsNormal(Words(t));
    assert EXTERNAL_ROOT + "/" + t == "/storage/emulated/0/" + t;
    WildcardsBelowRoot(t);
  }

  lemma WildcardsBelowRoot(t: string)
    ensures HasGlobChars("/storage/emulated/0/" + t) <==> '*' in t || '?' in t
  {
    var path := "/storage/emulated/0/" + t;
    assert forall i :: 0 <= i < |t| ==> path[20 + i] == t[i];
  }

  /** A rule with an arrow and a plain path is refused exactly when its target has a wildcard. */
  lemma WildcardTargetFails(line: ParsedRuleLine, p: string, package: string)
    requires WrittenPath(line.path, p) && RelativePattern(line.redirectTarget)
    requires line.action == Redirect || line.action == RedirectDynamic
    ensures LineFails(line, package) <==> '*' in line.redirectTarget || '?' in line.redirectTarget
  {
    hide NormalizedRulePath, AnalyzeGlobPattern, PlainPathText, HasGlobChars, Expanded, RelativePattern;
    WrittenPathIsNormal(line.path, p, package);
    PlainPathIsLiteral(p);
    PatternIsNormal(line.redirectTarget, package);
  }

  // ---------------------------------------------------------------------------
  // Where deleted files go

  lemma TrashDirIs(section: ParsedSection, p: string)
    ensures section.trashDir == "" ==> TrashDir(section) == Some("")
    ensures RelativePattern(section.trashDir) ==> TrashDir(section) == Some("/storage/emulated/0/" + section.trashDir)
    ensures forall front: string, rest: string :: '<' !in front && '<' !in rest && section.trashDir == front + "<pkg>" + rest ==>
      TrashDir(section) == NormalizedRulePath(front + section.packageName + rest)
  {
    hide NormalizedRulePath, Expanded, RelativePattern;
    if RelativePattern(section.trashDir) {
      PatternIsNormal(section.trashDir, section.packageName);
      PatternIsText(section.trashDir);
    }
    forall front: string, rest: string | '<' !in front && '<' !in rest && section.trashDir == front + "<pkg>" + rest
      ensures TrashDir(section) == NormalizedRulePath(front + section.packageName + rest)
    {
      PlaceholderIs(front, rest, section.packageName);
      PlainTextStays(rest, section.packageName);
    }
  }

  lemma PatternIsText(t: string)
    requires RelativePattern(t)
    ensures t != ""
  {
  }

  // ---------------------------------------------------------------------------
  // Shared folders

  /** A shared folder with a plain path, seen by a process of the package it is for: every field, with the package that
    shares it in place of a missing partner. Other processes get nothing. */
  lemma SharedFolderIs(a: ParsedAccessibleSection, sections: seq<ParsedSection>, process: string, p: string)
    requires WrittenPath(a.path, p) && ':' !in a.toPackage && ':' !in a.anchorPackage && IsPackageEnabled(sections, a.anchorPackage)
    ensures AccessibleFolders([a], sections, process) ==
      if PackagePart(process) == (if a.toPackage != "" then a.toPackage else a.anchorPackage)
      then Folders([CompiledFolder(a.ruleId, a.anchorPackage,
                                   if a.fromPackage != "" then a.fromPackage else a.anchorPackage,
                                   if a.toPackage != "" then a.toPackage else a.anchorPackage,
                                   "/storage/emulated/0/" + p, a.description, Directory, a.lineNumber)])
      else Folders([])
  {
    hide NormalizedRulePath, Expanded, PlainPathText, WrittenPath, Applies, HasGlobChars, IsPackageEnabled, PackagePart;
    AppliesTo(a, sections, process);
    WrittenPathIsNormal(a.path, p, a.anchorPackage);
    PlainIsText(a.path, p);
    PlainPathIsLiteral(p);
    assert [a][1..] == [] && AccessibleFolders([], sections, process) == Folders([]);
    assert EXTERNAL_ROOT + "/" + p == "/storage/emulated/0/" + p;
  }

  lemma PlainIsText(text: string, p: string)
    requires WrittenPath(text, p)
    ensures PlainPathText(p)
  {
  }

  /** With a wildcard in its path it is an error for the processes that it is for. */
  lemma SharedPatternFails(a: ParsedAccessibleSection, sections: seq<ParsedSection>, process: string)
    requires RelativePattern(a.path) && ('*' in a.path || '?' in a.path) && Applies(a, sections, process)
    ensures AccessibleFolders([a], sections, process) == Bad(a.lineNumber)
  {
    hide NormalizedRulePath, Expanded, RelativePattern, Applies, HasGlobChars;
    PatternIsNormal(a.path, a.anchorPackage);
  }

  /** The folders of several sections are those of each, in order; the first error counts. */
  lemma {:induction false} SharedFoldersInOrder(first: seq<ParsedAccessibleSection>, second: seq<ParsedAccessibleSection>,
                                                sections: seq<ParsedSection>, process: string)
    ensures AccessibleFolders(first + second, sections, process) ==
      match AccessibleFolders(first, sections, process)
      case Bad(line) => Bad(line)
      case Folders(folders) =>
        match AccessibleFolders(second, sections, process)
        case Bad(line) => Bad(line)
        case Folders(more) => Folders(folders + more)
  {
    hide Applies, AccessiblePath;
    if first == [] {
      assert first + second == second;
      NoFolders(sections, process);
    } else {
      assert (first + second)[1..] == first[1..] + second;
      SharedFoldersInOrder(first[1..], second, sections, process);
      var rest, more := AccessibleFolders(first[1..], sections, process), AccessibleFolders(second, sections, process);
      if rest.Folders? && more.Folders? && AccessiblePath(first[0]).Some? {
        assert [FolderOf(first[0])] + (rest.folders + more.folders) == ([FolderOf(first[0])] + rest.folders) + more.folders;
      }
    }
  }

  // ---------------------------------------------------------------------------
  // Exported folders

  /** An exported folder with plain paths, every field: its identifier stands in for a missing title, and a source of unknown
    kind is taken for a directory. It belongs to the package of its section, if that is on, and to no other. */
  lemma ExportedFolderIs(e: ParsedExportSection, sections: seq<ParsedSection>, package: string, probe: string -> PathKind,
                         p: string, t: string)
    requires WrittenPath(e.sourcePath, p) && WrittenPath(e.targetPath, t)
    ensures FirstBadExport([e], sections, package) == None
    ensures var source := "/storage/emulated/0/" + p;
            var kind := KindOf(e.sourcePath, source, probe(source), LastName(p));
      OwnExports([e], sections, package, probe) ==
        if IsPackageEnabled(sections, e.anchorPackage) && e.anchorPackage == package
        then [CompiledExport(e.ruleId, package, source, "/storage/emulated/0/" + t, if e.title != "" then e.title else e.ruleId,
                             e.mediaScan, e.addToDownloads, e.allowChild, e.description,
                             if kind == File then File else Directory, e.lineNumber)]
        else []
  {
    hide NormalizedRulePath, Expanded, PlainPathText, IsPackageEnabled, InferCompiledRuleKind, KindOf, HasGlobChars;
    WrittenPathIsNormal(e.sourcePath, p, e.anchorPackage);
    WrittenPathIsNormal(e.targetPath, t, e.anchorPackage);
    PlainPathIsLiteral(p);
    PlainPathIsLiteral(t);
    WrittenCharacters(e.sourcePath, p);
    PlainPathIsTrimmed(p);
    var parent := PathAndName(p);
    KindIs(e.sourcePath, parent, LastName(p), probe);
    assert [e][1..] == [] && OwnExports([], sections, package, probe) == [];
    assert EXTERNAL_ROOT + "/" + p == "/storage/emulated/0/" + p && EXTERNAL_ROOT + "/" + t == "/storage/emulated/0/" + t;
  }

  /** With a wildcard in one of its paths it is an error for its own package. */
  lemma ExportedPatternFails(e: ParsedExportSection, sections: seq<ParsedSection>)
    requires RelativePattern(e.sourcePath) && RelativePattern(e.targetPath) && IsPackageEnabled(sections, e.anchorPackage)
    ensures FirstBadExport([e], sections, e.anchorPackage) ==
      if '*' in e.sourcePath || '?' in e.sourcePath || '*' in e.targetPath || '?' in e.targetPath then Some(e.lineNumber) else None
  {
    hide NormalizedRulePath, Expanded, RelativePattern, HasGlobChars, IsPackageEnabled;
    PatternIsNormal(e.sourcePath, e.anchorPackage);
    PatternIsNormal(e.targetPath, e.anchorPackage);
    assert [e][1..] == [] && FirstBadExport([], sections, e.anchorPackage) == None;
  }

  lemma {:induction false} ExportedFoldersInOrder(first: seq<ParsedExportSection>, second: seq<ParsedExportSection>,
                                                  sections: seq<ParsedSection>, package: string, probe: string -> PathKind)
    ensures OwnExports(first + second, sections, package, probe) ==
      OwnExports(first, sections, package, probe) + OwnExports(second, sections, package, probe)
    ensures FirstBadExport(first + second, sections, package) ==
      if FirstBadExport(first, sections, package).Some? then FirstBadExport(first, sections, package)
      else FirstBadExport(second, sections, package)
  {
    hide IsOwnExport, ExportOf, ExportFails;
    if first == [] {
      assert first + second == second;
    } else {
      assert (first + second)[1..] == first[1..] + second;
      ExportedFoldersInOrder(first[1..], second, sections, package, probe);
    }
  }

  // ---------------------------------------------------------------------------
  // Errors

  /** The errors of a section, the first of them reported: the trash directory, then the first bad rule line, then the
    shared folders of the process, then the exported ones of the package. */
  lemma FailuresInOrder(section: ParsedSection, parsed: ParsedRules, process: string)
    ensures TrashDir(section).None? ==> SectionFailure(section, parsed, process) == Some(BadTrashDir)
    ensures forall i :: 0 <= i < |section.rules| && TrashDir(section).Some? && IsFirstBad(section, i) ==>
      SectionFailure(section, parsed, process) == Some(BadRule(section.rules[i].lineNumber))
    ensures TrashDir(section).Some? && (forall l :: l in section.rules ==> !LineFails(l, section.packageName)) ==>
      match AccessibleFolders(parsed.accessibleSections, parsed.sections, process)
      case Bad(line) => SectionFailure(section, parsed, process) == Some(BadAccessible(line))
      case Folders(_) =>
        match FirstBadExport(parsed.exportSections, parsed.sections, section.packageName)
        case Some(line) => SectionFailure(section, parsed, process) == Some(BadExport(line))
        case None => SectionFailure(section, parsed, process) == None
  {
    hide TrashDir, LineFails, AccessibleFolders, FirstBadExport;
    FirstBadLineIs(section.rules, section.packageName);
  }

  predicate IsFirstBad(section: ParsedSection, i: int) {
    && 0 <= i < |section.rules| && LineFails(section.rules[i], section.packageName)
    && forall j :: 0 <= j < i ==> !LineFails(section.rules[j], section.packageName)
  }

  lemma {:induction false} FirstBadLineIs(lines: seq<ParsedRuleLine>, package: string)
    ensures FirstBadLine(lines, package).None? <==> forall l :: l in lines ==> !LineFails(l, package)
    ensures forall i :: 0 <= i < |lines| && LineFails(lines[i], package) && (forall j :: 0 <= j < i ==> !LineFails(lines[j], package)) ==>
      FirstBadLine(lines, package) == Some(lines[i].lineNumber)
  {
    hide LineFails;
    if lines != [] {
      FirstBadLineIs(lines[1..], package);
      assert lines == [lines[0]] + lines[1..];
      forall i | 0 < i < |lines| && LineFails(lines[i], package) && (forall j :: 0 <= j < i ==> !LineFails(lines[j], package))
        ensures FirstBadLine(lines, package) == Some(lines[i].lineNumber)
      {
        assert lines[1..][i - 1] == lines[i];
        assert forall j :: 0 <= j < i - 1 ==> lines[1..][j] == lines[j + 1];
      }
    }
  }

  // ---------------------------------------------------------------------------
  // Options

  /** Every option that is written down arrives in the policy of the processes of its package. */
  lemma OptionsReachThePolicy(policy: AppPolicy, file: ParsedRules, process: string, probe: string -> PathKind) returns (i: nat)
    requires CanBeWritten(file) && ColonFree(file.sections)
    requires policy.CompiledPolicy(Parsed(Render(file)), process, probe)
    ensures i < |file.sections| && IsFirstNamed(file.sections, i, process, file.sections[i])
    ensures var section := file.sections[i];
      && policy.packageName == section.packageName && policy.mode == section.mode
      && policy.deleteExisting == section.deleteExisting && policy.deleteDirMode == section.deleteDirMode
      && policy.mediaQuery == section.mediaQuery
      && policy.trashEnabled == section.trashEnabled && policy.trashOnRedirect == section.trashOnRedirect
      && policy.minAgeDays == section.minAgeDays && policy.minSizeMb == section.minSizeMb
      && TrashDir(section) == Some(policy.trashDir)
  {
    hide CanBeWritten, MatchingSection, RulesFrom, AccessibleFolders, OwnExports, PackagePart, NormalizedRulePath, Expanded;
    hide Parsed, Render, Accepted;
    RoundTrip(file);
    var read := Parsed(Render(file)).sections;
    SameNames(read, file.sections);
    MatchingSectionIs(read, process);
    i :| IsFirstNamed(read, i, process, MatchingSection(read, process).value);
    assert SameSection(read[i], file.sections[i]);
    FirstOfBoth(read, file.sections, i, process);
  }

  lemma SameNames(a: seq<ParsedSection>, b: seq<ParsedSection>)
    requires |a| == |b| && (forall i :: 0 <= i < |a| ==> SameSection(a[i], b[i])) && ColonFree(b)
    ensures ColonFree(a)
  {
    forall s | s in a ensures ':' !in s.packageName {
      var i :| 0 <= i < |a| && a[i] == s;
      assert SameSection(a[i], b[i]);
    }
  }

  lemma FirstOfBoth(a: seq<ParsedSection>, b: seq<ParsedSection>, i: nat, process: string)
    requires |a| == |b| && (forall k :: 0 <= k < |a| ==> SameSection(a[k], b[k]))
    requires i < |a| && IsFirstNamed(a, i, process, a[i])
    ensures IsFirstNamed(b, i, process, b[i])
  {
    hide PackagePart;
    assert SameSection(a[i], b[i]);
    assert forall k :: 0 <= k < i ==> SameSection(a[k], b[k]);
  }
}
