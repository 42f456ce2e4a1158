/** The rules of the documented sample file (README.md, lines 48-110), from their text to what the index makes of them. */
module DocumentedRules {
  import opened Options
  import opened Text
  import opened PathMapper
  import opened PathGlob
  import opened PathKindCache
  import opened Rules
  import opened PolicyIndex
  import opened IndexRefinement
  import opened NormalPaths
  import opened PathTypes
  import opened IndexLimits
  import opened Sorting
  import opened ParsedRules
  import opened RuleCompiler
  import opened LineSyntax
  import opened RuleParser
  import opened ParserProperties
  import opened RuleRenderer
  import opened RuleComments
  import Glob

  // ---------------------------------------------------------------------------
  // Texts without special characters

  lemma NoMarker(text: string)
    requires '@' !in text
    ensures !HasTypes(text)
  {
    forall j | 0 <= j <= |text| ensures !TypesAt(text, j) {
      DiffersAt(text[j..], TYPES, 0);
    }
    FindTypesIsNone(text);
  }

  lemma NoArrow(text: string)
    requires '>' !in text
    ensures Find(text, ARROW) < 0 && Find(text, DYNAMIC_ARROW) < 0
  {
    forall j | 0 <= j <= |text| ensures !StartsWith(text[j..], ARROW) && !StartsWith(text[j..], DYNAMIC_ARROW) {
      assert |text[j..]| > 1 ==> text[j..][1] == text[j + 1] && text[j + 1] in text;
      DiffersAt(text[j..], ARROW, 1);
      DiffersAt(text[j..], DYNAMIC_ARROW, 1);
    }
  }

  lemma NoOption(text: string)
    requires text != "" && text[0] !in "medt"
    ensures !BeginsOption(text)
  {
    NotMode(text);
    NotEnabled(text);
    NotDelete(text);
    NotMediaQuery(text);
    NotTrash(text);
  }

  /** A redirect whose texts have no special characters is plain. */
  lemma SimpleRedirectIsPlain(rule: ParsedRuleLine)
    requires NeedsTarget(rule.action) && IsTrimmed(rule.path) && IsTrimmed(rule.redirectTarget)
    requires rule.path[0] !in "medt+-!#[" && '>' !in rule.path && '@' !in rule.path && '@' !in rule.redirectTarget
    requires PlainTypes(rule.extensions)
    ensures RuleIsPlain(rule)
  {
    hide FindTypes, Find, BeginsOption, TypesText, Listed, PlainType;
    NoMarker(rule.path);
    NoMarker(rule.redirectTarget);
    NoArrow(rule.path);
    NoOption(rule.path);
    assert RuleText(rule)[0] == rule.path[0];
  }

  // ---------------------------------------------------------------------------
  // A redirect of one file type out of the download folder

  const DOCUMENTED_LINE := "Download/*.pdf" + " -> " + "Documents/PDF/" + " @types=" + "pdf"

  function DocumentedRule(number: nat): ParsedRuleLine {
    ParsedRuleLine(Redirect, "Download/*.pdf", "Documents/PDF/", ["pdf"], number)
  }

  lemma DocumentedLineIsRead(section: ParsedSection, number: nat)
    ensures PolicyLine(section, DOCUMENTED_LINE, number) == Some(section.(rules := section.rules + [DocumentedRule(number)]))
  {
    hide PolicyLine, RuleIsPlain, RuleText;
    DocumentedRuleIsPlain(number);
    DocumentedRuleText(number);
    RuleLineIsRead(DocumentedRule(number), section, number);
  }

  lemma DocumentedRuleText(number: nat)
    ensures RuleText(DocumentedRule(number)) == DOCUMENTED_LINE
  {
    hide TypesText;
    TypesTextOfOne("pdf");
    RedirectParenthesized("Download/*.pdf", "Documents/PDF/", " @types=", "pdf");
  }

  lemma RedirectParenthesized(path: string, target: string, marker: string, types: string)
    ensures path + " " + ARROW + " " + target + (marker + types) == path + " -> " + target + marker + types
  {
  }

  lemma TypesTextOfOne(only: string)
    ensures TypesText([only]) == " @types=" + only
  {
    assert Listed([only]) == only;
  }

  lemma DocumentedRuleIsPlain(number: nat)
    ensures RuleIsPlain(DocumentedRule(number))
  {
    hide RuleIsPlain, PlainTypes;
    PdfIsPlain();
    SimpleRedirectIsPlain(DocumentedRule(number));
  }

  lemma PdfIsPlain()
    ensures PlainTypes(["pdf"])
  {
    assert Lower("pdf") == "pdf";
  }

  // ---------------------------------------------------------------------------
  // What it is compiled to, and what the index makes of it

  lemma AnalyzeInDirectory(parent: string, pattern: string)
    requires !HasGlobChars(parent) && HasGlobChars(pattern) && SlashFree(pattern)
    requires !HasDoubleStar(parent + "/" + pattern)
    ensures AnalyzeGlobPattern(parent + "/" + pattern) == FileNameGlob(parent, pattern)
  {
    hide HasDoubleStar, LastIndex, FirstGlobChar;
    var path := parent + "/" + pattern;
    LastSlashOf(parent, pattern);
    var i :| 0 <= i < |pattern| && pattern[i] in "*?";
    assert path[|parent| + 1 + i] == pattern[i];
    GlobIsBehind(parent, pattern);
  }

  lemma GlobIsBehind(parent: string, pattern: string)
    requires !HasGlobChars(parent) && HasGlobChars(parent + "/" + pattern)
    ensures FirstGlobChar(parent + "/" + pattern) > |parent|
  {
    hide FirstGlobChar;
    var path := parent + "/" + pattern;
    assert forall i :: 0 <= i < |parent| ==> path[i] == parent[i];
    assert path[|parent|] == '/';
  }

  const DOWNLOAD := EXTERNAL_ROOT + "/" + "Download"

  lemma TwoNamesAreNormal(top: string, entry: string)
    requires IsName(top) && IsName(entry) && !IsSpace(top[0]) && !IsSpace(entry[|entry| - 1])
    requires |top| + |entry| < 1000
    ensures NormalizedRulePath(top + "/" + entry) == Some((EXTERNAL_ROOT + "/" + top) + "/" + entry)
  {
    hide NormalizedRulePath, IsName;
    var names := [top, entry];
    assert names[1..] == [entry];
    assert Join(names) == top + "/" + entry;
    RelativePathIsNormal(names);
    assert EXTERNAL_ROOT + "/" + (top + "/" + entry) == (EXTERNAL_ROOT + "/" + top) + "/" + entry;
  }

  lemma PdfPattern(parent: string)
    requires !HasGlobChars(parent)
    ensures AnalyzeGlobPattern(parent + "/" + "*.pdf") == FileNameGlob(parent, "*.pdf")
  {
    hide AnalyzeGlobPattern;
    var path := parent + "/" + "*.pdf";
    assert "*.pdf"[0] in "*?";
    forall i | 0 <= i < |path| - 1 ensures !(path[i] == '*' && path[i + 1] == '*') {
      assert i < |parent| ==> path[i] == parent[i];
    }
    AnalyzeInDirectory(parent, "*.pdf");
  }

  lemma DocumentedPath()
    ensures NormalizedRulePath("Download/*.pdf") == Some(DOWNLOAD + "/" + "*.pdf")
    ensures AnalyzeGlobPattern(DOWNLOAD + "/" + "*.pdf") == FileNameGlob(DOWNLOAD, "*.pdf")
  {
    hide NormalizedRulePath, AnalyzeGlobPattern;
    TwoNamesAreNormal("Download", "*.pdf");
    LiteralBelowRoot("Download");
    PdfPattern(DOWNLOAD);
    assert "Download" + "/" + "*.pdf" == "Download/*.pdf";
  }

  lemma PdfIsAccepted(stem: string)
    requires '*' !in stem
    ensures Glob.Accepts("*.pdf", stem + ".pdf")
  {
    hide Glob.Matches;
    Glob.StarMatchesAny(stem);
    Glob.MatchesSelf(".pdf", ".pdf");
    Glob.MatchesConcat("*", stem, ".pdf", ".pdf");
    assert "*" + ".pdf" == "*.pdf";
    Glob.AcceptsIsComplete("*.pdf", stem + ".pdf");
  }

  lemma PdfIsAllowed(types: seq<string>, parent: string, stem: string)
    requires "pdf" in types
    ensures AllowsType(types, parent + "/" + (stem + ".pdf"))
  {
    hide AllowsType;
    var path := parent + "/" + (stem + ".pdf");
    assert path[|path| - 4..] == ".pdf";
    assert Lower(".pdf") == "." + "pdf";
    AllowsTypeIs(types, path);
  }

  /** Compiled as the documentation writes it, the rule is hit by every PDF file in the download folder, and the index
    finds it for none of them, ordinary and normalized paths as they are. */
  lemma DocumentedRuleIsLost(rule: CompiledRule, number: nat, package: string, probe: string -> PathKind,
                             stem: string, q: Query)
    requires CompiledFrom(rule, DocumentedRule(number), package, probe)
    requires SlashFree(stem) && '*' !in stem && q.path == DOWNLOAD + "/" + (stem + ".pdf")
    ensures FirstHit([rule], q) == Some(rule) && IndexedHit([rule], q) == None
    ensures NormalizedRulePath(q.path) == Some(q.path)
  {
    PdfIsNormal(stem);
    hide NormalizedRulePath, FirstHit, Hits, FirstHitIn, SlotOf, Searched, CompiledFrom, WellFormed;
    DocumentedRuleHits(rule, number, package, probe, stem, q);
    assert [rule][0] == rule;
    TopLevelFileNameGlobIsLost(rule, q);
    AloneInSlots(Searched(q.path), rule, q);
  }

  lemma PdfIsNormal(stem: string)
    ensures var path := DOWNLOAD + "/" + (stem + ".pdf"); NormalizedRulePath(path) == Some(path)
  {
    hide NormalizedRulePath;
    var path := DOWNLOAD + "/" + (stem + ".pdf");
    BelowRoot("Download");
    ParentOfEntry(DOWNLOAD, stem + ".pdf");
    assert path[0] == EXTERNAL_ROOT[0] == '/' && path[|path| - 1] == 'f';
    TrimOfTrimmed(path);
    ExternalIsNormal(path);
  }

  lemma DocumentedRuleHits(rule: CompiledRule, number: nat, package: string, probe: string -> PathKind,
                           stem: string, q: Query)
    requires CompiledFrom(rule, DocumentedRule(number), package, probe)
    requires SlashFree(stem) && '*' !in stem && q.path == DOWNLOAD + "/" + (stem + ".pdf")
    ensures WellFormed(rule) && rule.hasGlob && rule.globParent == DOWNLOAD
    ensures Hits(rule, q) && IsExternal(q.path) && q.path != rule.path
  {
    hide AnalyzeGlobPattern, NormalizedRulePath, AllowsType, LastIndex, Matched, IsExternal;
    DocumentedShape(rule, number, package, probe);
    PdfIsAccepted(stem);
    PdfIsAllowed(rule.extensions, DOWNLOAD, stem);
    EntryIsMatched(rule, DOWNLOAD, stem + ".pdf", q);
    BelowRoot("Download");
    ParentOfEntry(DOWNLOAD, stem + ".pdf");
    SamePathSameName(DOWNLOAD, stem + ".pdf", "*.pdf");
  }

  lemma EntryIsMatched(rule: CompiledRule, parent: string, name: string, q: Query)
    requires rule.hasGlob && !rule.hasPathGlob && rule.globParent == parent && q.path == parent + "/" + name
    requires SlashFree(name) && name != "" && Glob.Accepts(rule.globPattern, name)
    ensures Matched(rule, q)
  {
    hide LastIndex, Glob.Accepts;
    LastSlashOf(parent, name);
  }

  lemma DocumentedShape(rule: CompiledRule, number: nat, package: string, probe: string -> PathKind)
    requires CompiledFrom(rule, DocumentedRule(number), package, probe)
    ensures WellFormed(rule) && rule.hasGlob && !rule.hasPathGlob && rule.action == Redirect
    ensures rule.globParent == DOWNLOAD && rule.globPattern == "*.pdf" && rule.path == DOWNLOAD + "/" + "*.pdf"
    ensures "pdf" in rule.extensions
  {
    hide AnalyzeGlobPattern, Expanded, NormalizedRulePath, LineFails, StrictlySorted, InferCompiledRuleKind;
    DocumentedPath();
    PlainTextStays("Download/*.pdf", package);
    assert PlainExtension("pdf") == "pdf" by {
      assert Lower("pdf") == "pdf";
    }
  }

  // ---------------------------------------------------------------------------
  // Other documented lines

  /** A note behind a deny rule, as the sample has one behind `- Download/secret`, becomes part of the denied path. */
  lemma NoteIsDenied(section: ParsedSection, path: string, note: string, number: nat)
    requires IsTrimmed(path) && '@' !in path && IsNote(note) && '@' !in note
    ensures PolicyLine(section, "- " + path + note, number) ==
      Some(section.(rules := section.rules + [ParsedRuleLine(Deny, path + note, "", [], number)]))
  {
    hide BeginsOption, MarkedRule, HasTypes;
    var rule := ParsedRuleLine(Deny, path, "", [], number);
    NoMarker(path);
    MarkedRuleIsRead(rule, number);
    assert RuleText(rule) == "- " + path;
    NotedMarkedRule("- " + path, note, number);
    MarkedLineIsNoOption("- " + path + note);
    NoMarker(path + note);
  }

  /** A key that only begins like a trash option is an error, whatever its value. */
  lemma UnknownTrashKeyFails(section: ParsedSection, key: string, value: string, number: nat)
    requires StartsWith(key, "trash") && !IsTrashKey(key) && IsTrimmed(key) && '=' !in key && IsTrimmed(value)
    ensures PolicyLine(section, Assignment(key, value), number) == None
  {
    var line := Assignment(key, value);
    assert line[..5] == key[..5] == "trash";
    assert StartsWith(line, "trash");
    assert line[0] == 't';
    NotMode(line);
    NotEnabled(line);
    NotDelete(line);
    NotMediaQuery(line);
    SplitOfAssignment(key, value);
  }

  /** The documentation, and the rule editor of the manager app, write such a key. */
  lemma DocumentedTrashKeyFails(section: ParsedSection, value: string, number: nat)
    requires IsTrimmed(value)
    ensures PolicyLine(section, Assignment("trash_on_redirect", value), number) == None
  {
    hide PolicyLine, Assignment;
    UnknownTrashKeyFails(section, "trash_on_redirect", value, number);
  }
}
