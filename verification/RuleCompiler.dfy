/** From a parsed rule line to a compiled rule (native/rule_engine.cpp, lines 343-355, 413-418, 515-531 and 1382-1456). */
module RuleCompiler {
  import opened Options
  import opened Text
  import opened Sorting
  import opened PathMapper
  import opened PathGlob
  import opened PathKindCache
  import opened Rules
  import opened ParsedRules
  import opened LineSyntax

  const PACKAGE_PLACEHOLDER := "<pkg>"

  /** Every placeholder, from left to right, replaced by the package name. */
  function Expanded(text: string, package: string): string {
    if text == "" then ""
    else if StartsWith(text, PACKAGE_PLACEHOLDER) then package + Expanded(text[|PACKAGE_PLACEHOLDER|..], package)
    else [text[0]] + Expanded(text[1..], package)
  }

  /** What has no placeholder in it stays as it is. */
  lemma {:induction false} ExpandedSkips(text: string, package: string, k: nat)
    requires k <= |text| && forall j :: 0 <= j < k ==> !StartsWith(text[j..], PACKAGE_PLACEHOLDER)
    ensures Expanded(text, package) == text[..k] + Expanded(text[k..], package)
  {
    hide StartsWith;
    if k == 0 {
      assert text[0..] == text && text[..0] == "";
    } else {
      assert text[0..] == text;
      forall j | 0 <= j < k - 1 ensures !StartsWith(text[1..][j..], PACKAGE_PLACEHOLDER) {
        assert text[1..][j..] == text[j + 1..];
      }
      ExpandedSkips(text[1..], package, k - 1);
      assert text[1..][k - 1..] == text[k..];
      assert [text[0]] + text[1..][..k - 1] == text[..k];
    }
  }

  lemma ExpandedHere(text: string, package: string)
    requires StartsWith(text, PACKAGE_PLACEHOLDER)
    ensures |text| >= |PACKAGE_PLACEHOLDER|
    ensures Expanded(text, package) == package + Expanded(text[|PACKAGE_PLACEHOLDER|..], package)
  {
  }

  lemma ExpandedUpTo(text: string, package: string)
    ensures var found := Find(text, PACKAGE_PLACEHOLDER);
      if found < 0 then Expanded(text, package) == text
      else
        && found + |PACKAGE_PLACEHOLDER| <= |text|
        && Expanded(text, package) ==
             text[..found] + (package + Expanded(text[found + |PACKAGE_PLACEHOLDER|..], package))
  {
    hide StartsWith, Find, Expanded;
    var found := Find(text, PACKAGE_PLACEHOLDER);
    if found < 0 {
      ExpandedSkips(text, package, |text|);
      NothingExpanded(package);
      assert text[..|text|] == text && text[|text|..] == "";
    } else {
      ExpandedSkips(text, package, found);
      ExpandedHere(text[found..], package);
      assert text[found..][|PACKAGE_PLACEHOLDER|..] == text[found + |PACKAGE_PLACEHOLDER|..];
    }
  }

  lemma NothingExpanded(package: string)
    ensures Expanded("", package) == ""
  {
  }

  lemma PlainTextStays(text: string, package: string)
    requires '<' !in text
    ensures Expanded(text, package) == text
  {
    hide Expanded;
    forall j | 0 <= j < |text| ensures !StartsWith(text[j..], PACKAGE_PLACEHOLDER) {
      assert text[j..][0] == text[j] && text[j] in text;
      DiffersAt(text[j..], PACKAGE_PLACEHOLDER, 0);
    }
    ExpandedSkips(text, package, |text|);
    NothingExpanded(package);
    assert text[|text|..] == "" && text[..|text|] == text;
  }

  /** Replaces in the growing text, and searches on behind what was put in: a placeholder that the package name itself
    brings is not replaced. */
  method ExpandPackagePlaceholder(text: string, package: string) returns (output: string)
    ensures output == Expanded(text, package)
  {
    hide Expanded, StartsWith, Find;
    output := text;
    var pos := 0;
    assert output[..0] + Expanded(output[0..], package) == Expanded(text, package) by {
      assert output[0..] == text;
    }
    while true
      invariant 0 <= pos <= |output|
      invariant output[..pos] + Expanded(output[pos..], package) == Expanded(text, package)
      decreases |output| - pos
    {
      var found := Find(output[pos..], PACKAGE_PLACEHOLDER);
      ExpandedUpTo(output[pos..], package);
      if found < 0 {
        assert output[..pos] + output[pos..] == output;
        return;
      }
      OnePlaceholder(output, pos, found, package);
      var at, after := pos + found, pos + found + |PACKAGE_PLACEHOLDER|;
      ghost var rest := Expanded(output[pos..][found + |PACKAGE_PLACEHOLDER|..], package);
      Regrouped(output[..pos], output[pos..][..found], package, rest);
      output := output[..at] + package + output[after..];
      pos := at + |package|;
    }
  }

  lemma Regrouped(a: string, b: string, c: string, d: string)
    ensures a + (b + (c + d)) == (a + (b + c)) + d
    ensures a + (b + c + d) == (a + (b + c)) + d
  {
  }

  lemma OnePlaceholder(output: string, pos: nat, found: nat, package: string)
    requires pos <= |output| && pos + found + |PACKAGE_PLACEHOLDER| <= |output|
    ensures var at, after := pos + found, pos + found + |PACKAGE_PLACEHOLDER|;
            var next := output[..at] + package + output[after..];
      && next[..at + |package|] == output[..pos] + (output[pos..][..found] + package)
      && next[at + |package|..] == output[pos..][found + |PACKAGE_PLACEHOLDER|..]
  {
  }

  /** A name with a dot inside it, neither first nor last. */
  predicate LooksLikeFile(path: string) {
    var name := path[LastIndex(path, '/') + 1..];
    var dot := LastIndex(name, '.');
    0 < dot && dot + 1 < |name|
  }

  function InferCompiledRuleKind(rawPath: string, path: string, probe: string -> PathKind): PathKind {
    var trimmed := Trim(rawPath);
    if trimmed != "" && trimmed[|trimmed| - 1] == '/' then Directory
    else if probe(path) != Auto then probe(path)
    else if LooksLikeFile(path) then File
    else Auto
  }

  predicate NeedsTarget(action: RuleAction) {
    action == Redirect || action == RedirectDynamic
  }

  /** Why a line cannot be compiled. */
  predicate LineFails(line: ParsedRuleLine, package: string) {
    var path := NormalizedRulePath(Expanded(line.path, package));
    var target := NormalizedRulePath(Expanded(line.redirectTarget, package));
    || path.None?
    || AnalyzeGlobPattern(path.value).InvalidGlob?
    || (NeedsTarget(line.action) && (target.None? || HasGlobChars(target.value)))
  }

  /** An extension without its leading dot, in lower case. */
  function PlainExtension(extension: string): string {
    Lower(if extension != "" && extension[0] == '.' then extension[1..] else extension)
  }

  ghost predicate ExtensionsOf(compiled: seq<string>, parsed: seq<string>) {
    && StrictlySorted(compiled)
    && forall e: string :: e in compiled <==> e != "" && exists p :: p in parsed && PlainExtension(p) == e
  }

  /** How a compiled rule comes from its line. */
  ghost predicate CompiledFrom(rule: CompiledRule, line: ParsedRuleLine, package: string, probe: string -> PathKind) {
    && !LineFails(line, package)
    && rule.action == line.action
    && rule.lineNumber == line.lineNumber
    && Some(rule.path) == NormalizedRulePath(Expanded(line.path, package))
    && rule.redirectTarget == (if NeedsTarget(line.action)
                               then NormalizedRulePath(Expanded(line.redirectTarget, package)).value else "")
    && ExtensionsOf(rule.extensions, line.extensions)
    && WellFormed(rule)
    && (AnalyzeGlobPattern(rule.path).NoGlob? ==> rule.pathKind == InferCompiledRuleKind(line.path, rule.path, probe))
  }

  method NormalizeExtensions(extensions: seq<string>) returns (normalized: seq<string>)
    ensures ExtensionsOf(normalized, extensions)
  {
    var kept: seq<string> := [];
    var i := 0;
    while i < |extensions|
      invariant 0 <= i <= |extensions|
      invariant forall e: string :: e in kept <==> e != "" && exists p :: p in extensions[..i] && PlainExtension(p) == e
    {
      var extension := PlainExtension(extensions[i]);
      assert extensions[..i + 1] == extensions[..i] + [extensions[i]];
      if extension != "" {
        kept := kept + [extension];
      }
      i := i + 1;
    }
    assert extensions[..i] == extensions;
    normalized := SortUnique(kept);
  }

  predicate CleanText(line: ParsedRuleLine, package: string) {
    NUL !in line.path && NUL !in line.redirectTarget && NUL !in package
  }

  lemma {:induction false} ExpandedIsClean(text: string, package: string)
    requires NUL !in text && NUL !in package
    ensures NUL !in Expanded(text, package)
  {
    if text != "" {
      ExpandedIsClean(text[1..], package);
      if StartsWith(text, PACKAGE_PLACEHOLDER) {
        ExpandedIsClean(text[|PACKAGE_PLACEHOLDER|..], package);
      }
    }
  }

  method NormalizeExpanded(text: string, package: string) returns (path: Option<string>)
    requires NUL !in text && NUL !in package
    ensures path == NormalizedRulePath(Expanded(text, package))
  {
    var expanded := ExpandPackagePlaceholder(text, package);
    ExpandedIsClean(text, package);
    path := NormalizeRulePath(expanded);
  }

  method CompileLine(line: ParsedRuleLine, package: string, probe: string -> PathKind, ruleIndex: nat)
    returns (compiled: Option<CompiledRule>)
    requires CleanText(line, package)
    ensures compiled.None? <==> LineFails(line, package)
    ensures compiled.Some? ==> CompiledFrom(compiled.value, line, package, probe) && compiled.value.ruleIndex == ruleIndex
  {
    var path := NormalizeExpanded(line.path, package);
    if path.None? {
      return None;
    }
    var shape := AnalyzeGlobPattern(path.value);
    if shape.InvalidGlob? {
      return None;
    }
    var target := "";
    if NeedsTarget(line.action) {
      var normalized := NormalizeExpanded(line.redirectTarget, package);
      if normalized.None? || HasGlobChars(normalized.value) {
        return None;
      }
      target := normalized.value;
    }
    var extensions := NormalizeExtensions(line.extensions);
    var kind := if shape.NoGlob? then InferCompiledRuleKind(line.path, path.value, probe) else File;
    compiled := Some(match shape
      case FileNameGlob(parent, pattern) =>
        CompiledRule(line.action, path.value, target, extensions, true, false, parent, pattern, parent, kind, line.lineNumber, ruleIndex)
      case WholePathGlob(base) =>
        CompiledRule(line.action, path.value, target, extensions, false, true, "", "", base, kind, line.lineNumber, ruleIndex)
      case NoGlob =>
        CompiledRule(line.action, path.value, target, extensions, false, false, "", "", "", kind, line.lineNumber, ruleIndex));
  }
}
