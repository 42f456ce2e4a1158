/** The compiled policy of one app, and the decision it makes for one access (native/rule_engine.cpp, lines 1311-1676 and 1706-1834). */
module Policy {
  import opened Options
  import opened Text
  import opened Sorting
  import opened PathMapper
  import opened PathGlob
  import opened PathKindCache
  import opened Rules
  import opened Precedence
  import opened PolicyIndex
  import opened IndexRefinement
  import opened Buckets
  import opened Whitelist
  import opened Redirect
  import opened ParsedRules
  import opened RuleCompiler
  import Glob

  datatype MatchDecision = NoMatch | Allowed | Blocked | Redirected

  datatype MatchResult = MatchResult(
    decision: MatchDecision,
    redirectPath: string,
    resolvedKind: PathKind,
    matchedRule: Option<CompiledRule>
  )

  function NoRule(decision: MatchDecision): MatchResult {
    MatchResult(decision, "", Auto, None)
  }

  /** What a hit means. */
  function OutcomeOf(rule: CompiledRule, q: Query): MatchResult {
    var kind := HitKind(rule, q);
    match rule.action
    case Deny => MatchResult(Blocked, "", kind, Some(rule))
    case Redirect =>
      var target := BuildRedirectPath(rule, q.path, kind);
      MatchResult(Redirected, if target.Some? then target.value else "", kind, Some(rule))
    case _ => MatchResult(Allowed, "", kind, Some(rule))
  }

  /** The decision once it is known which rule hits. */
  ghost function Decide(hit: Option<CompiledRule>, q: Query, mode: PolicyMode, g: Grants, granted: seq<string>): MatchResult {
    match hit
    case Some(rule) => OutcomeOf(rule, q)
    case None =>
      NoRule(if mode == Whitelist && !ImplicitlyAllowed(g, granted, q.path) then Blocked else Allowed)
  }

  /** What the rule that decides, if there is one, makes of the access: a deny blocks, an allow and a dynamic redirect allow, a
    redirect redirects to where its shape says. Without a rule, only a whitelist blocks what it does not allow by itself. */
  ghost predicate DecidedBy(result: MatchResult, hit: Option<CompiledRule>, q: Query, mode: PolicyMode, g: Grants, granted: seq<string>) {
    && result.matchedRule == hit
    && match hit
       case Some(rule) =>
         && result.resolvedKind == HitKind(rule, q)
         && (result.decision == Blocked <==> rule.action == Deny)
         && (result.decision == Redirected <==> rule.action == Redirect)
         && (result.decision == Allowed <==> rule.action == Allow || rule.action == RedirectDynamic)
         && (if rule.action == Redirect then GoesTo(rule, q.path, result.resolvedKind, result.redirectPath) else result.redirectPath == "")
       case None =>
         && (result.decision == Blocked <==> mode == Whitelist && !ImplicitlyAllowed(g, granted, q.path))
         && (result.decision == Allowed <==> mode == Blacklist || ImplicitlyAllowed(g, granted, q.path))
         && result.redirectPath == ""
  }

  lemma DecideIsDecidedBy(hit: Option<CompiledRule>, q: Query, mode: PolicyMode, g: Grants, granted: seq<string>)
    requires hit.Some? ==> Hits(hit.value, q)
    ensures DecidedBy(Decide(hit, q, mode, g, granted), hit, q, mode, g, granted)
  {
    hide Matched, AllowsType, ImplicitlyAllowed, GoesTo, BuildRedirectPath;
    if hit.Some? {
      TargetIs(hit.value, q);
    }
  }

  /** Which rule decides: the index is searched for paths of shared storage, the ordered rules for any other. */
  ghost function HitFor(ordered: seq<CompiledRule>, q: Query): Option<CompiledRule> {
    if IsExternal(q.path) then IndexedHit(ordered, q) else FirstHit(ordered, q)
  }

  lemma HitForHits(ordered: seq<CompiledRule>, q: Query)
    ensures HitFor(ordered, q).Some? ==> HitFor(ordered, q).value in ordered && Hits(HitFor(ordered, q).value, q)
  {
    hide Hits, At, Searched;
    SearchedByDepth(q.path);
    FoundUnderItsSlot(Searched(q.path), ordered, q);
  }

  // ---------------------------------------------------------------------------
  // The cache during one access

  /** The cache has only learnt the access's own kind, and no rule's kind has changed. */
  ghost predicate Learnt(q: Query, now: map<string, PathKind>) {
    && (forall p :: AutoKind(q.(cached := now), p) == AutoKind(q, p))
    && (q.kind == Auto ==> now == q.cached)
    && (forall p :: p in q.cached ==> p in now && (q.cached[p] != Auto ==> now[p] == q.cached[p]))
    && (forall p :: p in now && (p !in q.cached || now[p] != q.cached[p]) ==> now[p] == q.kind)
  }

  /** One access seen by the cache: what it learns depends on the access, and only ever adds the access's own kind. */
  ghost predicate CacheStep(before: map<string, PathKind>, path: string, after: map<string, PathKind>) {
    || after == before
    || exists kind: PathKind :: LearntFrom(before, path, kind, after)
  }

  ghost predicate LearntFrom(before: map<string, PathKind>, path: string, kind: PathKind, after: map<string, PathKind>) {
    kind != Auto && Learnt(Query(path, kind, before[path := kind]), after)
  }

  /** The first thing the matcher does with a cache: note the access's own kind under its path. */
  function Noted(cached: map<string, PathKind>, path: string, kind: PathKind): map<string, PathKind> {
    if kind == Auto then cached else cached[path := kind]
  }

  ghost predicate NotedIn(q: Query, cache: ResolvedPathKindCache?) {
    cache != null && q.kind != Auto ==> q.path in q.cached && q.cached[q.path] == q.kind
  }

  lemma NothingLearntYet(q: Query)
    ensures Learnt(q, q.cached)
  {
  }

  /** What one access does to the cache as a whole. */
  lemma LearntByAccess(before: map<string, PathKind>, q: Query, absent: bool, after: map<string, PathKind>)
    requires absent ==> before == map[] && after == map[]
    requires !absent ==> q.cached == Noted(before, q.path, q.kind) && Learnt(q, after)
    ensures CacheStep(before, q.path, after)
    ensures q.kind == Auto ==> after == before
    ensures NoAuto(before) ==> NoAuto(after)
  {
    if !absent && q.kind != Auto {
      assert LearntFrom(before, q.path, q.kind, after);
    }
  }

  /** What trying one rule teaches the cache: the kind of the access, under the path of a rule of unknown kind, unless the
    cache knows another path's kind already. */
  function Taught(rule: CompiledRule, q: Query, cached: map<string, PathKind>): map<string, PathKind> {
    if rule.pathKind == Auto && q.kind != Auto && (q.path == rule.path || rule.path !in cached || cached[rule.path] == Auto)
    then cached[rule.path := q.kind] else cached
  }

  /** What trying the rules in turn teaches it, up to the one that hits. */
  ghost function TaughtBy(rules: seq<CompiledRule>, q: Query, cached: map<string, PathKind>): map<string, PathKind> {
    if rules == [] then cached
    else if rules[0].action == Delete then TaughtBy(rules[1..], q, cached)
    else if Hits(rules[0], q) then Taught(rules[0], q, cached)
    else TaughtBy(rules[1..], q, Taught(rules[0], q, cached))
  }

  /** The rules filed under the slots, in the order in which they are tried. */
  function FiledIn(slots: seq<Slot>, ordered: seq<CompiledRule>): seq<CompiledRule> {
    if slots == [] then [] else At(ordered, slots[0]) + FiledIn(slots[1..], ordered)
  }

  /** The rules that an access tries, one after the other. */
  function Tried(ordered: seq<CompiledRule>, path: string): seq<CompiledRule> {
    if IsExternal(path) then FiledIn(Searched(path), ordered) else ordered
  }

  lemma {:induction false} TaughtInTurn(first: seq<CompiledRule>, second: seq<CompiledRule>, q: Query, cached: map<string, PathKind>)
    ensures TaughtBy(first + second, q, cached) ==
      if FirstHit(first, q).Some? then TaughtBy(first, q, cached) else TaughtBy(second, q, TaughtBy(first, q, cached))
    decreases |first|
  {
    hide Hits, Taught;
    if first == [] {
      assert first + second == second;
    } else {
      assert (first + second)[1..] == first[1..] + second;
      assert !Hits(first[0], q) ==> FirstHit(first, q) == FirstHit(first[1..], q);
      TaughtInTurn(first[1..], second, q, if first[0].action == Delete then cached else Taught(first[0], q, cached));
      if first[0].action == Delete {
        DeleteNeverHits(first[0], q);
      }
    }
  }

  lemma DeleteNeverHits(rule: CompiledRule, q: Query)
    requires rule.action == Delete
    ensures !Hits(rule, q)
  {
    hide Matched, AllowsType;
  }

  lemma NextSlotTeaches(slots: seq<Slot>, ordered: seq<CompiledRule>, q: Query, cached: map<string, PathKind>)
    requires slots != []
    ensures TaughtBy(FiledIn(slots, ordered), q, cached) ==
      if FirstHit(At(ordered, slots[0]), q).Some? then TaughtBy(At(ordered, slots[0]), q, cached)
      else TaughtBy(FiledIn(slots[1..], ordered), q, TaughtBy(At(ordered, slots[0]), q, cached))
  {
    hide TaughtBy, FirstHit, At;
    TaughtInTurn(At(ordered, slots[0]), FiledIn(slots[1..], ordered), q, cached);
  }

  /** The slots in the order in which they are searched; one under which nothing is filed can be passed over. */
  lemma SlotsInOrder(path: string, ordered: seq<CompiledRule>)
    ensures Searched(path) ==
      match ExternalSegments(path)
      case None => [RootSlot]
      case Some((top, second)) =>
        if second != "" then [SecondSlot(top, second), TopSlot(top), RootSlot] else [TopSlot(top), RootSlot]
    ensures forall slots: seq<Slot> :: slots != [] && At(ordered, slots[0]) == [] ==>
      FiledIn(slots, ordered) == FiledIn(slots[1..], ordered)
    ensures forall a: Slot, b: Slot :: [a, b][1..] == [b]
    ensures forall a: Slot, b: Slot, c: Slot :: [a, b, c][1..] == [b, c]
  {
    hide ExternalSegments;
    forall slots: seq<Slot> | slots != [] && At(ordered, slots[0]) == []
      ensures FiledIn(slots, ordered) == FiledIn(slots[1..], ordered)
    {
      assert [] + FiledIn(slots[1..], ordered) == FiledIn(slots[1..], ordered);
    }
  }

  lemma NothingTeaches(ordered: seq<CompiledRule>, q: Query, cached: map<string, PathKind>)
    ensures TaughtBy(FiledIn([RootSlot][1..], ordered), q, cached) == cached
  {
  }

  method ResolveEffectiveRuleKind(rule: CompiledRule, cache: ResolvedPathKindCache?, ghost q: Query,
                                  input: string, contextKind: PathKind)
    returns (kind: PathKind)
    requires q.path == input && q.kind == contextKind
    requires NotedIn(q, cache) && Learnt(q, View(cache))
    modifies cache
    ensures kind == EffectiveKind(rule, q)
    ensures Learnt(q, View(cache))
    ensures cache != null ==> View(cache) == Taught(rule, q, old(View(cache)))
  {
    if rule.pathKind != Auto {
      return rule.pathKind;
    }
    assert AutoKind(q.(cached := View(cache)), rule.path) == AutoKind(q, rule.path);
    if contextKind != Auto && input == rule.path {
      if cache != null {
        cache.Put(rule.path, contextKind);
      }
      return contextKind;
    }
    if cache != null {
      var cached := cache.TryGet(rule.path);
      if cached.Some? && cached.value != Auto {
        return cached.value;
      }
    }
    if contextKind != Auto {
      if cache != null {
        cache.Put(rule.path, contextKind);
      }
      return contextKind;
    }
    return Directory;
  }

  method MatchesTypeFilter(rule: CompiledRule, path: string) returns (allowed: bool)
    requires StrictlySorted(rule.extensions)
    ensures allowed <==> AllowsType(rule.extensions, path)
  {
    if rule.extensions == [] {
      return true;
    }
    var slash := LastIndex(path, '/');
    var dot := LastIndex(path, '.');
    if dot < 0 || (slash >= 0 && dot <= slash) || dot + 1 >= |path| {
      return false;
    }
    allowed := BinarySearch(rule.extensions, Lower(path[dot + 1..]));
  }

  method RuleMatches(rule: CompiledRule, input: string, kind: PathKind, ghost q: Query) returns (matched: bool)
    requires q.path == input && kind == EffectiveKind(rule, q)
    ensures matched <==> Matched(rule, q)
  {
    if rule.hasPathGlob {
      if !StartsWith(input, rule.globBasePrefix) {
        return false;
      }
      matched := EngineMatchPathGlob(rule.path, input);
    } else if rule.hasGlob {
      var slash := LastIndex(input, '/');
      if slash < 0 || slash + 1 >= |input| || input[..slash] != rule.globParent {
        return false;
      }
      var accepted, _ := Glob.MatchGlob(rule.globPattern, input[slash + 1..]);
      return accepted;
    } else if kind == File {
      matched := input == rule.path;
    } else {
      matched := IsDirectoryMatch(input, rule.path);
    }
  }

  ghost predicate ExtensionsSorted(rules: seq<CompiledRule>) {
    forall r :: r in rules ==> StrictlySorted(r.extensions)
  }

  /** Tries the rules in turn. The redirect branch never falls through to the next rule: a match has a target. */
  method MatchRules(rules: seq<CompiledRule>, input: string, contextKind: PathKind, cache: ResolvedPathKindCache?, ghost q: Query)
    returns (result: Option<MatchResult>)
    requires q.path == input && q.kind == contextKind
    requires NotedIn(q, cache) && Learnt(q, View(cache))
    requires ExtensionsSorted(rules)
    modifies cache
    ensures Learnt(q, View(cache))
    ensures cache != null ==> View(cache) == TaughtBy(rules, q, old(View(cache)))
    ensures result == match FirstHit(rules, q) case None => None case Some(rule) => Some(OutcomeOf(rule, q))
  {
    hide Learnt, NotedIn, Taught;
    var i := 0;
    while i < |rules|
      invariant 0 <= i <= |rules|
      invariant Learnt(q, View(cache))
      invariant cache != null ==> TaughtBy(rules[i..], q, View(cache)) == TaughtBy(rules, q, old(View(cache)))
      invariant FirstHit(rules[i..], q) == FirstHit(rules, q)
    {
      var rule := rules[i];
      assert rules[i..][0] == rule && rules[i..][1..] == rules[i + 1..];
      i := i + 1;
      if rule.action == Delete {
        continue;
      }
      var kind := ResolveEffectiveRuleKind(rule, cache, q, input, contextKind);
      var matched := RuleMatches(rule, input, kind, q);
      if !matched {
        continue;
      }
      if rule.hasGlob || rule.hasPathGlob {
        kind := File;
      }
      var allowed := MatchesTypeFilter(rule, input);
      if !allowed {
        continue;
      }
      match rule.action {
        case Deny =>
          return Some(MatchResult(Blocked, "", kind, Some(rule)));
        case Allow =>
          return Some(MatchResult(Allowed, "", kind, Some(rule)));
        case Redirect =>
          var target := BuildRedirectPath(rule, input, kind);
          MatchHasTarget(rule, q);
          return Some(MatchResult(Redirected, target.value, kind, Some(rule)));
        case RedirectDynamic =>
          return Some(MatchResult(Allowed, "", kind, Some(rule)));
      }
    }
    return None;
  }

  // ---------------------------------------------------------------------------
  // The policy

  datatype CompileError =
    | ParseErrors
    | NoMatchingPolicy
    | BadTrashDir
    | BadRule(lineNumber: nat)
    | BadAccessible(lineNumber: nat)
    | BadExport(lineNumber: nat)

  datatype CompiledFolder = CompiledFolder(
    id: string,
    anchorPackage: string,
    fromPackage: string,
    toPackage: string,
    path: string,
    description: string,
    pathKind: PathKind,
    lineNumber: nat
  )

  datatype CompiledExport = CompiledExport(
    id: string,
    packageName: string,
    sourcePath: string,
    targetPath: string,
    title: string,
    mediaScan: bool,
    addToDownloads: bool,
    allowChild: bool,
    description: string,
    pathKind: PathKind,
    lineNumber: nat
  )

  predicate IsProcessMatch(package: string, process: string) {
    StartsWith(process, package) && (|process| == |package| || process[|package|] == ':')
  }

  /** The first enabled section that names the process. */
  function MatchingSection(sections: seq<ParsedSection>, process: string): Option<ParsedSection> {
    if sections == [] then None
    else if sections[0].enabled && IsProcessMatch(sections[0].packageName, process) then Some(sections[0])
    else MatchingSection(sections[1..], process)
  }

  /** The process name without what an app puts behind a colon to tell its processes apart. */
  function PackagePart(process: string): string {
    var colon := FirstIndex(process, ':');
    if colon < 0 then process else process[..colon]
  }

  /** A name matches a process exactly when the two are equal or the process goes on behind it with a colon. */
  lemma ProcessMatches(package: string, process: string)
    ensures IsProcessMatch(package, process) <==> process == package || StartsWith(process, package + ":")
    ensures ':' !in package ==> (IsProcessMatch(package, process) <==> package == PackagePart(process))
  {
    hide FirstIndex;
    if StartsWith(process, package) && |process| > |package| && process[|package|] == ':' {
      assert process[..|package| + 1] == package + ":";
    }
    if StartsWith(process, package + ":") {
      assert process[..|package| + 1][..|package|] == package && process[..|package| + 1][|package|] == ':';
    }
    if ':' !in package && StartsWith(process, package) {
      assert forall i :: 0 <= i < |package| ==> process[i] == package[i];
    }
    var colon := FirstIndex(process, ':');
    if package == PackagePart(process) && colon >= 0 {
      assert process[..colon] == package;
    }
  }

  predicate ColonFree(sections: seq<ParsedSection>) {
    forall s :: s in sections ==> ':' !in s.packageName
  }

  /** No enabled section has the package part of the process for its name. */
  predicate NoneNamed(sections: seq<ParsedSection>, process: string) {
    forall s :: s in sections ==> !s.enabled || s.packageName != PackagePart(process)
  }

  /** The section that is found: the first enabled one that the package part of the process names, and none only when there
    is no such section. */
  lemma {:induction false} MatchingSectionIs(sections: seq<ParsedSection>, process: string)
    requires ColonFree(sections)
    ensures var found := MatchingSection(sections, process);
      && (found.None? <==> NoneNamed(sections, process))
      && (found.Some? ==> exists i :: IsFirstNamed(sections, i, process, found.value))
  {
    hide IsProcessMatch, PackagePart;
    if sections != [] {
      var rest := sections[1..];
      ProcessMatches(sections[0].packageName, process);
      MatchingSectionIs(rest, process);
      var found := MatchingSection(sections, process);
      assert sections == [sections[0]] + rest;
      if found.Some? {
        if sections[0].enabled && IsProcessMatch(sections[0].packageName, process) {
          assert IsFirstNamed(sections, 0, process, found.value);
        } else {
          var i :| IsFirstNamed(rest, i, process, found.value);
          assert IsFirstNamed(sections, i + 1, process, found.value);
        }
      }
    }
  }

  ghost predicate IsFirstNamed(sections: seq<ParsedSection>, i: int, process: string, section: ParsedSection) {
    && 0 <= i < |sections| && sections[i] == section && section.enabled && section.packageName == PackagePart(process)
    && forall j :: 0 <= j < i ==> !sections[j].enabled || sections[j].packageName != PackagePart(process)
  }

  /** So a process has no policy exactly when a text has errors, or no enabled section has the package part for its name. */
  lemma PolicyForProcess(parsed: ParsedRules, process: string)
    requires ColonFree(parsed.sections)
    ensures CompileFailure(parsed, process) == Some(ParseErrors) <==> parsed.errors != []
    ensures CompileFailure(parsed, process) == Some(NoMatchingPolicy) <==>
      parsed.errors == [] && NoneNamed(parsed.sections, process)
    ensures MatchingSection(parsed.sections, process).Some? ==>
      MatchingSection(parsed.sections, process).value.packageName == PackagePart(process)
  {
    hide MatchingSection, PackagePart, FirstBadLine, TrashDir, AccessibleFolders, FirstBadExport;
    MatchingSectionIs(parsed.sections, process);
  }

  /** The ways to fail, in turn, and what a process without a policy means. */
  lemma FailureSteps(parsed: ParsedRules, process: string)
    ensures parsed.errors != [] ==> CompileFailure(parsed, process) == Some(ParseErrors)
    ensures parsed.errors == [] ==>
      match MatchingSection(parsed.sections, process)
      case None => CompileFailure(parsed, process) == Some(NoMatchingPolicy)
      case Some(section) => CompileFailure(parsed, process) == SectionFailure(section, parsed, process)
    ensures ColonFree(parsed.sections) ==>
      && (CompileFailure(parsed, process) == Some(NoMatchingPolicy) <==>
            parsed.errors == [] && NoneNamed(parsed.sections, process))
      && (MatchingSection(parsed.sections, process).Some? ==>
            MatchingSection(parsed.sections, process).value.packageName == PackagePart(process))
  {
    hide MatchingSection, PackagePart, SectionFailure, NoneNamed;
    if ColonFree(parsed.sections) {
      PolicyForProcess(parsed, process);
    }
  }

  /** A folder is shared with the processes of the package that it names, unless the package that shares it is switched off. */
  lemma AppliesTo(section: ParsedAccessibleSection, sections: seq<ParsedSection>, process: string)
    requires ':' !in section.toPackage && ':' !in section.anchorPackage
    ensures Applies(section, sections, process) <==>
      && IsPackageEnabled(sections, section.anchorPackage)
      && PackagePart(process) == (if section.toPackage != "" then section.toPackage else section.anchorPackage)
  {
    hide PackagePart, IsPackageEnabled;
    ProcessMatches(EffectiveTo(section), process);
  }

  /** A package is on unless the first section of its name is switched off. */
  lemma {:induction false} PackageIsOff(sections: seq<ParsedSection>, package: string)
    ensures !IsPackageEnabled(sections, package) <==> exists i :: IsFirstAndOff(sections, i, package)
  {
    if sections != [] {
      var rest := sections[1..];
      PackageIsOff(rest, package);
      if i :| IsFirstAndOff(rest, i, package) {
        assert sections[0].packageName != package ==> IsFirstAndOff(sections, i + 1, package);
      }
      if i :| IsFirstAndOff(sections, i, package) {
        assert i > 0 ==> IsFirstAndOff(rest, i - 1, package);
      }
      assert sections[0].packageName == package && !sections[0].enabled ==> IsFirstAndOff(sections, 0, package);
    }
  }

  ghost predicate IsFirstAndOff(sections: seq<ParsedSection>, i: int, package: string) {
    && 0 <= i < |sections| && sections[i].packageName == package && !sections[i].enabled
    && forall j :: 0 <= j < i ==> sections[j].packageName != package
  }

  predicate IsPackageEnabled(sections: seq<ParsedSection>, package: string) {
    sections == [] ||
    (if sections[0].packageName == package then sections[0].enabled else IsPackageEnabled(sections[1..], package))
  }

  function EffectiveTo(section: ParsedAccessibleSection): string {
    if section.toPackage == "" then section.anchorPackage else section.toPackage
  }

  predicate Applies(section: ParsedAccessibleSection, sections: seq<ParsedSection>, process: string) {
    IsPackageEnabled(sections, section.anchorPackage) && IsProcessMatch(EffectiveTo(section), process)
  }

  function AccessiblePath(section: ParsedAccessibleSection): Option<string> {
    var path := NormalizedRulePath(Expanded(section.path, section.anchorPackage));
    if path.Some? && HasGlobChars(path.value) then None else path
  }

  /** The lines of one of the two lists the compiler splits a section into. */
  function LinesOf(lines: seq<ParsedRuleLine>, deletes: bool): seq<ParsedRuleLine> {
    if lines == [] then []
    else (if (lines[0].action == Delete) == deletes then [lines[0]] else []) + LinesOf(lines[1..], deletes)
  }

  /** The first line that cannot be compiled. */
  function FirstBadLine(lines: seq<ParsedRuleLine>, package: string): Option<nat> {
    if lines == [] then None
    else if LineFails(lines[0], package) then Some(lines[0].lineNumber)
    else FirstBadLine(lines[1..], package)
  }

  /** A shared folder as its section says it; missing partners are the anchor package. */
  function FolderOf(section: ParsedAccessibleSection): CompiledFolder
    requires AccessiblePath(section).Some?
  {
    CompiledFolder(section.ruleId, section.anchorPackage,
                   if section.fromPackage == "" then section.anchorPackage else section.fromPackage,
                   EffectiveTo(section), AccessiblePath(section).value, section.description, Directory, section.lineNumber)
  }

  datatype Collected = Folders(folders: seq<CompiledFolder>) | Bad(lineNumber: nat)

  function PathsOf(folders: seq<CompiledFolder>): (paths: seq<string>) {
    seq(|folders|, i requires 0 <= i < |folders| => folders[i].path)
  }

  /** The folders shared with the process, or the first of them that cannot be used. */
  function AccessibleFolders(shared: seq<ParsedAccessibleSection>, sections: seq<ParsedSection>, process: string): Collected {
    if shared == [] then Folders([])
    else if !Applies(shared[0], sections, process) then AccessibleFolders(shared[1..], sections, process)
    else if AccessiblePath(shared[0]).None? then Bad(shared[0].lineNumber)
    else
      match AccessibleFolders(shared[1..], sections, process)
      case Bad(line) => Bad(line)
      case Folders(folders) => Folders([FolderOf(shared[0])] + folders)
  }

  /** Where deleted files go; none if the section's directory cannot be used. */
  function TrashDir(section: ParsedSection): Option<string> {
    if section.trashDir == "" then Some("") else NormalizedRulePath(Expanded(section.trashDir, section.packageName))
  }

  predicate IsOwnExport(e: ParsedExportSection, sections: seq<ParsedSection>, package: string) {
    IsPackageEnabled(sections, e.anchorPackage) && e.anchorPackage == package
  }

  function PlainPath(path: string, package: string): Option<string> {
    var normalized := NormalizedRulePath(Expanded(path, package));
    if normalized.Some? && HasGlobChars(normalized.value) then None else normalized
  }

  function ExportKind(e: ParsedExportSection, source: string, probe: string -> PathKind): PathKind {
    var kind := InferCompiledRuleKind(e.sourcePath, source, probe);
    if kind == Auto then Directory else kind
  }

  function ExportOf(e: ParsedExportSection, probe: string -> PathKind): Option<CompiledExport> {
    var source, target := PlainPath(e.sourcePath, e.anchorPackage), PlainPath(e.targetPath, e.anchorPackage);
    if source.None? || target.None? then None
    else Some(CompiledExport(e.ruleId, e.anchorPackage, source.value, target.value,
                             if e.title == "" then e.ruleId else e.title, e.mediaScan, e.addToDownloads, e.allowChild,
                             e.description, ExportKind(e, source.value, probe), e.lineNumber))
  }

  predicate ExportFails(e: ParsedExportSection) {
    PlainPath(e.sourcePath, e.anchorPackage).None? || PlainPath(e.targetPath, e.anchorPackage).None?
  }

  /** The first of the package's own exported folders that cannot be used. */
  function FirstBadExport(exports: seq<ParsedExportSection>, sections: seq<ParsedSection>, package: string): Option<nat> {
    if exports == [] then None
    else if IsOwnExport(exports[0], sections, package) && ExportFails(exports[0]) then Some(exports[0].lineNumber)
    else FirstBadExport(exports[1..], sections, package)
  }

  /** The package's own exported folders, in order. */
  function OwnExports(exports: seq<ParsedExportSection>, sections: seq<ParsedSection>, package: string, probe: string -> PathKind)
    : seq<CompiledExport>
  {
    if exports == [] then []
    else
      var rest := OwnExports(exports[1..], sections, package, probe);
      if IsOwnExport(exports[0], sections, package) && ExportOf(exports[0], probe).Some?
      then [ExportOf(exports[0], probe).value] + rest else rest
  }

  predicate Clean(parsed: ParsedRules) {
    && (forall s :: s in parsed.sections ==> CleanSection(s))
    && (forall a :: a in parsed.accessibleSections ==> NUL !in a.path && NUL !in a.anchorPackage)
    && (forall e :: e in parsed.exportSections ==> NUL !in e.sourcePath && NUL !in e.targetPath && NUL !in e.anchorPackage)
  }

  method FindMatchingSection(sections: seq<ParsedSection>, process: string) returns (section: Option<ParsedSection>)
    ensures section == MatchingSection(sections, process)
    ensures section.Some? ==> section.value in sections
    ensures ColonFree(sections) ==>
      && (section.None? <==> NoneNamed(sections, process))
      && (section.Some? ==> exists i :: IsFirstNamed(sections, i, process, section.value))
  {
    if ColonFree(sections) {
      MatchingSectionIs(sections, process);
    }
    hide PackagePart, IsFirstNamed;
    var i := 0;
    while i < |sections|
      invariant 0 <= i <= |sections|
      invariant MatchingSection(sections[i..], process) == MatchingSection(sections, process)
    {
      if sections[i].enabled && IsProcessMatch(sections[i].packageName, process) {
        return Some(sections[i]);
      }
      assert sections[i..][1..] == sections[i + 1..];
      i := i + 1;
    }
    return None;
  }

  method CollectAccessible(shared: seq<ParsedAccessibleSection>, sections: seq<ParsedSection>, process: string)
    returns (collected: Collected)
    requires forall a :: a in shared ==> NUL !in a.path && NUL !in a.anchorPackage
    ensures collected == AccessibleFolders(shared, sections, process)
  {
    hide Applies, AccessiblePath, AccessibleFolders, NormalizedRulePath, HasGlobChars;
    var folders: seq<CompiledFolder> := [];
    var i := 0;
    NoFolders(sections, process);
    while i < |shared|
      invariant 0 <= i <= |shared|
      invariant AccessibleFolders(shared, sections, process) == After(folders, AccessibleFolders(shared[i..], sections, process))
    {
      var section := shared[i];
      NextFolder(shared, i, sections, process, folders);
      if Applies(section, sections, process) {
        var path := NormalizeExpanded(section.path, section.anchorPackage);
        AccessiblePathIs(section, path);
        if path.None? || HasGlobChars(path.value) {
          return Bad(section.lineNumber);
        }
        var from := if section.fromPackage == "" then section.anchorPackage else section.fromPackage;
        folders := folders + [CompiledFolder(section.ruleId, section.anchorPackage, from, EffectiveTo(section), path.value,
                                             section.description, Directory, section.lineNumber)];
      }
      i := i + 1;
    }
    assert shared[i..] == [] && folders + [] == folders;
    return Folders(folders);
  }

  lemma AccessiblePathIs(section: ParsedAccessibleSection, path: Option<string>)
    requires path == NormalizedRulePath(Expanded(section.path, section.anchorPackage))
    ensures AccessiblePath(section) == if path.None? || HasGlobChars(path.value) then None else path
  {
  }

  function After(folders: seq<CompiledFolder>, more: Collected): Collected {
    match more case Bad(line) => Bad(line) case Folders(rest) => Folders(folders + rest)
  }

  lemma NoFolders(sections: seq<ParsedSection>, process: string)
    ensures AccessibleFolders([], sections, process) == Folders([])
    ensures forall more: Collected :: After([], more) == more
  {
    forall more: Collected ensures After([], more) == more {
      if more.Folders? {
        assert [] + more.folders == more.folders;
      }
    }
  }

  lemma NextFolder(shared: seq<ParsedAccessibleSection>, i: nat, sections: seq<ParsedSection>, process: string,
                   folders: seq<CompiledFolder>)
    requires i < |shared|
    ensures var now, later := AccessibleFolders(shared[i..], sections, process), AccessibleFolders(shared[i + 1..], sections, process);
      After(folders, now) ==
        if !Applies(shared[i], sections, process) then After(folders, later)
        else if AccessiblePath(shared[i]).None? then Bad(shared[i].lineNumber)
        else After(folders + [FolderOf(shared[i])], later)
  {
    hide Applies, AccessiblePath;
    assert shared[i..][0] == shared[i] && shared[i..][1..] == shared[i + 1..];
    var later := AccessibleFolders(shared[i + 1..], sections, process);
    if later.Folders? && AccessiblePath(shared[i]).Some? {
      var folder := FolderOf(shared[i]);
      assert folders + ([folder] + later.folders) == (folders + [folder]) + later.folders;
    }
  }

  method NormalizePlain(path: string, package: string) returns (plain: Option<string>)
    requires NUL !in path && NUL !in package
    ensures plain == PlainPath(path, package)
  {
    plain := NormalizeExpanded(path, package);
    if plain.Some? && HasGlobChars(plain.value) {
      plain := None;
    }
  }

  method CollectExports(exports: seq<ParsedExportSection>, sections: seq<ParsedSection>, package: string, probe: string -> PathKind)
    returns (bad: Option<nat>, rules: seq<CompiledExport>)
    requires forall e :: e in exports ==> NUL !in e.sourcePath && NUL !in e.targetPath && NUL !in e.anchorPackage
    ensures bad == FirstBadExport(exports, sections, package)
    ensures bad.None? ==> rules == OwnExports(exports, sections, package, probe)
  {
    hide IsOwnExport, PlainPath, ExportKind;
    rules := [];
    var i := 0;
    while i < |exports|
      invariant 0 <= i <= |exports|
      invariant FirstBadExport(exports[i..], sections, package) == FirstBadExport(exports, sections, package)
      invariant rules + OwnExports(exports[i..], sections, package, probe) == OwnExports(exports, sections, package, probe)
    {
      var e := exports[i];
      NextExport(exports, i, sections, package, probe, rules);
      if IsOwnExport(e, sections, package) {
        var source := NormalizePlain(e.sourcePath, e.anchorPackage);
        if source.None? {
          return Some(e.lineNumber), rules;
        }
        var target := NormalizePlain(e.targetPath, e.anchorPackage);
        if target.None? {
          return Some(e.lineNumber), rules;
        }
        var title := if e.title == "" then e.ruleId else e.title;
        rules := rules + [CompiledExport(e.ruleId, e.anchorPackage, source.value, target.value, title, e.mediaScan,
                                         e.addToDownloads, e.allowChild, e.description, ExportKind(e, source.value, probe),
                                         e.lineNumber)];
      }
      i := i + 1;
    }
    assert exports[i..] == [];
    bad := None;
  }

  lemma NextExport(exports: seq<ParsedExportSection>, i: nat, sections: seq<ParsedSection>, package: string,
                   probe: string -> PathKind, rules: seq<CompiledExport>)
    requires i < |exports|
    ensures FirstBadExport(exports[i..], sections, package) ==
      if IsOwnExport(exports[i], sections, package) && ExportFails(exports[i]) then Some(exports[i].lineNumber)
      else FirstBadExport(exports[i + 1..], sections, package)
    ensures rules + OwnExports(exports[i..], sections, package, probe) ==
      if IsOwnExport(exports[i], sections, package) && ExportOf(exports[i], probe).Some?
      then (rules + [ExportOf(exports[i], probe).value]) + OwnExports(exports[i + 1..], sections, package, probe)
      else rules + OwnExports(exports[i + 1..], sections, package, probe)
  {
    hide IsOwnExport, PlainPath, ExportOf, ExportFails;
    assert exports[i..][0] == exports[i] && exports[i..][1..] == exports[i + 1..];
    var rest := OwnExports(exports[i + 1..], sections, package, probe);
    if ExportOf(exports[i], probe).Some? {
      var own := ExportOf(exports[i], probe).value;
      assert rules + ([own] + rest) == (rules + [own]) + rest;
    }
  }

  /** Compiles the lines of a section into its access rules and its delete rules. */
  method CompileLines(lines: seq<ParsedRuleLine>, package: string, probe: string -> PathKind)
    returns (bad: Option<nat>, rules: seq<CompiledRule>, deletes: seq<CompiledRule>)
    requires NUL !in package && forall l :: l in lines ==> NUL !in l.path && NUL !in l.redirectTarget
    ensures bad == FirstBadLine(lines, package)
    ensures bad.None? ==> RulesFrom(rules, LinesOf(lines, false), package, probe)
    ensures bad.None? ==> RulesFrom(deletes, LinesOf(lines, true), package, probe)
    ensures bad.None? ==> forall r :: r in rules ==> r.action != Delete
  {
    rules, deletes := [], [];
    var i := 0;
    ghost var accessLines: seq<ParsedRuleLine> := [];
    ghost var deleteLines: seq<ParsedRuleLine> := [];
    while i < |lines|
      invariant 0 <= i <= |lines|
      invariant FirstBadLine(lines[i..], package) == FirstBadLine(lines, package)
      invariant SplitSoFar(lines, i, accessLines, deleteLines)
      invariant RulesFrom(rules, accessLines, package, probe)
      invariant RulesFrom(deletes, deleteLines, package, probe)
      invariant forall r :: r in rules ==> r.action != Delete
    {
      var line := lines[i];
      SortNextLine(lines, i, accessLines, deleteLines);
      i := i + 1;
      var fine := true;
      if line.action == Delete {
        fine, deletes := AppendCompiled(deletes, line, package, probe, deleteLines);
        deleteLines := deleteLines + [line];
      } else {
        fine, rules := AppendCompiled(rules, line, package, probe, accessLines);
        accessLines := accessLines + [line];
      }
      if !fine {
        return Some(line.lineNumber), rules, deletes;
      }
    }
    bad := None;
    assert accessLines + [] == accessLines && deleteLines + [] == deleteLines;
  }

  method AppendCompiled(rules: seq<CompiledRule>, line: ParsedRuleLine, package: string, probe: string -> PathKind,
                        ghost lines: seq<ParsedRuleLine>)
    returns (fine: bool, more: seq<CompiledRule>)
    requires RulesFrom(rules, lines, package, probe) && CleanText(line, package)
    ensures fine <==> !LineFails(line, package)
    ensures fine ==> RulesFrom(more, lines + [line], package, probe)
    ensures fine ==> |more| == |rules| + 1 && more[..|rules|] == rules && more[|rules|].action == line.action
  {
    var compiled := CompileLine(line, package, probe, |rules|);
    if compiled.None? {
      return false, rules;
    }
    RulesFromMore(rules, lines, package, probe, compiled.value, line);
    return true, rules + [compiled.value];
  }

  ghost predicate SplitSoFar(lines: seq<ParsedRuleLine>, i: nat, access: seq<ParsedRuleLine>, deletes: seq<ParsedRuleLine>)
    requires i <= |lines|
  {
    && LinesOf(lines, false) == access + LinesOf(lines[i..], false)
    && LinesOf(lines, true) == deletes + LinesOf(lines[i..], true)
  }

  lemma SortNextLine(lines: seq<ParsedRuleLine>, i: nat, access: seq<ParsedRuleLine>, deletes: seq<ParsedRuleLine>)
    requires i < |lines| && SplitSoFar(lines, i, access, deletes)
    ensures lines[i].action == Delete ==> SplitSoFar(lines, i + 1, access, deletes + [lines[i]])
    ensures lines[i].action != Delete ==> SplitSoFar(lines, i + 1, access + [lines[i]], deletes)
  {
    assert lines[i..][1..] == lines[i + 1..];
  }

  lemma RulesFromFacts(rules: seq<CompiledRule>, lines: seq<ParsedRuleLine>, package: string, probe: string -> PathKind)
    requires RulesFrom(rules, lines, package, probe)
    ensures forall r :: r in rules ==> WellFormed(r) && StrictlySorted(r.extensions)
  {
    forall r | r in rules ensures WellFormed(r) && StrictlySorted(r.extensions) {
      var i :| 0 <= i < |rules| && rules[i] == r;
      assert CompiledFrom(rules[i], lines[i], package, probe);
    }
  }

  lemma RulesFromMore(rules: seq<CompiledRule>, lines: seq<ParsedRuleLine>, package: string, probe: string -> PathKind,
                      rule: CompiledRule, line: ParsedRuleLine)
    requires RulesFrom(rules, lines, package, probe)
    requires CompiledFrom(rule, line, package, probe) && rule.ruleIndex == |rules|
    ensures RulesFrom(rules + [rule], lines + [line], package, probe)
  {
  }

  /** The paths a whitelist policy leads to: those of its allow and redirect rules, then the accessible folders. */
  function Granted(rules: seq<CompiledRule>, accessiblePaths: seq<string>): seq<string> {
    if rules == [] then accessiblePaths
    else (if rules[0].action == Allow || NeedsTarget(rules[0].action) then [rules[0].path] else [])
         + Granted(rules[1..], accessiblePaths)
  }

  /** Line by line, the compiled rules come from the section's access rules. */
  ghost predicate RulesFrom(rules: seq<CompiledRule>, lines: seq<ParsedRuleLine>, package: string, probe: string -> PathKind) {
    && |rules| == |lines|
    && forall i :: 0 <= i < |rules| ==> CompiledFrom(rules[i], lines[i], package, probe) && rules[i].ruleIndex == i
  }

  class AppPolicy {
    var packageName: string
    var mode: PolicyMode
    var rules: seq<CompiledRule>
    var deleteRules: seq<CompiledRule>
    var trashDir: string
    var accessibleRules: seq<CompiledFolder>
    var exportRules: seq<CompiledExport>
    var deleteExisting: bool
    var deleteDirMode: DeleteDirMode
    var mediaQuery: MediaQueryMode
    var trashEnabled: bool
    var trashOnRedirect: bool
    var minAgeDays: int
    var minSizeMb: nat
    var orderedRules: seq<CompiledRule>
    var rootBuckets: seq<RootBucket>
    var externalRootRules: seq<CompiledRule>
    var grants: Grants

    ghost predicate Valid()
      reads this
    {
      && multiset(orderedRules) == multiset(rules)
      && SortedBy(orderedRules, ComesBefore)
      && (forall r :: r in orderedRules ==> WellFormed(r) && r.action != Delete)
      && ExtensionsSorted(orderedRules)
      && Holds(rootBuckets, orderedRules) && Sorted(rootBuckets)
      && externalRootRules == At(orderedRules, RootSlot)
      && (mode == Whitelist ==> GrantsHold(grants, Granted(rules, grants.accessiblePaths)))
    }

    constructor ()
      ensures Valid() && rules == [] && mode == Blacklist
    {
      packageName, mode, trashDir, exportRules := "", Blacklist, "", [];
      deleteExisting, deleteDirMode, mediaQuery := false, KeepDirs, AutoQuery;
      trashEnabled, trashOnRedirect, minAgeDays, minSizeMb := false, false, 0, 0;
      rules, deleteRules, orderedRules, rootBuckets, externalRootRules, accessibleRules := [], [], [], [], [], [];
      grants := Grants("", "", "", [], []);
    }

    /** Files every ordered rule in the index. */
    method BuildIndex()
      modifies this`rootBuckets, this`externalRootRules
      ensures Holds(rootBuckets, orderedRules) && Sorted(rootBuckets)
      ensures externalRootRules == At(orderedRules, RootSlot)
    {
      hide Holds, Distinct, At, SlotOf, Buckets.Sorted;
      rootBuckets, externalRootRules := [], [];
      var i := 0;
      NothingFiled();
      while i < |orderedRules|
        invariant 0 <= i <= |orderedRules|
        invariant Holds(rootBuckets, orderedRules[..i]) && Distinct(rootBuckets)
        invariant externalRootRules == At(orderedRules[..i], RootSlot)
      {
        var rule := orderedRules[i];
        assert orderedRules[..i + 1] == orderedRules[..i] + [rule];
        AtExtended(orderedRules[..i], rule, RootSlot);
        rootBuckets := AddRule(rootBuckets, rule, orderedRules[..i]);
        if SlotOf(rule) == RootSlot {
          externalRootRules := externalRootRules + [rule];
        }
        i := i + 1;
      }
      assert orderedRules[..i] == orderedRules;
      rootBuckets := SortBuckets(rootBuckets, orderedRules);
    }

    /** The bucketed search of MatchPath for a path of shared storage. */
    method SearchIndex(input: string, contextKind: PathKind, cache: ResolvedPathKindCache?, ghost q: Query)
      returns (result: Option<MatchResult>)
      requires Valid() && IsExternal(input)
      requires q.path == input && q.kind == contextKind
      requires NotedIn(q, cache) && Learnt(q, View(cache))
      modifies cache
      ensures Valid() && orderedRules == old(orderedRules)
      ensures Learnt(q, View(cache))
      ensures cache != null ==> View(cache) == TaughtBy(Tried(orderedRules, input), q, old(View(cache)))
      ensures result == match IndexedHit(orderedRules, q) case None => None case Some(rule) => Some(OutcomeOf(rule, q))
    {
      hide Holds, Buckets.Sorted, SortedBy, ExtensionsSorted, WellFormed, At, IndexedHit, OutcomeOf, Learnt, ExternalSegments;
      hide TaughtBy, FiledIn, NotedIn, FirstHit, Searched;
      result := None;
      IndexedHitInOrder(orderedRules, q);
      SlotsInOrder(input, orderedRules);
      var segments := ExternalSegments(input);
      if segments.Some? {
        var (top, second) := segments.value;
        var bucket := FindRootBucket(rootBuckets, top, orderedRules);
        if bucket.Some? {
          if second != "" {
            var secondBucket := FindSecondBucket(rootBuckets, bucket.value, second, orderedRules);
            if secondBucket.Some? {
              result := MatchFiled(secondBucket.value.rules, [SecondSlot(top, second), TopSlot(top), RootSlot],
                                   input, contextKind, cache, q);
              if result.Some? {
                return;
              }
            }
          }
          result := MatchFiled(bucket.value.rules, [TopSlot(top), RootSlot], input, contextKind, cache, q);
          if result.Some? {
            return;
          }
        }
      }
      result := MatchFiled(externalRootRules, [RootSlot], input, contextKind, cache, q);
      NothingTeaches(orderedRules, q, View(cache));
    }

    /** Tries the rules filed under the first of the slots that are left. */
    method MatchFiled(filed: seq<CompiledRule>, ghost slots: seq<Slot>, input: string, contextKind: PathKind,
                      cache: ResolvedPathKindCache?, ghost q: Query)
      returns (result: Option<MatchResult>)
      requires Valid() && slots != [] && filed == At(orderedRules, slots[0])
      requires q.path == input && q.kind == contextKind
      requires NotedIn(q, cache) && Learnt(q, View(cache))
      modifies cache
      ensures Valid() && orderedRules == old(orderedRules)
      ensures Learnt(q, View(cache))
      ensures cache != null && result.Some? ==> View(cache) == TaughtBy(FiledIn(slots, orderedRules), q, old(View(cache)))
      ensures cache != null && result.None? ==>
        TaughtBy(FiledIn(slots[1..], orderedRules), q, View(cache)) == TaughtBy(FiledIn(slots, orderedRules), q, old(View(cache)))
      ensures result ==
        match FirstHit(At(orderedRules, slots[0]), q) case None => None case Some(rule) => Some(OutcomeOf(rule, q))
    {
      hide Holds, Buckets.Sorted, SortedBy, WellFormed, At, OutcomeOf, Learnt, FirstHit, NotedIn, TaughtBy, FiledIn;
      AtMembers(orderedRules, slots[0]);
      NextSlotTeaches(slots, orderedRules, q, View(cache));
      result := MatchRules(filed, input, contextKind, cache, q);
    }

    /** What a successful compilation leaves behind. */
    ghost predicate CompiledPolicy(parsed: ParsedRules, process: string, probe: string -> PathKind)
      reads this
    {
      var section := MatchingSection(parsed.sections, process);
      && section.Some? && CompiledSection(section.value, parsed, process, probe)
      && grants.packageName == packageName
      && grants.ownedDataRoot == EXTERNAL_ROOT + "/Android/data/" + packageName
      && grants.ownedMediaRoot == EXTERNAL_ROOT + "/Android/media/" + packageName
      && grants.accessiblePaths == PathsOf(accessibleRules)
    }

    /** The options, rules and folders of a section, compiled. */
    ghost predicate CompiledSection(section: ParsedSection, parsed: ParsedRules, process: string, probe: string -> PathKind)
      reads this`packageName, this`mode, this`deleteExisting, this`deleteDirMode, this`mediaQuery, this`trashEnabled,
            this`trashOnRedirect, this`minAgeDays, this`minSizeMb, this`trashDir, this`rules, this`deleteRules,
            this`accessibleRules, this`exportRules
    {
      && packageName == section.packageName && OptionsOf(section)
      && Some(trashDir) == TrashDir(section)
      && RulesFrom(rules, LinesOf(section.rules, false), section.packageName, probe)
      && RulesFrom(deleteRules, LinesOf(section.rules, true), section.packageName, probe)
      && AccessibleFolders(parsed.accessibleSections, parsed.sections, process) == Folders(accessibleRules)
      && exportRules == OwnExports(parsed.exportSections, parsed.sections, section.packageName, probe)
    }

    /** The options that are copied as the section has them. */
    predicate OptionsOf(section: ParsedSection)
      reads this`mode, this`deleteExisting, this`deleteDirMode, this`mediaQuery, this`trashEnabled, this`trashOnRedirect,
            this`minAgeDays, this`minSizeMb
    {
      && mode == section.mode
      && deleteExisting == section.deleteExisting && deleteDirMode == section.deleteDirMode
      && mediaQuery == section.mediaQuery
      && trashEnabled == section.trashEnabled && trashOnRedirect == section.trashOnRedirect
      && minAgeDays == section.minAgeDays && minSizeMb == section.minSizeMb
    }

    method CompilePolicyForProcess(parsed: ParsedRules, process: string, probe: string -> PathKind)
      returns (error: Option<CompileError>)
      requires Clean(parsed)
      modifies this
      ensures error == CompileFailure(parsed, process)
      ensures error.None? ==> Valid() && CompiledPolicy(parsed, process, probe)
      ensures ColonFree(parsed.sections) ==>
        && (error == Some(NoMatchingPolicy) <==>
              parsed.errors == [] && NoneNamed(parsed.sections, process))
        && (error.None? ==> packageName == PackagePart(process))
    {
      hide PackagePart, ColonFree, NoneNamed, CompileFailure;
      hide Valid, CompiledSection, SectionFailure, MatchingSection, RulesFrom, LinesOf;
      FailureSteps(parsed, process);
      if parsed.errors != [] {
        return Some(ParseErrors);
      }
      var section := FindMatchingSection(parsed.sections, process);
      if section.None? {
        return Some(NoMatchingPolicy);
      }
      error := CompileSection(section.value, parsed, process, probe);
      if error.Some? {
        return;
      }
      InstallRules(section.value.rules, probe, PathsOf(accessibleRules));
    }

    /** Compiles a section, the folders shared with the process and the exports of its package. */
    method CompileSection(section: ParsedSection, parsed: ParsedRules, process: string, probe: string -> PathKind)
      returns (error: Option<CompileError>)
      requires Clean(parsed) && section in parsed.sections
      modifies this
      ensures error == SectionFailure(section, parsed, process)
      ensures error.None? ==> CompiledSection(section, parsed, process, probe)
      ensures error.None? ==> packageName == section.packageName && (forall r :: r in rules ==> r.action != Delete)
      ensures error.None? ==> RulesFrom(rules, LinesOf(section.rules, false), packageName, probe)
    {
      hide OptionsOf, RulesFrom, LinesOf, AccessibleFolders, OwnExports, TrashDir, OptionsFailure, FoldersFailure, Clean;
      SectionIsClean(parsed, section);
      error := CompileOptionsAndRules(section, probe);
      if error.None? {
        error := CompileFolders(section.packageName, parsed, process, probe);
      }
    }

    method CopyOptions(section: ParsedSection)
      modifies this`packageName, this`mode, this`deleteExisting, this`deleteDirMode, this`mediaQuery, this`trashEnabled,
               this`trashOnRedirect, this`minAgeDays, this`minSizeMb
      ensures packageName == section.packageName && OptionsOf(section)
    {
      packageName, mode := section.packageName, section.mode;
      deleteExisting, deleteDirMode, mediaQuery := section.deleteExisting, section.deleteDirMode, section.mediaQuery;
      trashEnabled, trashOnRedirect := section.trashEnabled, section.trashOnRedirect;
      minAgeDays, minSizeMb := section.minAgeDays, section.minSizeMb;
    }

    method CompileOptionsAndRules(section: ParsedSection, probe: string -> PathKind) returns (error: Option<CompileError>)
      requires CleanSection(section)
      modifies this`packageName, this`mode, this`deleteExisting, this`deleteDirMode, this`mediaQuery, this`trashEnabled,
               this`trashOnRedirect, this`minAgeDays, this`minSizeMb, this`trashDir, this`rules, this`deleteRules
      ensures error == OptionsFailure(section)
      ensures error.None? ==> packageName == section.packageName && OptionsOf(section) && Some(trashDir) == TrashDir(section)
      ensures error.None? ==> RulesFrom(rules, LinesOf(section.rules, false), section.packageName, probe)
      ensures error.None? ==> RulesFrom(deleteRules, LinesOf(section.rules, true), section.packageName, probe)
      ensures error.None? ==> forall r :: r in rules ==> r.action != Delete
    {
      hide RulesFrom, LinesOf, FirstBadLine, NormalizedRulePath, Expanded, OptionsOf;
      CopyOptions(section);
      trashDir := "";
      if section.trashDir != "" {
        var normalized := NormalizeExpanded(section.trashDir, section.packageName);
        if normalized.None? {
          return Some(BadTrashDir);
        }
        trashDir := normalized.value;
      }
      var bad;
      bad, rules, deleteRules := CompileLines(section.rules, section.packageName, probe);
      return if bad.Some? then Some(BadRule(bad.value)) else None;
    }

    method CompileFolders(package: string, parsed: ParsedRules, process: string, probe: string -> PathKind)
      returns (error: Option<CompileError>)
      requires forall a :: a in parsed.accessibleSections ==> NUL !in a.path && NUL !in a.anchorPackage
      requires forall e :: e in parsed.exportSections ==> NUL !in e.sourcePath && NUL !in e.targetPath && NUL !in e.anchorPackage
      modifies this`accessibleRules, this`exportRules
      ensures error == FoldersFailure(package, parsed, process)
      ensures error.None? ==> AccessibleFolders(parsed.accessibleSections, parsed.sections, process) == Folders(accessibleRules)
      ensures error.None? ==> exportRules == OwnExports(parsed.exportSections, parsed.sections, package, probe)
    {
      hide AccessibleFolders, OwnExports, FirstBadExport;
      var collected := CollectAccessible(parsed.accessibleSections, parsed.sections, process);
      if collected.Bad? {
        return Some(BadAccessible(collected.lineNumber));
      }
      accessibleRules := collected.folders;
      var bad;
      bad, exportRules := CollectExports(parsed.exportSections, parsed.sections, package, probe);
      return if bad.Some? then Some(BadExport(bad.value)) else None;
    }

    /** Orders the compiled rules, collects what they grant, and builds the index. */
    method InstallRules(ghost lines: seq<ParsedRuleLine>, ghost probe: string -> PathKind, folders: seq<string>)
      requires RulesFrom(rules, LinesOf(lines, false), packageName, probe)
      requires forall r :: r in rules ==> r.action != Delete
      modifies this`orderedRules, this`grants, this`rootBuckets, this`externalRootRules
      ensures Valid()
      ensures grants.packageName == packageName
      ensures grants.ownedDataRoot == EXTERNAL_ROOT + "/Android/data/" + packageName
      ensures grants.ownedMediaRoot == EXTERNAL_ROOT + "/Android/media/" + packageName
      ensures grants.accessiblePaths == folders
    {
      hide RulesFrom, Holds, Buckets.Sorted, At, ComesBefore, WellFormed, Granted;
      RulesFromFacts(rules, LinesOf(lines, false), packageName, probe);
      orderedRules := OrderRules(rules);
      SameMembers(orderedRules, rules);
      var allowPaths: seq<string> := [];
      if mode == Whitelist {
        var granted := CollectGranted(rules, folders);
        allowPaths := CollectAllowPaths(granted);
      }
      grants := Grants(packageName,
                       EXTERNAL_ROOT + "/Android/data/" + packageName,
                       EXTERNAL_ROOT + "/Android/media/" + packageName,
                       allowPaths, folders);
      BuildIndex();
    }

    /** Decides one access. */
    method MatchPath(input: string, context: RuntimeContext, cache: ResolvedPathKindCache?) returns (result: MatchResult)
      requires Valid() && NUL !in input
      modifies cache
      ensures Valid() && unchanged(this)
      ensures context.alreadyRedirected ==> result == NoRule(Allowed)
      ensures !context.alreadyRedirected && Empty() ==> result == NoRule(Allowed)
      ensures context.alreadyRedirected || Empty() ==> result.decision == Allowed && result.redirectPath == ""
      ensures result.decision == NoMatch <==>
        !context.alreadyRedirected && !Empty() && NormalizedRulePath(input).None?
      ensures !context.alreadyRedirected && !Empty() ==>
        match NormalizedRulePath(input)
        case None => result == NoRule(NoMatch)
        case Some(path) =>
          var q := old(QueryFor(path, InferContextKind(context), cache));
          && result == Decide(HitFor(orderedRules, q), q, mode, grants, Granted(rules, grants.accessiblePaths))
          && DecidedBy(result, HitFor(orderedRules, q), q, mode, grants, Granted(rules, grants.accessiblePaths))
      ensures context.alreadyRedirected || Empty() || NormalizedRulePath(input).None? || InferContextKind(context) == Auto ==>
        View(cache) == old(View(cache))
      ensures !context.alreadyRedirected && !Empty() && NormalizedRulePath(input).Some? && cache != null ==>
        var q := old(QueryFor(NormalizedRulePath(input).value, InferContextKind(context), cache));
        Learnt(q, View(cache)) && View(cache) == TaughtBy(Tried(orderedRules, q.path), q, q.cached)
      ensures old(NoAuto(View(cache))) ==> NoAuto(View(cache))
      ensures NormalizedRulePath(input).Some? ==>
        CacheStep(old(View(cache)), NormalizedRulePath(input).value, View(cache))
    {
      if context.alreadyRedirected {
        return NoRule(Allowed);
      }
      if mode == Blacklist && orderedRules == [] && rootBuckets == [] && externalRootRules == [] {
        return NoRule(Allowed);
      }
      var normalized := NormalizeRulePath(input);
      if normalized.None? {
        return NoRule(NoMatch);
      }
      ghost var q := QueryFor(normalized.value, InferContextKind(context), cache);
      HitForHits(orderedRules, q);
      DecideIsDecidedBy(HitFor(orderedRules, q), q, mode, grants, Granted(rules, grants.accessiblePaths));
      hide DecidedBy, Decide, HitFor, Granted, TaughtBy, Tried, Learnt, CacheStep, NoAuto;
      result := DecidePath(normalized.value, InferContextKind(context), cache);
    }

    /** Decides an access to a normalized path. */
    method DecidePath(path: string, kind: PathKind, cache: ResolvedPathKindCache?) returns (result: MatchResult)
      requires Valid()
      modifies cache
      ensures Valid() && unchanged(this)
      ensures var q := old(QueryFor(path, kind, cache));
        result == Decide(HitFor(orderedRules, q), q, mode, grants, Granted(rules, grants.accessiblePaths))
      ensures Learnt(old(QueryFor(path, kind, cache)), View(cache))
      ensures var q := old(QueryFor(path, kind, cache));
        cache != null ==> View(cache) == TaughtBy(Tried(orderedRules, path), q, q.cached)
      ensures kind == Auto ==> View(cache) == old(View(cache))
      ensures old(NoAuto(View(cache))) ==> NoAuto(View(cache))
      ensures CacheStep(old(View(cache)), path, View(cache))
    {
      hide Learnt, NoAuto, CacheStep, ImplicitlyAllowed, Granted, SortedBy, Holds, Buckets.Sorted, At, WellFormed;
      hide TaughtBy, FiledIn, Searched, FirstHit, IndexedHit;
      ghost var q := QueryFor(path, kind, cache);
      NothingLearntYet(q);
      if cache != null && kind != Auto {
        cache.Put(path, kind);
      }
      var hit;
      if IsExternal(path) {
        hit := SearchIndex(path, kind, cache, q);
      } else {
        hit := MatchRules(orderedRules, path, kind, cache, q);
      }
      LearntByAccess(old(View(cache)), q, cache == null, View(cache));
      if hit.Some? {
        return hit.value;
      }
      if mode == Whitelist {
        var allow := ShouldImplicitlyAllowWhitelistPath(grants, Granted(rules, grants.accessiblePaths), path);
        return NoRule(if allow then Allowed else Blocked);
      }
      return NoRule(Allowed);
    }

    ghost predicate Empty()
      reads this
    {
      mode == Blacklist && orderedRules == [] && rootBuckets == [] && externalRootRules == []
    }
  }

  predicate CleanSection(s: ParsedSection) {
    NUL !in s.packageName && NUL !in s.trashDir && forall l :: l in s.rules ==> NUL !in l.path && NUL !in l.redirectTarget
  }

  lemma SectionIsClean(parsed: ParsedRules, section: ParsedSection)
    requires Clean(parsed) && section in parsed.sections
    ensures CleanSection(section)
    ensures forall a :: a in parsed.accessibleSections ==> NUL !in a.path && NUL !in a.anchorPackage
    ensures forall e :: e in parsed.exportSections ==> NUL !in e.sourcePath && NUL !in e.targetPath && NUL !in e.anchorPackage
  {
  }

  lemma NothingFiled()
    ensures Holds([], []) && Distinct([]) && At([], RootSlot) == []
  {
  }

  function CompileFailure(parsed: ParsedRules, process: string): Option<CompileError> {
    var section := MatchingSection(parsed.sections, process);
    if parsed.errors != [] then Some(ParseErrors)
    else if section.None? then Some(NoMatchingPolicy)
    else SectionFailure(section.value, parsed, process)
  }

  function SectionFailure(section: ParsedSection, parsed: ParsedRules, process: string): Option<CompileError> {
    if OptionsFailure(section).Some? then OptionsFailure(section) else FoldersFailure(section.packageName, parsed, process)
  }

  function OptionsFailure(section: ParsedSection): Option<CompileError> {
    var bad := FirstBadLine(section.rules, section.packageName);
    if TrashDir(section).None? then Some(BadTrashDir) else if bad.Some? then Some(BadRule(bad.value)) else None
  }

  function FoldersFailure(package: string, parsed: ParsedRules, process: string): Option<CompileError> {
    match AccessibleFolders(parsed.accessibleSections, parsed.sections, process)
    case Bad(line) => Some(BadAccessible(line))
    case Folders(_) =>
      match FirstBadExport(parsed.exportSections, parsed.sections, package)
      case Some(line) => Some(BadExport(line))
      case None => None
  }

  /** The access as the rules see it: the cache already holds the access's own kind. */
  ghost function QueryFor(path: string, kind: PathKind, cache: ResolvedPathKindCache?): Query
    reads cache
  {
    Query(path, kind, if cache == null then map[] else Noted(cache.values, path, kind))
  }

  method CollectGranted(rules: seq<CompiledRule>, accessiblePaths: seq<string>) returns (paths: seq<string>)
    ensures paths == Granted(rules, accessiblePaths)
  {
    paths := [];
    var i := 0;
    while i < |rules|
      invariant 0 <= i <= |rules|
      invariant paths + Granted(rules[i..], accessiblePaths) == Granted(rules, accessiblePaths)
    {
      assert rules[i..][0] == rules[i] && rules[i..][1..] == rules[i + 1..];
      if rules[i].action == Allow || NeedsTarget(rules[i].action) {
        paths := paths + [rules[i].path];
      }
      i := i + 1;
    }
    paths := paths + accessiblePaths;
  }
}
