/** The rules of a policy as the media hook sees them: copied into fixed-size buffers (native/rule_config.cpp, lines 157-193),
  and normalized once more for every query (native/folder_manager.cpp, lines 774-896). */
module LoadedRules {
  import opened Options
  import opened Text
  import opened PathMapper
  import opened PathKindCache
  import opened Rules
  import opened ParsedRules
  import opened RuleCompiler
  import opened LineSyntax
  import opened MediaSelection
  import opened MediaCoverage
  import opened SelectionSyntax

  const MAX_RULES: nat := 128
  const MAX_PACKAGE: nat := 128

  // ---------------------------------------------------------------------------
  // The copy

  function RuleTypeOf(action: RuleAction): RuleType
    requires action != Delete
  {
    match action
    case Allow => AllowRule
    case Deny => BlockRule
    case Redirect => RedirectRule
    case RedirectDynamic => RedirectDynamicRule
  }

  function MediaRuleOf(rule: CompiledRule): MediaRule
    requires rule.action != Delete
  {
    MediaRule(RuleTypeOf(rule.action), rule.path, rule.pathKind)
  }

  /** Each text and its NUL must fit. */
  predicate Fits(rule: CompiledRule, package: string) {
    |package| < MAX_PACKAGE && |rule.path| < MAX_PATH && (NeedsTarget(rule.action) ==> |rule.redirectTarget| < MAX_PATH)
  }

  predicate NoDeletes(rules: seq<CompiledRule>) {
    forall i :: 0 <= i < |rules| ==> rules[i].action != Delete
  }

  /** The rules that are copied: the first ones, without a word about any others. */
  function Copied(rules: seq<CompiledRule>): seq<CompiledRule> {
    if |rules| <= MAX_RULES then rules else rules[..MAX_RULES]
  }

  lemma CopiedTooLong(rules: seq<CompiledRule>, index: nat, package: string)
    requires index < |rules| && index < MAX_RULES && !Fits(rules[index], package)
    ensures !(forall r :: r in Copied(rules) ==> Fits(r, package))
  {
    assert Copied(rules)[index] == rules[index] && rules[index] in Copied(rules);
  }

  method PopulateRules(rules: seq<CompiledRule>, package: string) returns (loaded: Option<seq<MediaRule>>)
    requires NoDeletes(rules)
    ensures loaded.Some? <==> forall r :: r in Copied(rules) ==> Fits(r, package)
    ensures loaded.Some? ==> |loaded.value| == |Copied(rules)|
    ensures loaded.Some? ==> forall i :: 0 <= i < |loaded.value| ==> loaded.value[i] == MediaRuleOf(rules[i])
  {
    var copied: seq<MediaRule> := [];
    var index := 0;
    while index < |rules| && |copied| < MAX_RULES
      invariant 0 <= index <= |rules| && |copied| == index <= MAX_RULES
      invariant forall i :: 0 <= i < index ==> Fits(rules[i], package) && copied[i] == MediaRuleOf(rules[i])
    {
      var rule := rules[index];
      if |package| + 1 > MAX_PACKAGE || |rule.path| + 1 > MAX_PATH {
        CopiedTooLong(rules, index, package);
        return None;
      }
      if NeedsTarget(rule.action) && |rule.redirectTarget| + 1 > MAX_PATH {
        CopiedTooLong(rules, index, package);
        return None;
      }
      copied := copied + [MediaRuleOf(rule)];
      index := index + 1;
    }
    forall r | r in Copied(rules) ensures Fits(r, package) {
      var i :| 0 <= i < |Copied(rules)| && Copied(rules)[i] == r;
      assert Fits(rules[i], package);
    }
    return Some(copied);
  }

  // ---------------------------------------------------------------------------
  // Exactly which loaded paths cannot be normalized again

  /** Under one of the two short aliases, and too long once shared storage is written in full. */
  predicate OutgrowsBuffer(path: string) {
    || (IsDirectoryMatch(path, "/sdcard") && |path| >= 1012)
    || (IsDirectoryMatch(path, "/mnt/sdcard") && |path| >= 1016)
  }

  lemma {:induction false} AliasOf(path: string, from: nat) returns (i: nat)
    requires from <= |ALIASES| && HasAlias(path, from)
    ensures from <= i < |ALIASES| && IsDirectoryMatch(path, ALIASES[i])
    decreases |ALIASES| - from
  {
    if IsDirectoryMatch(path, ALIASES[from]) {
      i := from;
    } else {
      i := AliasOf(path, from + 1);
    }
  }

  lemma {:induction false} HasItsAlias(path: string, i: nat, from: nat)
    requires from <= i < |ALIASES| && IsDirectoryMatch(path, ALIASES[i])
    ensures HasAlias(path, from)
    decreases i - from
  {
    if from < i {
      HasItsAlias(path, i, from + 1);
    }
  }

  /** A path under an alias is the alias and what follows it, and lies under no other. */
  lemma UnderAlias(path: string, i: nat)
    requires i < |ALIASES| && IsDirectoryMatch(path, ALIASES[i])
    ensures MapAlias(path, 0).None? <==> |EXTERNAL_ROOT| + |path| - |ALIASES[i]| >= MAX_PATH
    ensures forall j :: 0 <= j < |ALIASES| && j != i ==> !IsDirectoryMatch(path, ALIASES[j])
  {
    var suffix := path[|ALIASES[i]|..];
    assert path == ALIASES[i] + suffix;
    MapAliasFinds(i, suffix, 0);
    forall j | 0 <= j < |ALIASES| && j != i ensures !IsDirectoryMatch(path, ALIASES[j]) {
      AliasesAreApart(i, j, suffix);
    }
  }

  lemma TooLongUnderAlias(path: string)
    requires |path| < MAX_PATH
    ensures MapAlias(path, 0).None? <==> OutgrowsBuffer(path)
  {
    hide IsDirectoryMatch, MapAlias;
    if HasAlias(path, 0) {
      var i := AliasOf(path, 0);
      UnderAlias(path, i);
      assert ALIASES[3] == "/sdcard" && ALIASES[4] == "/mnt/sdcard";
    } else {
      NotMapped(path, 0);
      NoShortAlias(path);
    }
  }

  lemma NoShortAlias(path: string)
    requires !HasAlias(path, 0)
    ensures !IsDirectoryMatch(path, ALIASES[3]) && !IsDirectoryMatch(path, ALIASES[4])
  {
    hide IsDirectoryMatch, HasAlias;
    if IsDirectoryMatch(path, ALIASES[3]) {
      HasItsAlias(path, 3, 0);
    }
    if IsDirectoryMatch(path, ALIASES[4]) {
      HasItsAlias(path, 4, 0);
    }
  }

  /** An absolute path that fits into its buffer cannot be used exactly when it outgrows it under a short alias. */
  lemma UsableExactly(path: string)
    requires path != "" && path[0] == '/' && |path| < MAX_PATH
    ensures Usable(path) <==> !OutgrowsBuffer(path)
  {
    hide Collapsed, OutgrowsBuffer, MapAlias;
    TooLongUnderAlias(path);
    if MapAlias(path, 0).Some? {
      MappedIsShort(path, 0);
      CollapseFits(MapAlias(path, 0).value, MAX_PATH);
    }
  }

  lemma {:induction false} MappedIsShort(path: string, from: nat)
    requires path != "" && path[0] == '/' && |path| < MAX_PATH && from <= |ALIASES|
    ensures MapAlias(path, from).Some? ==>
      MapAlias(path, from).value != "" && MapAlias(path, from).value[0] == '/' && |MapAlias(path, from).value| < MAX_PATH
    decreases |ALIASES| - from
  {
    if from < |ALIASES| {
      MappedIsShort(path, from + 1);
    }
  }

  // ---------------------------------------------------------------------------
  // Compiled paths

  lemma {:induction false} StripKeepsFront(path: string)
    requires path != ""
    ensures StripToRoot(path) != "" && StripToRoot(path)[0] == path[0]
  {
    if |path| > |EXTERNAL_ROOT| && path[|path| - 1] == '/' {
      StripKeepsFront(path[..|path| - 1]);
    }
  }

  lemma NormalIsAbsolute(input: string, capacity: nat)
    requires input != "" && input[0] == '/' && Normalized(input, capacity).Some?
    ensures Normalized(input, capacity).value != "" && Normalized(input, capacity).value[0] == '/'
  {
    hide Walk, Words, Join;
    MapKeepsFront(input, 0);
  }

  lemma {:induction false} MapKeepsFront(path: string, from: nat)
    requires path != "" && path[0] == '/' && from <= |ALIASES|
    ensures MapAlias(path, from).Some? ==> MapAlias(path, from).value != "" && MapAlias(path, from).value[0] == '/'
    decreases |ALIASES| - from
  {
    if from < |ALIASES| {
      MapKeepsFront(path, from + 1);
    }
  }

  /** Whatever a rule line says, its compiled path is absolute. */
  lemma RulePathIsAbsolute(input: string)
    requires NormalizedRulePath(input).Some?
    ensures NormalizedRulePath(input).value != "" && NormalizedRulePath(input).value[0] == '/'
  {
    hide Normalized, Trim;
    var trimmed := Trim(input);
    if trimmed[0] == '/' {
      if IsExternal(trimmed) {
        StripKeepsFront(trimmed);
      } else {
        NormalIsAbsolute(trimmed, MAX_PATH);
      }
    } else {
      NormalIsAbsolute(EXTERNAL_ROOT + "/" + trimmed, MAX_PATH);
    }
  }

  /** The rules came from a policy and fitted. */
  ghost predicate Loaded(media: seq<MediaRule>, rules: seq<CompiledRule>, package: string) {
    && NoDeletes(rules)
    && (forall r :: r in Copied(rules) ==> Fits(r, package))
    && (forall r :: r in rules ==> exists input :: NormalizedRulePath(input) == Some(r.path))
    && |media| == |Copied(rules)|
    && forall i :: 0 <= i < |media| ==> media[i] == MediaRuleOf(rules[i])
  }

  ghost predicate Stored(media: seq<MediaRule>) {
    forall r :: r in media ==> r.targetPath != "" && r.targetPath[0] == '/' && |r.targetPath| < MAX_PATH
  }

  lemma LoadedIsStored(media: seq<MediaRule>, rules: seq<CompiledRule>, package: string)
    requires Loaded(media, rules, package)
    ensures Stored(media)
  {
    hide NormalizedRulePath;
    forall r | r in media ensures r.targetPath != "" && r.targetPath[0] == '/' && |r.targetPath| < MAX_PATH {
      var i :| 0 <= i < |media| && media[i] == r;
      assert Copied(rules)[i] == rules[i] && Copied(rules)[i] in Copied(rules);
      assert Fits(rules[i], package) && rules[i] in rules;
      var input :| NormalizedRulePath(input) == Some(rules[i].path);
      RulePathIsAbsolute(input);
    }
  }

  // ---------------------------------------------------------------------------
  // Block rules

  predicate NoneOutgrows(items: seq<Item>) {
    forall i :: 0 <= i < |items| ==> !OutgrowsBuffer(items[i].path)
  }

  predicate AllOutgrow(items: seq<Item>) {
    forall i :: 0 <= i < |items| ==> OutgrowsBuffer(items[i].path)
  }

  lemma {:induction false} BlockItemsAreStored(media: seq<MediaRule>)
    requires Stored(media)
    ensures forall i :: 0 <= i < |BlockItems(media)| ==>
      var path := BlockItems(media)[i].path; path != "" && path[0] == '/' && |path| < MAX_PATH
  {
    if media != [] {
      var init, last := media[..|media| - 1], media[|media| - 1];
      assert last in media && forall r :: r in init ==> r in media;
      BlockItemsAreStored(init);
    }
  }

  lemma UsableItems(media: seq<MediaRule>)
    requires Stored(media)
    ensures AllUsable(BlockItems(media)) <==> NoneOutgrows(BlockItems(media))
    ensures forall i :: 0 <= i < |BlockItems(media)| ==>
      (Usable(BlockItems(media)[i].path) <==> !OutgrowsBuffer(BlockItems(media)[i].path))
  {
    hide OutgrowsBuffer, Usable;
    BlockItemsAreStored(media);
    var items := BlockItems(media);
    forall i | 0 <= i < |items| ensures Usable(items[i].path) <==> !OutgrowsBuffer(items[i].path) {
      UsableExactly(items[i].path);
    }
  }

  /** Covered by this item, whatever its kind. */
  function RowAt(path: string): Row {
    Row(if Normalized(path, MAX_PATH).Some? then Normalized(path, MAX_PATH).value else "", "",
        (value, pattern) => true, (id, args) => true)
  }

  lemma RowIsCovered(items: seq<Item>, i: nat)
    requires i < |items| && Usable(items[i].path)
    ensures CoveredByAny(items, RowAt(items[i].path))
  {
    hide Normalized;
    NormalizedIsShort(items[i].path);
    assert Covers(items[i].path, items[i].kind, RowAt(items[i].path));
  }

  lemma UnusableCoversNothing(path: string, kind: PathKind, row: Row)
    requires !Usable(path)
    ensures !Covers(path, kind, row)
  {
    hide Normalized;
  }

  ghost predicate BlockedRowsStayHidden(mode: PolicyMode, media: seq<MediaRule>, folders: seq<MediaFolder>) {
    forall row: Row :: CoveredByAny(BlockItems(media), row) ==> !RulesAdmit(mode, media, folders, row)
  }

  /** In a blacklist, no row that a block rule covers ever comes through exactly when none of the block rules' paths
    outgrows its buffer, or all of them do and nothing is covered. If one does, every query is left as it is. */
  lemma BlockRulesHoldExactly(media: seq<MediaRule>, folders: seq<MediaFolder>, original: Selection)
    requires Stored(media)
    ensures var blocked := BlockItems(media);
      && (BlockedRowsStayHidden(Blacklist, media, folders) <==> NoneOutgrows(blocked) || AllOutgrow(blocked))
      && (NoneOutgrows(blocked) ==> BlockedRowsStayHidden(Whitelist, media, folders))
      && (!NoneOutgrows(blocked) ==> MergedQuery(Blacklist, media, folders, original) == None)
  {
    hide OutgrowsBuffer, Usable, Covers;
    var blocked := BlockItems(media);
    UsableItems(media);
    if AllOutgrow(blocked) {
      forall row: Row ensures !CoveredByAny(blocked, row) {
        forall i | 0 <= i < |blocked| ensures !Covers(blocked[i].path, blocked[i].kind, row) {
          UnusableCoversNothing(blocked[i].path, blocked[i].kind, row);
        }
      }
    } else if !NoneOutgrows(blocked) {
      var i :| 0 <= i < |blocked| && !OutgrowsBuffer(blocked[i].path);
      RowIsCovered(blocked, i);
      assert RulesAdmit(Blacklist, media, folders, RowAt(blocked[i].path));
    }
  }

  // ---------------------------------------------------------------------------
  // A rule line whose path outgrows its buffer

  /** Such a path is not mapped when the rule is compiled if it is written with a second slash in front. */
  lemma DoubleSlashIsNoAlias(rest: string)
    ensures !HasAlias("//" + rest, 0) && !IsExternal("//" + rest)
  {
    var path := "//" + rest;
    forall i | 0 <= i < |ALIASES| ensures !IsDirectoryMatch(path, ALIASES[i]) {
      assert ALIASES[i][1] != '/' && path[1] == '/';
      DiffersAt(path, ALIASES[i], 1);
    }
    if HasAlias(path, 0) {
      var i := AliasOf(path, 0);
    }
    assert ALIASES[0] == EXTERNAL_ROOT;
  }

  lemma TwoNames(first: string, second: string)
    requires IsName(first) && IsName(second) && |first| + |second| + 2 < MAX_PATH
    ensures Collapsed("//" + (first + "/" + second), MAX_PATH) == Some("/" + first + "/" + second)
  {
    hide Walk, Words, Join;
    var names := [first, second];
    var path := "//" + (first + "/" + second);
    var place := Place(names, false);
    JoinOfOne(first);
    JoinOfOne(second);
    JoinAppend([first], [second]);
    assert [first] + [second] == names && [] + names == names;
    assert place.Render() == "/" + first + "/" + second == path[1..];
    WordsSkipSlash(path);
    WordsOfRender(place);
    WalkOverNames(names, [], MAX_PATH);
  }

  lemma CardPathIsCompiled(name: string)
    requires IsName(name) && !IsSpace(name[|name| - 1]) && |name| < 1016
    ensures NormalizedRulePath("//sdcard/" + name) == Some("/sdcard/" + name)
  {
    hide Trim, Collapsed, MapAlias, HasAlias, IsExternal;
    var rest := "sdcard" + "/" + name;
    var input := "//" + rest;
    assert input == "//sdcard/" + name && "/" + "sdcard" + "/" + name == "/sdcard/" + name;
    TrimOfTrimmed(input);
    DoubleSlashIsNoAlias(rest);
    NotMapped(input, 0);
    TwoNames("sdcard", name);
  }

  /** A rule that is written so and is long enough is compiled, fits into its buffer, and cannot be used. */
  lemma CardRuleIsUnusable(rule: CompiledRule, line: ParsedRuleLine, package: string, probe: string -> PathKind, name: string)
    requires CompiledFrom(rule, line, package, probe) && line.path == "//sdcard/" + name
    requires IsName(name) && '<' !in name && !IsSpace(name[|name| - 1]) && 1004 <= |name| < 1016
    ensures rule.path == "/sdcard/" + name && |rule.path| < MAX_PATH && !Usable(rule.path)
  {
    hide NormalizedRulePath, Expanded, LineFails, WellFormed, ExtensionsOf, Usable, InferCompiledRuleKind, OutgrowsBuffer;
    PlainTextStays("//sdcard/" + name, package);
    CardPathIsCompiled(name);
    CardPathOutgrows(name);
    UsableExactly(rule.path);
  }

  lemma CardPathOutgrows(name: string)
    requires |name| >= 1004
    ensures OutgrowsBuffer("/sdcard/" + name)
  {
    assert ("/sdcard/" + name)[..7] == "/sdcard";
  }

  // ---------------------------------------------------------------------------
  // Which rows the loaded rules are about

  /** In numbers: names of packages up to 127 characters fit, and paths up to 1023. */
  lemma FitsInNumbers(rule: CompiledRule, package: string)
    ensures Fits(rule, package) <==>
      && |package| <= 127 && |rule.path| <= 1023
      && (rule.action in {Redirect, RedirectDynamic} ==> |rule.redirectTarget| <= 1023)
  {
  }

  lemma MediaRuleIs(rule: CompiledRule)
    requires rule.action != Delete
    ensures MediaRuleOf(rule).targetPath == rule.path && MediaRuleOf(rule).pathKind == rule.pathKind
    ensures MediaRuleOf(rule).kind == BlockRule <==> rule.action == Deny
    ensures MediaRuleOf(rule).kind in {AllowRule, RedirectRule, RedirectDynamicRule} <==> rule.action in {Allow, Redirect, RedirectDynamic}
  {
  }

  /** Of the first 128 rules, the denies hide the rows that they are about, and all others offer them. */
  lemma LoadedRulesAre(rules: seq<CompiledRule>, loaded: seq<MediaRule>, row: Row)
    requires NoDeletes(rules) && |loaded| == |Copied(rules)|
    requires forall i :: 0 <= i < |loaded| ==> loaded[i] == MediaRuleOf(rules[i])
    ensures |loaded| == if |rules| < 128 then |rules| else 128
    ensures BlockedByOne(loaded, row) <==>
      exists i :: 0 <= i < |loaded| && rules[i].action == Deny && IsAbout(rules[i].path, rules[i].pathKind, row)
    ensures OfferedByOne(loaded, [], row) <==>
      exists i :: 0 <= i < |loaded| && rules[i].action in {Allow, Redirect, RedirectDynamic}
        && IsAbout(rules[i].path, rules[i].pathKind, row)
  {
    hide IsAbout, MediaRuleOf, BlockedByOne, OfferedByOne;
    forall i | 0 <= i < |loaded|
      ensures loaded[i].targetPath == rules[i].path && loaded[i].pathKind == rules[i].pathKind
      ensures loaded[i].kind == BlockRule <==> rules[i].action == Deny
      ensures loaded[i].kind in {AllowRule, RedirectRule, RedirectDynamicRule} <==> rules[i].action in {Allow, Redirect, RedirectDynamic}
    {
      MediaRuleIs(rules[i]);
    }
    BlockedByIndex(loaded, row);
    OfferedByIndex(loaded, row);
  }

  lemma BlockedByIndex(loaded: seq<MediaRule>, row: Row)
    ensures BlockedByOne(loaded, row) <==>
      exists i :: 0 <= i < |loaded| && loaded[i].kind == BlockRule && IsAbout(loaded[i].targetPath, loaded[i].pathKind, row)
  {
    hide IsAbout;
  }

  lemma OfferedByIndex(loaded: seq<MediaRule>, row: Row)
    ensures OfferedByOne(loaded, [], row) <==>
      exists i :: 0 <= i < |loaded| && loaded[i].kind in {AllowRule, RedirectRule, RedirectDynamicRule}
        && IsAbout(loaded[i].targetPath, loaded[i].pathKind, row)
  {
    hide IsAbout;
  }
}
