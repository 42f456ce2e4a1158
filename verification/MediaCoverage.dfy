/** Which rows of the media store a rule is about (native/folder_manager.cpp, lines 775-799 and 824-1053). */
module MediaCoverage {
  import opened Options
  import opened Text
  import opened PathMapper
  import opened PathKindCache
  import opened ParsedRules
  import opened SelectionSyntax
  import opened SelectionNesting
  import opened IndexRefinement
  import opened MediaSelection

  // ---------------------------------------------------------------------------
  // Reading a pattern

  /** A text without the characters that have a meaning of their own in a pattern. */
  predicate NoWildcards(text: string) {
    '%' !in text && '_' !in text
  }

  /** LIKE with a percent sign at the end of the pattern alone means to begin with what stands before it. */
  ghost predicate ReadsPrefixes(row: Row) {
    forall value, d :: NoWildcards(d) ==> (row.like(value, d + "%") <==> StartsWith(value, d))
  }

  predicate Below(path: string, directory: string) {
    IsDirectoryMatch(path, directory) && path != directory
  }

  lemma BeginsBelow(value: string, d: string)
    ensures StartsWith(value, d + "/") <==> Below(value, d)
  {
    if StartsWith(value, d + "/") {
      assert value[..|d| + 1][..|d|] == d && value[..|d| + 1][|d|] == '/';
    }
    if Below(value, d) {
      assert value[..|d| + 1] == d + "/";
    }
  }

  lemma LikeBelow(row: Row, value: string, d: string)
    requires ReadsPrefixes(row) && NoWildcards(d)
    ensures row.like(value, d + "/%") <==> Below(value, d)
  {
    assert d + "/%" == (d + "/") + "%";
    assert NoWildcards(d + "/");
    BeginsBelow(value, d);
  }

  // ---------------------------------------------------------------------------
  // The part of a path below shared storage

  /** What a path of shared storage is called there, without a slash at its end. */
  predicate IsPartOf(part: string, path: string) {
    && part != "" && part[|part| - 1] != '/'
    && (path == "/storage/emulated/0" + "/" + part || path == "/storage/emulated/0" + "/" + part + "/")
  }

  lemma CollapsedEnds(source: string)
    requires Collapsed(source, MAX_PATH).Some?
    ensures var path := Collapsed(source, MAX_PATH).value;
      |path| >= 2 && path[|path| - 1] == '/' ==> path[|path| - 2] != '/'
  {
    hide Words, Survivors, EndsGoingUp, Collapsed, Join;
    CollapsedMeaning(source, MAX_PATH);
    var path := Collapsed(source, MAX_PATH).value;
    var names := Survivors(Words(source)).0;
    if names != [] {
      LastOfJoin(names);
      var plain := "/" + Join(names);
      assert plain[|plain| - 1] == Join(names)[|Join(names)| - 1];
      assert path == plain || path == plain + "/";
    }
  }

  /** A normalized path of shared storage has no two slashes at its end. */
  lemma OneSlashAtMost(input: string)
    requires Normalized(input, MAX_PATH).Some? && IsExternal(Normalized(input, MAX_PATH).value)
    ensures var path := Normalized(input, MAX_PATH).value;
      |path| >= 2 && (path[|path| - 1] == '/' ==> path[|path| - 2] != '/')
  {
    hide MapAlias, Collapsed, TrimSlashes, IsExternal;
    var path := Normalized(input, MAX_PATH).value;
    FirstIsSlash(path);
    var source := MapAlias(input, 0).value;
    if source != "" && source[0] == '/' {
      CollapsedEnds(source);
    } else {
      TrimmedFront(source);
    }
  }

  lemma FirstIsSlash(path: string)
    requires IsExternal(path)
    ensures |path| >= 2 && path[0] == '/'
  {
    ExternalIsPrefix(path);
    assert path[0] == path[..|EXTERNAL_ROOT|][0] == EXTERNAL_ROOT[0];
  }

  lemma {:induction false} TrimmedFront(text: string)
    ensures TrimSlashes(text) != "" ==> text != "" && TrimSlashes(text)[0] == text[0]
  {
    if |text| > 1 && text[|text| - 1] == '/' {
      TrimmedFront(text[..|text| - 1]);
    }
  }

  lemma {:induction false} LastOfJoin(names: seq<string>)
    requires names != [] && forall i :: 0 <= i < |names| ==> IsName(names[i])
    ensures Join(names) != "" && Join(names)[|Join(names)| - 1] != '/'
  {
    if |names| == 1 {
      assert names[0][|names[0]| - 1] in names[0];
    } else {
      LastOfJoin(names[1..]);
    }
  }

  lemma RelativeIs(input: string, part: string)
    requires Normalized(input, MAX_PATH).Some? && |Normalized(input, MAX_PATH).value| < MAX_PATH
    ensures RelativeExternal(input, MAX_PATH) == Some(part) <==> IsPartOf(part, Normalized(input, MAX_PATH).value)
  {
    hide Normalized;
    var path := Normalized(input, MAX_PATH).value;
    if IsExternal(path) {
      OneSlashAtMost(input);
      ExternalIsPrefix(path);
      var rest := path[|EXTERNAL_ROOT|..];
      assert path == EXTERNAL_ROOT + rest;
      if rest != "" {
        assert path == EXTERNAL_ROOT + "/" + rest[1..];
        PartIsTrimmed(path, rest[1..], part);
      } else {
        PartIsLonger(part, path);
      }
    } else if IsPartOf(part, path) {
      PartIsLonger(part, path);
    }
  }

  lemma PartIsLonger(part: string, path: string)
    ensures IsPartOf(part, path) ==> IsExternal(path) && |path| > |EXTERNAL_ROOT| + 1
  {
    if IsPartOf(part, path) {
      assert path[..|EXTERNAL_ROOT|] == EXTERNAL_ROOT && path[|EXTERNAL_ROOT|] == '/';
    }
  }

  lemma PartIsTrimmed(path: string, relative: string, part: string)
    requires path == EXTERNAL_ROOT + "/" + relative
    requires path[|path| - 1] == '/' ==> path[|path| - 2] != '/'
    ensures IsPartOf(part, path) <==> relative != "" && TrimSlashes(relative) == part
  {
    assert path[|EXTERNAL_ROOT|] == '/' && path[|EXTERNAL_ROOT| + 1..] == relative;
    if relative != "" {
      assert relative[|relative| - 1] == path[|path| - 1];
      if relative[|relative| - 1] == '/' {
        assert |relative| > 1 && relative[|relative| - 2] == path[|path| - 2];
        var trimmed := relative[..|relative| - 1];
        assert TrimSlashes(relative) == TrimSlashes(trimmed) == trimmed;
        assert relative == trimmed + "/";
      }
    }
    if IsPartOf(part, path) {
      if path == EXTERNAL_ROOT + "/" + part {
        assert path[|EXTERNAL_ROOT| + 1..] == part;
      } else {
        assert path == EXTERNAL_ROOT + "/" + (part + "/");
        assert path[|EXTERNAL_ROOT| + 1..] == part + "/";
      }
    }
  }

  // ---------------------------------------------------------------------------
  // What a rule is about

  /** A file rule is about the rows with its path, or with its part of it; any other rule about the rows strictly below. */
  ghost predicate IsAbout(path: string, kind: PathKind, row: Row) {
    var normal := Normalized(path, MAX_PATH);
    && normal.Some?
    && if kind == File then row.data == normal.value || IsPartOf(row.relativePath, normal.value)
       else Below(row.data, normal.value) || exists part :: IsPartOf(part, normal.value) && Below(row.relativePath, part)
  }

  /** The path as the query is given it has no character with a meaning in a pattern. */
  predicate PlainTarget(path: string) {
    var normal := Normalized(path, MAX_PATH);
    normal.Some? ==> NoWildcards(normal.value)
  }

  /** The pattern of a directory rule is as long as its path and two characters more. */
  predicate PatternFits(path: string, kind: PathKind) {
    var normal := Normalized(path, MAX_PATH);
    kind != File && normal.Some? ==> |normal.value| <= 1021
  }

  /** A rule whose pattern fits its buffer covers exactly the rows that it is about. */
  lemma CoversExactly(path: string, kind: PathKind, row: Row)
    requires ReadsPrefixes(row) && PlainTarget(path) && PatternFits(path, kind)
    ensures Covers(path, kind, row) <==> IsAbout(path, kind, row)
  {
    hide Normalized, RelativeExternal, ReadsPrefixes, Below, IsPartOf;
    if Normalized(path, MAX_PATH).Some? {
      var normal := Normalized(path, MAX_PATH).value;
      NormalizedIsShort(path);
      var relative := RelativeExternal(path, MAX_PATH);
      forall part ensures relative == Some(part) <==> IsPartOf(part, normal) {
        RelativeIs(path, part);
      }
      if relative.Some? {
        PartIsShorter(relative.value, normal);
      }
      if kind != File {
        LikeBelow(row, row.data, normal);
        if relative.Some? {
          PartIsPlain(relative.value, normal);
          LikeBelow(row, row.relativePath, relative.value);
        }
      }
    } else {
      assert RelativeExternal(path, MAX_PATH).None? by { NothingRelative(path); }
    }
  }

  lemma NothingRelative(path: string)
    requires Normalized(path, MAX_PATH).None?
    ensures RelativeExternal(path, MAX_PATH).None?
  {
    hide Normalized;
  }

  lemma PartIsShorter(part: string, path: string)
    requires IsPartOf(part, path)
    ensures |part| + 20 <= |path|
  {
  }

  lemma PartIsPlain(part: string, path: string)
    requires IsPartOf(part, path) && NoWildcards(path)
    ensures NoWildcards(part)
  {
    var n := |EXTERNAL_ROOT| + 1;
    assert path[n..n + |part|] == part;
  }

  lemma NormalizedIsShort(path: string)
    requires Normalized(path, MAX_PATH).Some?
    ensures |Normalized(path, MAX_PATH).value| < MAX_PATH
  {
    hide MapAlias;
    var source := MapAlias(path, 0).value;
    if source != "" && source[0] == '/' {
      CollapsedMeaning(source, MAX_PATH);
    } else {
      TrimShortens(source);
    }
  }

  lemma {:induction false} TrimShortens(text: string)
    ensures |TrimSlashes(text)| <= |text|
  {
    if |text| > 1 && text[|text| - 1] == '/' {
      TrimShortens(text[..|text| - 1]);
    }
  }

  /** A pattern of ordinary characters alone means the text itself. */
  ghost predicate ReadsTexts(row: Row) {
    forall value, d :: NoWildcards(d) ==> (row.like(value, d) <==> value == d)
  }

  /** The pattern of a longer path loses its percent sign, so that a directory rule no longer covers by its data what lies
    below, but one single text. */
  lemma LongPatternIsCut(path: string, kind: PathKind, row: Row)
    requires ReadsTexts(row) && ReadsPrefixes(row) && PlainTarget(path) && Normalized(path, MAX_PATH).Some?
    requires kind != File && !PatternFits(path, kind)
    ensures var normal := Normalized(path, MAX_PATH).value;
      && (|normal| == 1022 || |normal| == 1023)
      && (Covers(path, kind, row) <==>
            || row.data == (if |normal| == 1022 then normal + "/" else normal)
            || exists part :: IsPartOf(part, normal) && Below(row.relativePath, part))
  {
    hide Normalized, RelativeExternal, ReadsPrefixes, Below, IsPartOf;
    var normal := Normalized(path, MAX_PATH).value;
    NormalizedIsShort(path);
    var relative := RelativeExternal(path, MAX_PATH);
    forall part ensures relative == Some(part) <==> IsPartOf(part, normal) {
      RelativeIs(path, part);
    }
    CutPattern(normal);
    if relative.Some? {
      PartIsShorter(relative.value, normal);
      PartIsPlain(relative.value, normal);
      LikeBelow(row, row.relativePath, relative.value);
    }
  }

  lemma CutPattern(normal: string)
    requires |normal| == 1022 || |normal| == 1023
    ensures CutToFit(normal + "/%") == if |normal| == 1022 then normal + "/" else normal
  {
  }

  // ---------------------------------------------------------------------------
  // What the rules of a policy say of a row

  ghost predicate BlockedByOne(rules: seq<MediaRule>, row: Row) {
    exists r :: r in rules && r.kind == BlockRule && IsAbout(r.targetPath, r.pathKind, row)
  }

  ghost predicate OfferedByOne(rules: seq<MediaRule>, folders: seq<MediaFolder>, row: Row) {
    || (exists r :: r in rules && r.kind in {AllowRule, RedirectRule, RedirectDynamicRule} && IsAbout(r.targetPath, r.pathKind, row))
    || (exists f :: f in folders && IsAbout(f.path, f.pathKind, row))
  }

  ghost predicate PlainPaths(rules: seq<MediaRule>, folders: seq<MediaFolder>) {
    && (forall r :: r in rules ==> PlainTarget(r.targetPath) && PatternFits(r.targetPath, r.pathKind))
    && (forall f :: f in folders ==> PlainTarget(f.path) && PatternFits(f.path, f.pathKind))
  }

  predicate BlocksUsable(rules: seq<MediaRule>) {
    forall r :: r in rules && r.kind == BlockRule ==> Normalized(r.targetPath, MAX_PATH).Some?
  }

  predicate OffersUsable(rules: seq<MediaRule>, folders: seq<MediaFolder>) {
    && (forall r :: r in rules && r.kind != BlockRule ==> Normalized(r.targetPath, MAX_PATH).Some?)
    && (forall f :: f in folders ==> Normalized(f.path, MAX_PATH).Some?)
  }

  /** A blacklist admits the rows that no block rule is about. A whitelist admits of these the ones that an allow or redirect
    rule or a shared folder is about. A path that cannot be normalized takes all blocks, or all offers, away. */
  lemma AdmitsExactly(mode: PolicyMode, rules: seq<MediaRule>, folders: seq<MediaFolder>, row: Row)
    requires ReadsPrefixes(row) && PlainPaths(rules, folders)
    ensures RulesAdmit(mode, rules, folders, row) <==>
      && (BlocksUsable(rules) ==> !BlockedByOne(rules, row))
      && (mode == Whitelist ==> OffersUsable(rules, folders) && OfferedByOne(rules, folders, row))
  {
    hide Covers, IsAbout, PlainTarget, PatternFits, Normalized, ReadsPrefixes;
    BlockItemsAre(rules);
    AllowItemsAre(rules);
    FolderItemsAre(folders);
    BlockedInWords(rules, row);
    OfferedInWords(rules, folders, row);
  }

  lemma BlockedInWords(rules: seq<MediaRule>, row: Row)
    requires ReadsPrefixes(row) && forall r :: r in rules ==> PlainTarget(r.targetPath) && PatternFits(r.targetPath, r.pathKind)
    ensures AllUsable(BlockItems(rules)) <==> BlocksUsable(rules)
    ensures CoveredByAny(BlockItems(rules), row) <==> BlockedByOne(rules, row)
  {
    hide Covers, IsAbout, PlainTarget, PatternFits, Normalized, ReadsPrefixes;
    BlockItemsAre(rules);
    var items := BlockItems(rules);
    forall r | r in rules ensures Covers(r.targetPath, r.pathKind, row) <==> IsAbout(r.targetPath, r.pathKind, row) {
      CoversExactly(r.targetPath, r.pathKind, row);
    }
    UsableInItems(items);
    CoveredInItems(items, row);
    forall r | r in rules && r.kind == BlockRule ensures Item(r.targetPath, r.pathKind) in items {
    }
  }

  lemma OfferedInWords(rules: seq<MediaRule>, folders: seq<MediaFolder>, row: Row)
    requires ReadsPrefixes(row) && PlainPaths(rules, folders)
    ensures AllUsable(AllowItems(rules) + FolderItems(folders)) <==> OffersUsable(rules, folders)
    ensures CoveredByAny(AllowItems(rules) + FolderItems(folders), row) <==> OfferedByOne(rules, folders, row)
  {
    hide Covers, IsAbout, PlainTarget, PatternFits, Normalized, ReadsPrefixes;
    AllowItemsAre(rules);
    FolderItemsAre(folders);
    var items := AllowItems(rules) + FolderItems(folders);
    forall r | r in rules ensures Covers(r.targetPath, r.pathKind, row) <==> IsAbout(r.targetPath, r.pathKind, row) {
      CoversExactly(r.targetPath, r.pathKind, row);
    }
    forall f | f in folders ensures Covers(f.path, f.pathKind, row) <==> IsAbout(f.path, f.pathKind, row) {
      CoversExactly(f.path, f.pathKind, row);
    }
    UsableInItems(items);
    CoveredInItems(items, row);
    forall r | r in rules && r.kind != BlockRule ensures Item(r.targetPath, r.pathKind) in items {
    }
    forall f | f in folders ensures Item(f.path, f.pathKind) in items {
    }
  }

  lemma UsableInItems(items: seq<Item>)
    ensures AllUsable(items) <==> forall i :: i in items ==> Normalized(i.path, MAX_PATH).Some?
  {
    hide Normalized;
  }

  lemma CoveredInItems(items: seq<Item>, row: Row)
    ensures CoveredByAny(items, row) <==> exists i :: i in items && Covers(i.path, i.kind, row)
  {
    hide Covers;
  }

  lemma {:induction false} BlockItemsAre(rules: seq<MediaRule>)
    ensures forall i :: i in BlockItems(rules) <==> exists r :: r in rules && r.kind == BlockRule && i == Item(r.targetPath, r.pathKind)
  {
    if rules != [] {
      BlockItemsAre(rules[..|rules| - 1]);
      assert rules == rules[..|rules| - 1] + [rules[|rules| - 1]];
    }
  }

  lemma {:induction false} AllowItemsAre(rules: seq<MediaRule>)
    ensures forall i :: i in AllowItems(rules) <==> exists r :: r in rules && r.kind != BlockRule && i == Item(r.targetPath, r.pathKind)
  {
    if rules != [] {
      AllowItemsAre(rules[..|rules| - 1]);
      assert rules == rules[..|rules| - 1] + [rules[|rules| - 1]];
    }
  }

  lemma {:induction false} FolderItemsAre(folders: seq<MediaFolder>)
    ensures forall i :: i in FolderItems(folders) <==> exists f :: f in folders && i == Item(f.path, f.pathKind)
  {
    if folders != [] {
      FolderItemsAre(folders[..|folders| - 1]);
      assert folders == folders[..|folders| - 1] + [folders[|folders| - 1]];
    }
  }

  /** So the query that is run keeps, of the rows that the caller asks for, exactly these. */
  lemma QueryKeepsExactly(mode: PolicyMode, rules: seq<MediaRule>, folders: seq<MediaFolder>, original: Selection, row: Row)
    requires ReadsPrefixes(row) && PlainPaths(rules, folders) && StaysInside(original.words)
    requires Asked(original, row).Some?
    ensures var merged := MergedQuery(mode, rules, folders, original);
            var kept := if merged.None? then Asked(original, row) else Evaluate(merged.value.words, merged.value.args, row);
      kept == Some(true) <==>
        && Asked(original, row) == Some(true)
        && (BlocksUsable(rules) ==> !BlockedByOne(rules, row))
        && (mode == Whitelist ==> OffersUsable(rules, folders) && OfferedByOne(rules, folders, row))
  {
    hide RulesAdmit, Evaluate, StaysInside, MergedQuery, Asked, BlocksUsable, OffersUsable, BlockedByOne, OfferedByOne, PlainPaths;
    FilteredMeaning(mode, rules, folders, original, row);
    AdmitsExactly(mode, rules, folders, row);
  }

  // ---------------------------------------------------------------------------
  // Paths with wildcard characters

  /** LIKE: a percent sign stands for any text, an underscore for any character, another character for those like it. */
  predicate SqlLike(value: string, pattern: string, alike: (char, char) -> bool)
    decreases |pattern|, |value|
  {
    if pattern == "" then value == ""
    else if pattern[0] == '%' then
      SqlLike(value, pattern[1..], alike) || (value != "" && SqlLike(value[1..], pattern, alike))
    else
      && value != "" && (pattern[0] == '_' || alike(pattern[0], value[0]))
      && SqlLike(value[1..], pattern[1..], alike)
  }

  predicate Fitting(value: string, d: string, alike: (char, char) -> bool) {
    |value| >= |d| && forall i :: 0 <= i < |d| ==> d[i] == '_' || alike(d[i], value[i])
  }

  lemma {:induction false} PercentTakesAll(value: string, alike: (char, char) -> bool)
    ensures SqlLike(value, "%", alike)
  {
    assert "%"[1..] == "";
    if value != "" {
      PercentTakesAll(value[1..], alike);
    }
  }

  /** Without a percent sign in front of the last, only underscores are free. */
  lemma {:induction false} LikePrefix(value: string, d: string, alike: (char, char) -> bool)
    requires '%' !in d
    ensures SqlLike(value, d + "%", alike) <==> Fitting(value, d, alike)
  {
    if d == "" {
      assert d + "%" == "%";
      PercentTakesAll(value, alike);
    } else {
      assert (d + "%")[1..] == d[1..] + "%";
      if value != "" {
        LikePrefix(value[1..], d[1..], alike);
        FittingStep(value, d, alike);
      }
    }
  }

  lemma FittingStep(value: string, d: string, alike: (char, char) -> bool)
    requires value != "" && d != ""
    ensures Fitting(value, d, alike) <==> (d[0] == '_' || alike(d[0], value[0])) && Fitting(value[1..], d[1..], alike)
  {
    if Fitting(value[1..], d[1..], alike) && (d[0] == '_' || alike(d[0], value[0])) {
      forall i | 0 <= i < |d| ensures d[i] == '_' || alike(d[i], value[i]) {
        assert i > 0 ==> d[i] == d[1..][i - 1] && value[i] == value[1..][i - 1];
      }
    }
  }

  /** Read so, and with no two different characters alike, LIKE reads prefixes. */
  lemma SqlReadsPrefixes(row: Row, alike: (char, char) -> bool)
    requires forall value, pattern :: row.like(value, pattern) == SqlLike(value, pattern, alike)
    requires forall a, b :: alike(a, b) <==> a == b
    ensures ReadsPrefixes(row)
  {
    forall value, d | NoWildcards(d) ensures row.like(value, d + "%") <==> StartsWith(value, d) {
      LikePrefix(value, d, alike);
      if Fitting(value, d, alike) {
        assert value[..|d|] == d;
      }
      if StartsWith(value, d) {
        assert forall i :: 0 <= i < |d| ==> value[i] == value[..|d|][i];
      }
    }
  }

  /** Read so, a directory rule without a percent sign covers exactly the rows that fit its path and a slash, or its part of
    shared storage and a slash: any character may stand for an underscore. */
  lemma CoversFitting(path: string, kind: PathKind, row: Row, alike: (char, char) -> bool)
    requires forall value, pattern :: row.like(value, pattern) == SqlLike(value, pattern, alike)
    requires Normalized(path, MAX_PATH).Some? && '%' !in Normalized(path, MAX_PATH).value && kind != File && PatternFits(path, kind)
    ensures var normal := Normalized(path, MAX_PATH).value;
      Covers(path, kind, row) <==>
        || Fitting(row.data, normal + "/", alike)
        || exists part :: IsPartOf(part, normal) && Fitting(row.relativePath, part + "/", alike)
  {
    hide Normalized, RelativeExternal, IsPartOf, Fitting, SqlLike;
    var normal := Normalized(path, MAX_PATH).value;
    NormalizedIsShort(path);
    var relative := RelativeExternal(path, MAX_PATH);
    forall part ensures relative == Some(part) <==> IsPartOf(part, normal) {
      RelativeIs(path, part);
    }
    LikeFits(row.data, normal, alike);
    if relative.Some? {
      PartIsShorter(relative.value, normal);
      PartHasNoPercent(relative.value, normal);
      LikeFits(row.relativePath, relative.value, alike);
    }
  }

  lemma PartHasNoPercent(part: string, path: string)
    requires IsPartOf(part, path) && '%' !in path
    ensures '%' !in part
  {
    var n := |EXTERNAL_ROOT| + 1;
    assert path[n..n + |part|] == part;
  }

  lemma LikeFits(value: string, d: string, alike: (char, char) -> bool)
    requires '%' !in d
    ensures SqlLike(value, d + "/%", alike) <==> Fitting(value, d + "/", alike)
  {
    hide SqlLike, Fitting;
    assert d + "/%" == (d + "/") + "%";
    LikePrefix(value, d + "/", alike);
  }

  /** So a directory rule with an underscore in its path covers rows that it is not about. */
  lemma UnderscoreCoversOthers(path: string, i: nat, c: char, row: Row)
    requires forall value, pattern :: row.like(value, pattern) == SqlLike(value, pattern, (a, b) => a == b)
    requires Normalized(path, MAX_PATH).Some? && PatternFits(path, Directory)
    requires var normal := Normalized(path, MAX_PATH).value;
      && '%' !in normal && i < |normal| && normal[i] == '_' && c != '_'
      && row.data == normal[..i] + [c] + normal[i + 1..] + "/x" && row.relativePath == ""
    ensures Covers(path, Directory, row) && !IsAbout(path, Directory, row)
  {
    hide Normalized, IsPartOf;
    var normal := Normalized(path, MAX_PATH).value;
    CoversFitting(path, Directory, row, (a, b) => a == b);
    assert Fitting(row.data, normal + "/", (a, b) => a == b);
    assert row.data[i] == c;
    DiffersAt(row.data, normal, i);
  }
}
