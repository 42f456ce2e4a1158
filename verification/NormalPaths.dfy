/** Which paths of shared storage an access can turn out to be about (native/rule_engine.cpp, lines 297-341). */
module NormalPaths {
  import opened Options
  import opened Text
  import opened PathMapper
  import opened Rules
  import opened IndexRefinement
  import opened LineSyntax

  // ---------------------------------------------------------------------------
  // Paths that are their own normal form

  const ROOT_NAMES := ["storage", "emulated", "0"]

  lemma JoinOfRootNames()
    ensures "/" + Join(ROOT_NAMES) == EXTERNAL_ROOT
  {
    assert ROOT_NAMES[1..] == ["emulated", "0"] && ["emulated", "0"][1..] == ["0"];
    assert Join(["emulated", "0"]) == "emulated/0";
  }

  /** A relative path of ordinary names is taken below shared storage as it is. */
  lemma RelativePathIsNormal(names: seq<string>)
    requires names != [] && (forall i :: 0 <= i < |names| ==> IsName(names[i]))
    requires IsTrimmed(Join(names)) && |EXTERNAL_ROOT + "/" + Join(names)| < MAX_PATH
    ensures NormalizedRulePath(Join(names)) == Some(EXTERNAL_ROOT + "/" + Join(names))
  {
    hide Trim, MapAlias, Walk, Words, Normalized;
    TrimOfTrimmed(Join(names));
    FirstOfJoin(names);
    NormalOfNames(names);
  }

  lemma FirstOfJoin(names: seq<string>)
    requires names != [] && names[0] != "" && SlashFree(names[0])
    ensures Join(names) != "" && Join(names)[0] != '/'
  {
  }

  lemma NormalOfNames(names: seq<string>)
    requires names != [] && (forall i :: 0 <= i < |names| ==> IsName(names[i]))
    requires |EXTERNAL_ROOT + "/" + Join(names)| < MAX_PATH
    ensures var path := EXTERNAL_ROOT + "/" + Join(names); Normalized(path, MAX_PATH) == Some(path)
  {
    hide Walk, Words, MapAlias, IsName;
    var path := EXTERNAL_ROOT + "/" + Join(names);
    assert path == ALIASES[0] + ("/" + Join(names));
    MapAliasFinds(0, "/" + Join(names), 0);
    CollapsedOfNames(names);
  }

  /** Shared storage under any of its five names. */
  predicate NamesStorage(name: string) {
    || name == "/storage/emulated/0" || name == "/storage/self/primary" || name == "/storage/emulated/legacy"
    || name == "/sdcard" || name == "/mnt/sdcard"
  }

  /** A path of ordinary names under each of the five is normalized to the one under the first. */
  lemma FiveNames(name: string, names: seq<string>)
    requires NamesStorage(name)
    requires names != [] && (forall i :: 0 <= i < |names| ==> IsName(names[i]))
    requires |"/storage/emulated/0/" + Join(names)| < MAX_PATH
    ensures Normalized(name + "/" + Join(names), MAX_PATH) == Some("/storage/emulated/0/" + Join(names))
    ensures Normalized(name, MAX_PATH) == Some("/storage/emulated/0")
  {
    hide Walk, Words, MapAlias, IsName, Collapsed, Normalized, Join;
    var i := AliasOf(name);
    NormalOfNames(names);
    AliasesAgree(i, 0, "/" + Join(names), MAX_PATH);
    assert name + "/" + Join(names) == name + ("/" + Join(names));
    assert EXTERNAL_ROOT + "/" + Join(names) == "/storage/emulated/0/" + Join(names) == EXTERNAL_ROOT + ("/" + Join(names));
    AliasesAgree(i, 0, "", MAX_PATH);
    assert name + "" == name && EXTERNAL_ROOT + "" == EXTERNAL_ROOT;
    RootIsNormal();
  }

  lemma AliasOf(name: string) returns (i: nat)
    requires NamesStorage(name)
    ensures i < |ALIASES| && ALIASES[i] == name && ALIASES[0] == EXTERNAL_ROOT
  {
    i := if name == "/storage/emulated/0" then 0 else if name == "/storage/self/primary" then 1
         else if name == "/storage/emulated/legacy" then 2 else if name == "/sdcard" then 3 else 4;
  }

  lemma RootIsNormal()
    ensures Normalized(EXTERNAL_ROOT, MAX_PATH) == Some(EXTERNAL_ROOT)
  {
    hide Collapsed, MapAlias, Join;
    MapAliasFinds(0, "", 0);
    assert EXTERNAL_ROOT + "" == EXTERNAL_ROOT;
    JoinOfRootNames();
    PlaceIsNormal(ROOT_NAMES);
  }

  /** An absolute path that lies under none of the five is only collapsed. */
  lemma OnlyFiveNames(input: string, capacity: nat)
    requires input != "" && input[0] == '/' && capacity > 0
    requires forall name :: NamesStorage(name) ==> !IsDirectoryMatch(input, name)
    ensures Normalized(input, capacity) == Collapsed(input, capacity)
  {
    hide Collapsed, IsDirectoryMatch;
    NoAliasApplies(input, 0);
  }

  lemma {:induction false} NoAliasApplies(input: string, from: nat)
    requires from <= |ALIASES|
    requires forall name :: NamesStorage(name) ==> !IsDirectoryMatch(input, name)
    ensures MapAlias(input, from) == Some(input)
    decreases |ALIASES| - from
  {
    hide IsDirectoryMatch;
    if from < |ALIASES| {
      assert NamesStorage(ALIASES[from]);
      NoAliasApplies(input, from + 1);
    }
  }

  lemma CollapsedOfNames(names: seq<string>)
    requires names != [] && (forall i :: 0 <= i < |names| ==> IsName(names[i]))
    requires |EXTERNAL_ROOT + "/" + Join(names)| < MAX_PATH
    ensures var path := EXTERNAL_ROOT + "/" + Join(names); Collapsed(path, MAX_PATH) == Some(path)
  {
    hide Collapsed, Join, IsName;
    var all := ROOT_NAMES + names;
    JoinOfRootNames();
    JoinAppend(ROOT_NAMES, names);
    RootNamesAreNames();
    assert EXTERNAL_ROOT + "/" + Join(names) == "/" + Join(all);
    PlaceIsNormal(all);
  }

  lemma RootNamesAreNames()
    ensures forall i :: 0 <= i < |ROOT_NAMES| ==> IsName(ROOT_NAMES[i])
  {
  }

  /** Names under the root directory collapse to themselves. */
  lemma PlaceIsNormal(names: seq<string>)
    requires names != [] && (forall i :: 0 <= i < |names| ==> IsName(names[i])) && |"/" + Join(names)| < MAX_PATH
    ensures Collapsed("/" + Join(names), MAX_PATH) == Some("/" + Join(names))
  {
    hide Walk, Words, Join;
    var place := Place(names, false);
    assert place.Render() == "/" + Join(names);
    assert [] + names == names;
    WordsOfRender(place);
    WalkOverNames(names, [], MAX_PATH);
  }

  /** A path of shared storage is in normal form exactly when it is trimmed and, if longer than the root, does not end in
    a slash. */
  lemma ExternalIsNormal(path: string)
    requires IsExternal(path)
    ensures NormalizedRulePath(path) == Some(path) <==> Trim(path) == path && (path == EXTERNAL_ROOT || path[|path| - 1] != '/')
  {
    hide Trim, Normalized;
    TrimIsInside(path);
    TrimmedIsExternal(path);
    if Trim(path) == path {
      StripChanges(path);
    } else {
      StripShortens(Trim(path));
    }
  }

  lemma TrimmedIsExternal(path: string)
    requires IsExternal(path)
    ensures IsExternal(Trim(path)) && Trim(path) != "" && Trim(path)[0] == '/'
  {
    ExternalIsPrefix(path);
    var n := if |path| == |EXTERNAL_ROOT| then |EXTERNAL_ROOT| else |EXTERNAL_ROOT| + 1;
    assert path[|EXTERNAL_ROOT| - 1] == EXTERNAL_ROOT[|EXTERNAL_ROOT| - 1] == '0';
    assert path[0] == EXTERNAL_ROOT[0] == '/';
    TrimRightKeeps(path, n);
    TrimRightIsPrefix(path);
    var trimmed := Trim(path);
    assert trimmed == path[..|trimmed|];
    assert trimmed[..|EXTERNAL_ROOT|] == path[..|EXTERNAL_ROOT|];
    if |trimmed| == |EXTERNAL_ROOT| {
      assert trimmed == trimmed[..|EXTERNAL_ROOT|];
    }
  }

  lemma {:induction false} TrimRightKeeps(text: string, n: nat)
    requires 0 < n <= |text| && !IsSpace(text[n - 1])
    ensures |TrimRight(text)| >= n
  {
    if n < |text| && IsSpace(text[|text| - 1]) {
      TrimRightKeeps(text[..|text| - 1], n);
    }
  }

  lemma {:induction false} StripShortens(path: string)
    ensures |StripToRoot(path)| <= |path|
  {
    if |path| > |EXTERNAL_ROOT| && path[|path| - 1] == '/' {
      StripShortens(path[..|path| - 1]);
    }
  }

  lemma StripChanges(path: string)
    requires IsExternal(path)
    ensures StripToRoot(path) == path <==> path == EXTERNAL_ROOT || path[|path| - 1] != '/'
  {
    ExternalIsPrefix(path);
    if path == EXTERNAL_ROOT || path[|path| - 1] != '/' {
    } else {
      StripShortens(path[..|path| - 1]);
    }
  }

  // ---------------------------------------------------------------------------
  // Paths that are some normal form

  ghost predicate IsAccess(path: string) {
    exists input :: NormalizedRulePath(input) == Some(path)
  }

  predicate EndsInSlash(path: string) {
    path != "" && path[|path| - 1] == '/'
  }

  /** Ordinary names with a slash behind them, and room for one more character. */
  predicate NamesAndSlash(path: string) {
    var names := Words(path);
    && names != [] && (forall i :: 0 <= i < |names| ==> IsName(names[i]))
    && path == "/" + Join(names) + "/" && |path| + 1 < MAX_PATH
  }

  lemma ExternalWithSlash(path: string)
    requires IsExternal(path) && !EndsInSlash(path)
    ensures NormalizedRulePath(path + "/") == Some(path)
  {
    hide Trim, Normalized;
    var input := path + "/";
    ExternalIsPrefix(path);
    assert path[0] == EXTERNAL_ROOT[0];
    TrimOfTrimmed(input);
    SlashStaysExternal(path);
    assert input[..|input| - 1] == path;
    StripChanges(path);
  }

  lemma SlashStaysExternal(path: string)
    requires IsExternal(path)
    ensures IsExternal(path + "/")
  {
  }

  /** A walk leaves a slash only where a longer text has fitted. */
  lemma {:induction false} SlashNeedsRoom(words: seq<string>, at: Place, capacity: nat)
    requires at.Valid() && |at.Render()| + (if at.slashed then 1 else 0) < capacity && Walk(words, at, capacity).Some?
    requires forall i :: 0 <= i < |words| ==> words[i] != "" && SlashFree(words[i])
    ensures var end := Walk(words, at, capacity).value; end.Valid() && |end.Render()| + (if end.slashed then 1 else 0) < capacity
  {
    hide at.Render;
    if words != [] {
      if words[0] == "." {
        SlashNeedsRoom(words[1..], at, capacity);
      } else if words[0] == ".." {
        UpLeavesRoom(at);
        SlashNeedsRoom(words[1..], at.Up(), capacity);
      } else {
        assert IsName(words[0]);
        SlashNeedsRoom(words[1..], at.Down(words[0]), capacity);
      }
    }
  }

  lemma UpLeavesRoom(at: Place)
    requires at.Valid()
    ensures at.Up().Valid()
    ensures |at.Up().Render()| + (if at.Up().slashed then 1 else 0) <= |at.Render()| + (if at.slashed then 1 else 0)
  {
    if at.names != [] {
      RenderUp(at);
      assert IsName(at.names[|at.names| - 1]);
    }
  }

  lemma RenderedSlash(at: Place)
    requires at.Valid() && at.names != [] && |at.Render()| + (if at.slashed then 1 else 0) < MAX_PATH
    ensures EndsInSlash(at.Render()) ==> NamesAndSlash(at.Render())
  {
    hide Words, Join;
    RenderEndsInSlash(at);
    WordsOfRender(at);
  }

  lemma CollapsedSlash(source: string)
    requires Collapsed(source, MAX_PATH).Some?
    ensures var path := Collapsed(source, MAX_PATH).value; IsExternal(path) && EndsInSlash(path) ==> NamesAndSlash(path)
  {
    hide Walk, Words, Join;
    var place := Walk(Words(source), ROOT, MAX_PATH).value;
    SlashNeedsRoom(Words(source), ROOT, MAX_PATH);
    if place.names != [] {
      RenderedSlash(place);
    }
  }

  lemma StrippedHasNoSlash(path: string)
    requires IsExternal(path)
    ensures !EndsInSlash(StripToRoot(path))
  {
    ExternalIsPrefix(path);
    StrippedEnd(path);
  }

  lemma {:induction false} StrippedEnd(path: string)
    requires |path| >= |EXTERNAL_ROOT| && path[..|EXTERNAL_ROOT|] == EXTERNAL_ROOT
    ensures !EndsInSlash(StripToRoot(path))
  {
    if |path| > |EXTERNAL_ROOT| && path[|path| - 1] == '/' {
      assert path[..|path| - 1][..|EXTERNAL_ROOT|] == EXTERNAL_ROOT;
      StrippedEnd(path[..|path| - 1]);
    } else if |path| == |EXTERNAL_ROOT| {
      assert path == EXTERNAL_ROOT;
      assert EXTERNAL_ROOT[|EXTERNAL_ROOT| - 1] == '0';
    }
  }

  lemma AccessWithSlash(input: string)
    requires NormalizedRulePath(input).Some?
    ensures var path := NormalizedRulePath(input).value; IsExternal(path) && EndsInSlash(path) ==> NamesAndSlash(path)
  {
    hide Trim, Collapsed, MapAlias, StripToRoot, IsExternal, NamesAndSlash, EndsInSlash;
    var trimmed := Trim(input);
    if trimmed[0] == '/' && IsExternal(trimmed) {
      StrippedHasNoSlash(trimmed);
    } else {
      var absolute := if trimmed[0] == '/' then trimmed else EXTERNAL_ROOT + "/" + trimmed;
      MapStaysAbsolute(absolute, 0);
      CollapsedSlash(MapAlias(absolute, 0).value);
    }
  }

  lemma {:induction false} MapStaysAbsolute(path: string, from: nat)
    requires path != "" && path[0] == '/' && from <= |ALIASES|
    ensures MapAlias(path, from).Some? ==> MapAlias(path, from).value != "" && MapAlias(path, from).value[0] == '/'
    decreases |ALIASES| - from
  {
    if from < |ALIASES| {
      MapStaysAbsolute(path, from + 1);
    }
  }

  // A path with a slash behind it comes from going into one more directory and up again.

  lemma DotIsNoAlias(rest: string)
    ensures !HasAlias("/." + rest, 0) && !IsExternal("/." + rest)
  {
    var path := "/." + rest;
    assert path[1] == '.';
    DiffersAt(path, ALIASES[0], 1);
    DiffersAt(path, ALIASES[1], 1);
    DiffersAt(path, ALIASES[2], 1);
    DiffersAt(path, ALIASES[3], 1);
    DiffersAt(path, ALIASES[4], 1);
    assert !HasAlias(path, 5) && !HasAlias(path, 4) && !HasAlias(path, 3) && !HasAlias(path, 2) && !HasAlias(path, 1);
  }

  lemma DetourWords(path: string)
    requires NamesAndSlash(path)
    ensures Words("/." + path + "x/..") == ["."] + (Words(path) + ["x", ".."])
  {
    hide Words, WordLength;
    assert Words("x/..") == ["x", ".."] by {
      WordsOfConcat("x", "/..");
      WordsOfWord("x");
      WordsSkipSlash("/..");
      WordsOfWord("..");
      assert "/.."[1..] == ".." && "x" + "/.." == "x/..";
    }
    WordsOfConcat(path, "x/..");
    WordsSkipSlash("/.");
    WordsOfWord(".");
    assert "/."[1..] == ".";
    WordsOfConcat("/.", path + "x/..");
    assert "/." + (path + "x/..") == "/." + path + "x/..";
  }

  lemma DetourEndsInSlash(names: seq<string>)
    requires names != [] && (forall i :: 0 <= i < |names| ==> IsName(names[i])) && |"/" + Join(names) + "/"| + 1 < MAX_PATH
    ensures Walk(["."] + (names + ["x", ".."]), ROOT, MAX_PATH) == Some(Place(names, true))
  {
    hide Walk, Join;
    var words := names + ["x"];
    var place := Place(words, false);
    RenderDown(Place(names, false), "x");
    assert [] + words == words;
    WalkOverNames(words, [], MAX_PATH);
    WalkAppend(words, "..", ROOT, MAX_PATH);
    WalkOne("..", place, MAX_PATH);
    assert place.Up() == Place(names, true);
    assert names + ["x", ".."] == words + [".."];
    assert Walk(["."] + (words + [".."]), ROOT, MAX_PATH) == Walk(words + [".."], ROOT, MAX_PATH) by {
      StayHere(words + [".."]);
    }
  }

  lemma StayHere(words: seq<string>)
    ensures Walk(["."] + words, ROOT, MAX_PATH) == Walk(words, ROOT, MAX_PATH)
  {
    assert (["."] + words)[1..] == words;
  }

  lemma DetourIsAccess(path: string)
    requires IsExternal(path) && NamesAndSlash(path)
    ensures IsAccess(path)
  {
    hide Trim, Walk, Words, Join, MapAlias, HasAlias, IsExternal;
    var input := "/." + path + "x/..";
    var names := Words(path);
    TrimOfTrimmed(input);
    assert input == "/." + (path + "x/..");
    DotIsNoAlias(path + "x/..");
    NotMapped(input, 0);
    DetourWords(path);
    DetourEndsInSlash(names);
    assert NormalizedRulePath(input) == Some(path);
  }

  /** A path of shared storage is one that an access can be about exactly when it does not end in a slash, or consists of
    ordinary names and leaves room for one more character. */
  lemma ExternalIsAccess(path: string)
    requires IsExternal(path)
    ensures IsAccess(path) <==> !EndsInSlash(path) || NamesAndSlash(path)
  {
    hide NormalizedRulePath, NamesAndSlash, IsExternal, EndsInSlash;
    if !EndsInSlash(path) {
      ExternalWithSlash(path);
    } else if NamesAndSlash(path) {
      DetourIsAccess(path);
    } else if IsAccess(path) {
      var input :| NormalizedRulePath(input) == Some(path);
      AccessWithSlash(input);
    }
  }
}
