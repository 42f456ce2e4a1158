/** Redirect targets: native/rule_engine.cpp lines 661-719, and the daemon's copy, lines 557-573 and 1493-1538. */
module Redirect {
  import opened Options
  import opened Text
  import opened PathMapper
  import opened PathKindCache
  import opened PathGlob
  import opened Rules
  import opened IndexRefinement
  import opened LineSyntax

  function JoinName(directory: string, name: string): string {
    directory + (if directory != "" && directory[|directory| - 1] != '/' then "/" else "") + name
  }

  function BuildRedirectPath(rule: CompiledRule, input: string, kind: PathKind): Option<string> {
    if rule.hasPathGlob then
      if !StartsWith(input, rule.globBasePrefix) then None
      else Some(rule.redirectTarget + input[|rule.globBasePrefix|..])
    else if rule.hasGlob then
      var slash := LastIndex(input, '/');
      if slash < 0 || slash + 1 >= |input| then None
      else Some(JoinName(rule.redirectTarget, input[slash + 1..]))
    else if kind == File then Some(rule.redirectTarget)
    else if !IsDirectoryMatch(input, rule.path) then None
    else Some(rule.redirectTarget + input[|rule.path|..])
  }

  /** A redirect rule that matches always has somewhere to redirect to. */
  lemma MatchHasTarget(rule: CompiledRule, q: Query)
    requires Matched(rule, q)
    ensures BuildRedirectPath(rule, q.path, HitKind(rule, q)).Some?
  {
  }

  /** The text without the slash at its end, if it has one. */
  function Unslashed(text: string): string {
    if text != "" && text[|text| - 1] == '/' then text[..|text| - 1] else text
  }

  /** The one text begins with the target and goes on as the other does behind the base. */
  predicate MovedFrom(moved: string, target: string, path: string, base: string) {
    StartsWith(path, base) && StartsWith(moved, target) && moved[|target|..] == path[|base|..]
  }

  /** Where a redirect of this shape sends a path: a file to the target itself, what lies in a directory or below the base
    of a path glob to the same place under the target, and an entry that a file-name glob names into the target. */
  predicate GoesTo(rule: CompiledRule, path: string, kind: PathKind, moved: string) {
    if rule.hasPathGlob then MovedFrom(moved, rule.redirectTarget, path, rule.globBasePrefix)
    else if rule.hasGlob then
      rule.redirectTarget != "" ==>
        var from, to := LastIndex(path, '/'), LastIndex(moved, '/');
        0 <= from && 0 <= to && moved[to + 1..] == path[from + 1..] && moved[..to] == Unslashed(rule.redirectTarget)
    else if kind == File then moved == rule.redirectTarget
    else MovedFrom(moved, rule.redirectTarget, path, rule.path)
  }

  lemma JoinedName(directory: string, name: string)
    requires directory != "" && SlashFree(name)
    ensures var joined := JoinName(directory, name);
      LastIndex(joined, '/') == |Unslashed(directory)| && joined == Unslashed(directory) + "/" + name
  {
    hide LastIndex;
    var joined := JoinName(directory, name);
    assert joined == Unslashed(directory) + "/" + name;
    assert joined[|Unslashed(directory)|] == '/';
    forall i | |Unslashed(directory)| < i < |joined| ensures joined[i] != '/' {
      assert joined[i] == name[i - |Unslashed(directory)| - 1];
    }
  }

  /** A matching redirect goes where its shape says. */
  lemma TargetIs(rule: CompiledRule, q: Query)
    requires Matched(rule, q)
    ensures var target := BuildRedirectPath(rule, q.path, HitKind(rule, q));
      target.Some? && GoesTo(rule, q.path, HitKind(rule, q), target.value)
  {
    hide LastIndex, JoinName, Unslashed, AllowsType, PathAccepts;
    if !rule.hasPathGlob && rule.hasGlob && rule.redirectTarget != "" {
      var slash := LastIndex(q.path, '/');
      var name := q.path[slash + 1..];
      NoSlashBehind(q.path, slash);
      JoinedName(rule.redirectTarget, name);
      NameBehind(Unslashed(rule.redirectTarget), name);
    }
  }

  lemma NoSlashBehind(path: string, slash: nat)
    requires slash < |path| && forall j :: slash < j < |path| ==> path[j] != '/'
    ensures SlashFree(path[slash + 1..])
  {
  }

  lemma NameBehind(front: string, name: string)
    ensures (front + "/" + name)[..|front|] == front && (front + "/" + name)[|front| + 1..] == name
  {
  }

  /** So for every `s`, a directory rule sends its path with `s` behind it to its target with `s` behind it, and a path glob
    its base; a file-name glob puts the name behind the target and one slash. */
  lemma TargetsInWords(rule: CompiledRule, path: string, kind: PathKind, moved: string, s: string)
    requires GoesTo(rule, path, kind, moved)
    ensures rule.hasPathGlob && path == rule.globBasePrefix + s ==> moved == rule.redirectTarget + s
    ensures !rule.hasPathGlob && !rule.hasGlob && kind != File && path == rule.path + s ==> moved == rule.redirectTarget + s
    ensures !rule.hasPathGlob && rule.hasGlob && rule.redirectTarget != "" && path == rule.globParent + "/" + s && SlashFree(s) ==>
      moved == Unslashed(rule.redirectTarget) + "/" + s
  {
    hide LastIndex, Unslashed;
    if rule.hasPathGlob && path == rule.globBasePrefix + s {
      assert path[|rule.globBasePrefix|..] == s;
      assert moved == moved[..|rule.redirectTarget|] + moved[|rule.redirectTarget|..];
    } else if !rule.hasPathGlob && !rule.hasGlob && kind != File && path == rule.path + s {
      assert path[|rule.path|..] == s;
      assert moved == moved[..|rule.redirectTarget|] + moved[|rule.redirectTarget|..];
    } else if !rule.hasPathGlob && rule.hasGlob && rule.redirectTarget != "" && path == rule.globParent + "/" + s && SlashFree(s) {
      LastSlashIn(rule.globParent, s);
      var to := LastIndex(moved, '/');
      assert moved == moved[..to] + "/" + moved[to + 1..];
    }
  }

  lemma LastSlashIn(parent: string, name: string)
    requires SlashFree(name)
    ensures LastIndex(parent + "/" + name, '/') == |parent| && (parent + "/" + name)[|parent| + 1..] == name
  {
    hide LastIndex;
    var path := parent + "/" + name;
    assert path[|parent| + 1..] == name;
    assert path[|parent|] == '/';
    forall i | |parent| < i < |path| ensures path[i] != '/' {
      assert path[i] == path[|parent| + 1..][i - |parent| - 1];
      assert path[i] in name;
    }
    LastIndexIs(path, '/', |parent|);
  }

  lemma LastIndexIs(text: string, c: char, at: nat)
    requires at < |text| && text[at] == c && forall i :: at < i < |text| ==> text[i] != c
    ensures LastIndex(text, c) == at
  {
    hide LastIndex;
  }

  /** Two inputs a rule matches, under any kinds and any caches, never share a target. */
  lemma TargetsAreInjective(rule: CompiledRule, q: Query, other: Query)
    requires Matched(rule, q) && Matched(rule, other)
    requires BuildRedirectPath(rule, q.path, HitKind(rule, q)) == BuildRedirectPath(rule, other.path, HitKind(rule, other))
    ensures q.path == other.path
  {
    if rule.hasPathGlob {
      SuffixesAreInjective(rule.redirectTarget, rule.globBasePrefix, q.path, other.path);
    } else if rule.hasGlob {
      NamesAreInjective(rule.redirectTarget, q, other);
    } else {
      var tail := if HitKind(rule, q) == File then "" else q.path[|rule.path|..];
      var otherTail := if HitKind(rule, other) == File then "" else other.path[|rule.path|..];
      assert rule.redirectTarget + "" == rule.redirectTarget;
      SameTail(rule.redirectTarget, tail, otherTail);
      assert q.path == rule.path + tail && other.path == rule.path + otherTail;
    }
  }

  lemma SuffixesAreInjective(target: string, base: string, path: string, otherPath: string)
    requires StartsWith(path, base) && StartsWith(otherPath, base)
    requires target + path[|base|..] == target + otherPath[|base|..]
    ensures path == otherPath
  {
    SameTail(target, path[|base|..], otherPath[|base|..]);
    assert path == base + path[|base|..] && otherPath == base + otherPath[|base|..];
  }

  lemma NamesAreInjective(target: string, q: Query, other: Query)
    requires 0 <= LastIndex(q.path, '/') && 0 <= LastIndex(other.path, '/')
    requires q.path[..LastIndex(q.path, '/')] == other.path[..LastIndex(other.path, '/')]
    requires JoinName(target, q.path[LastIndex(q.path, '/') + 1..]) == JoinName(target, other.path[LastIndex(other.path, '/') + 1..])
    ensures q.path == other.path
  {
    hide LastIndex;
    var head := target + (if target != "" && target[|target| - 1] != '/' then "/" else "");
    SameTail(head, q.path[LastIndex(q.path, '/') + 1..], other.path[LastIndex(other.path, '/') + 1..]);
  }

  lemma SameTail(head: string, tail: string, otherTail: string)
    requires head + tail == head + otherTail
    ensures tail == otherTail
  {
    assert (head + tail)[|head|..] == tail && (head + otherTail)[|head|..] == otherTail;
  }

  // ---------------------------------------------------------------------------
  // The daemon's targets

  const STORAGE_EMULATED := "/storage/emulated/"
  const DATA_MEDIA := "/data/media/"

  function Decimal(n: nat): string {
    var digit := [(('0' as int) + n % 10) as char];
    if n < 10 then digit else Decimal(n / 10) + digit
  }

  function StoragePathToDataMedia(path: string, userId: nat): Option<string> {
    if !StartsWith(path, STORAGE_EMULATED) then Some(path)
    else
      var rest := path[|STORAGE_EMULATED|..];
      var slash := FirstIndex(rest, '/');
      if slash < 0 then None
      else Some(DATA_MEDIA + Decimal(userId) + "/" + rest[slash + 1..])
  }

  /** The daemon turns a rule of unknown kind into a directory rule when it loads it. */
  function DaemonKind(rule: CompiledRule): PathKind {
    if rule.pathKind == Auto then Directory else rule.pathKind
  }

  function BuildDynamicTarget(rule: CompiledRule, path: string, userId: nat): Option<string> {
    if rule.hasPathGlob then
      if !StartsWith(path, rule.globBasePrefix) then None
      else StoragePathToDataMedia(rule.redirectTarget + path[|rule.globBasePrefix|..], userId)
    else if rule.hasGlob then
      var slash := LastIndex(path, '/');
      if slash < 0 || slash + 1 >= |path| then None
      else StoragePathToDataMedia(JoinName(rule.redirectTarget, path[slash + 1..]), userId)
    else if DaemonKind(rule) == File then StoragePathToDataMedia(rule.redirectTarget, userId)
    else if !IsDirectoryMatch(path, rule.path) then None
    else StoragePathToDataMedia(rule.redirectTarget + path[|rule.path|..], userId)
  }

  lemma ExternalToDataMedia(path: string, userId: nat)
    requires IsExternal(path)
    ensures StoragePathToDataMedia(path, userId) ==
      if path == EXTERNAL_ROOT then None
      else Some(DATA_MEDIA + Decimal(userId) + "/" + path[|EXTERNAL_ROOT| + 1..])
  {
    ExternalIsPrefix(path);
    assert path[..|STORAGE_EMULATED|] == path[..|EXTERNAL_ROOT|][..|STORAGE_EMULATED|] == STORAGE_EMULATED;
    var rest := path[|STORAGE_EMULATED|..];
    assert rest[0] == path[..|EXTERNAL_ROOT|][|EXTERNAL_ROOT| - 1];
    if path == EXTERNAL_ROOT {
      assert rest == "0";
    } else {
      assert rest[1] == '/';
      assert FirstIndex(rest, '/') == 1;
      assert rest[2..] == path[|EXTERNAL_ROOT| + 1..];
    }
  }

  lemma TargetStaysExternal(rule: CompiledRule, q: Query)
    requires WellFormed(rule) && Matched(rule, q) && IsExternal(rule.redirectTarget)
    ensures var target := BuildRedirectPath(rule, q.path, HitKind(rule, q));
      target.Some? && IsExternal(target.value)
  {
    MatchHasTarget(rule, q);
    if rule.hasPathGlob {
      BasePrefixIsRedundant(rule.path, q.path);
      SuffixStaysInside(rule.redirectTarget, q.path, rule.globBasePrefix);
    } else if rule.hasGlob {
      var slash := LastIndex(q.path, '/');
    } else if HitKind(rule, q) != File {
      SuffixStaysInside(rule.redirectTarget, q.path, rule.path);
    }
  }

  lemma SuffixStaysInside(target: string, path: string, directory: string)
    requires IsExternal(target) && IsDirectoryMatch(path, directory)
    ensures IsExternal(target + path[|directory|..])
  {
    var moved := target + path[|directory|..];
    if path == directory {
      assert moved == target;
    } else {
      assert IsDirectoryMatch(moved, target);
      InsideExternal(moved, target);
    }
  }

  /** The daemon moves to the engine's target, re-rooted; only the bare root has no counterpart. The two resolve an unknown
    kind differently, but where the engine takes the path for a file it is the path of the rule, with nothing behind it. */
  lemma DaemonTargetIsRerooted(rule: CompiledRule, q: Query, userId: nat)
    requires WellFormed(rule) && Matched(rule, q) && IsExternal(rule.redirectTarget)
    ensures var target := BuildRedirectPath(rule, q.path, HitKind(rule, q)).value;
      && (BuildDynamicTarget(rule, q.path, userId).None? <==> target == EXTERNAL_ROOT)
      && (target != EXTERNAL_ROOT ==>
            BuildDynamicTarget(rule, q.path, userId) ==
              Some(DATA_MEDIA + Decimal(userId) + "/" + target[|EXTERNAL_ROOT| + 1..]))
  {
    hide Matched, IsExternal;
    TargetStaysExternal(rule, q);
    SameStorageTarget(rule, q, userId);
    ExternalToDataMedia(BuildRedirectPath(rule, q.path, HitKind(rule, q)).value, userId);
  }

  lemma SameStorageTarget(rule: CompiledRule, q: Query, userId: nat)
    requires WellFormed(rule) && Matched(rule, q) && BuildRedirectPath(rule, q.path, HitKind(rule, q)).Some?
    ensures BuildDynamicTarget(rule, q.path, userId) ==
      StoragePathToDataMedia(BuildRedirectPath(rule, q.path, HitKind(rule, q)).value, userId)
  {
    if !rule.hasGlob && !rule.hasPathGlob && rule.pathKind == Auto && HitKind(rule, q) == File {
      assert q.path == rule.path;
      assert q.path[|rule.path|..] == "";
      assert rule.redirectTarget + "" == rule.redirectTarget;
    }
  }

  /** So the daemon moves to the place below its own root that the shape of the rule says. */
  lemma DaemonGoesTo(rule: CompiledRule, q: Query, userId: nat) returns (moved: string)
    requires WellFormed(rule) && Matched(rule, q) && IsExternal(rule.redirectTarget)
    ensures GoesTo(rule, q.path, HitKind(rule, q), moved) && IsExternal(moved)
    ensures moved == "/storage/emulated/0" ==> BuildDynamicTarget(rule, q.path, userId) == None
    ensures forall s :: moved == "/storage/emulated/0/" + s ==>
      BuildDynamicTarget(rule, q.path, userId) == Some("/data/media/" + Decimal(userId) + "/" + s)
  {
    hide Matched, IsExternal, GoesTo, BuildRedirectPath, BuildDynamicTarget, WellFormed;
    TargetIs(rule, q);
    moved := BuildRedirectPath(rule, q.path, HitKind(rule, q)).value;
    TargetStaysExternal(rule, q);
    DaemonTargetIsRerooted(rule, q, userId);
    forall s | moved == "/storage/emulated/0/" + s ensures moved != EXTERNAL_ROOT && moved[|EXTERNAL_ROOT| + 1..] == s {
    }
  }

  /** The number of a user is written in decimal digits, without zeros in front. */
  lemma {:induction false} DecimalIs(n: nat)
    ensures var text := Decimal(n);
      text != "" && AllDigits(text) && DigitsValue(text) == n && (text[0] == '0' ==> n == 0)
    decreases n
  {
    var digit := [(('0' as int) + n % 10) as char];
    assert IsDigit(digit[0]) && DigitValue(digit[0]) == n % 10;
    if n < 10 {
      assert digit[..0] == "" && DigitsValue("") == 0;
    } else {
      DecimalIs(n / 10);
      assert Decimal(n)[..|Decimal(n)| - 1] == Decimal(n / 10);
    }
  }
}
