/** What the patterns of rule paths accept, in plain words (native/rule_engine.cpp, lines 195-285 and 496-513). */
module PatternWords {
  import opened Text
  import opened PathKindCache
  import opened PathGlob
  import opened Rules
  import opened OneRuleTexts
  import opened Redirect
  import opened LineSyntax
  import Glob

  predicate EndsWith(text: string, end: string) {
    |text| >= |end| && text[|text| - |end|..] == end
  }

  // ---------------------------------------------------------------------------
  // The shape of a rule

  /** A rule path is literal without stars and question marks; a file-name glob if they stand behind its last slash only, no
    two stars side by side; invalid if a pattern ends in a slash; and otherwise a path glob. */
  lemma ShapeIs(dir: string, name: string)
    requires SlashFree(name)
    ensures var shape, path := AnalyzeGlobPattern(dir + "/" + name), dir + "/" + name;
      && (shape == NoGlob <==> Glob.IsLiteral(path))
      && (shape.FileNameGlob? <==> Glob.IsLiteral(dir) && !Glob.IsLiteral(name) && Find(name, "**") < 0)
      && (shape.FileNameGlob? ==> shape == FileNameGlob(dir, name))
      && (shape == InvalidGlob <==> !Glob.IsLiteral(path) && (name == "" || '/' !in path[..FirstGlobChar(path)]))
  {
    hide LastIndex, FirstGlobChar, HasGlobChars, HasDoubleStar, Find;
    var path := dir + "/" + name;
    LastSlashIn(dir, name);
    var globPos := FirstGlobChar(path);
    LiteralIs(path);
    TwoStarsAre(name);
    if Glob.IsLiteral(dir) {
      DoubleStarBehind(dir, name);
    }
    if globPos >= 0 {
      WhereItStarts(dir, name, globPos);
    }
  }

  lemma LiteralIs(path: string)
    ensures Glob.IsLiteral(path) <==> !HasGlobChars(path)
  {
  }

  lemma TwoStarsAre(text: string)
    ensures HasDoubleStar(text) <==> Find(text, "**") >= 0
  {
    hide Find;
    if HasDoubleStar(text) {
      var i :| 0 <= i < |text| - 1 && text[i] == '*' && text[i + 1] == '*';
      assert text[i..][..2] == "**";
    }
    if Find(text, "**") >= 0 {
      var at := Find(text, "**");
      assert text[at..][..2][0] == text[at] && text[at..][..2][1] == text[at + 1];
    }
  }

  lemma DoubleStarBehind(dir: string, name: string)
    requires Glob.IsLiteral(dir)
    ensures HasDoubleStar(dir + "/" + name) <==> HasDoubleStar(name)
  {
    var path, n := dir + "/" + name, |dir| + 1;
    if HasDoubleStar(path) {
      var i :| 0 <= i < |path| - 1 && path[i] == '*' && path[i + 1] == '*';
      assert forall k :: 0 <= k < |dir| ==> path[k] == dir[k];
      assert name[i - n] == '*' && name[i - n + 1] == '*';
    }
    if HasDoubleStar(name) {
      var i :| 0 <= i < |name| - 1 && name[i] == '*' && name[i + 1] == '*';
      assert path[n + i] == '*' && path[n + i + 1] == '*';
    }
  }

  lemma WhereItStarts(dir: string, name: string, globPos: nat)
    requires var path := dir + "/" + name;
      globPos < |path| && path[globPos] in "*?" && forall j :: 0 <= j < globPos ==> path[j] !in "*?"
    ensures Glob.IsLiteral(dir) <==> globPos > |dir|
    ensures globPos > |dir| ==> !Glob.IsLiteral(name)
  {
    var path := dir + "/" + name;
    assert forall i :: 0 <= i < |dir| ==> path[i] == dir[i];
    assert path[|dir|] == '/';
    if globPos < |dir| {
      assert dir[globPos] in "*?";
    } else {
      assert name[globPos - |dir| - 1] in "*?";
    }
  }

  // ---------------------------------------------------------------------------
  // One segment

  /** A literal beginning has to stand there. */
  lemma {:induction false} LiteralFirst(a: string, rest: string, text: string)
    requires Glob.IsLiteral(a)
    ensures Glob.Matches(a + rest, text) <==> StartsWith(text, a) && Glob.Matches(rest, text[|a|..])
    decreases |a|
  {
    if a == "" {
      assert a + rest == rest && text[0..] == text;
    } else {
      assert (a + rest)[1..] == a[1..] + rest && (a + rest)[0] == a[0] && a[0] in a;
      if text != "" {
        LiteralFirst(a[1..], rest, text[1..]);
        BeginsStep(text, a);
        if |text| >= |a| {
          assert text[1..][|a| - 1..] == text[|a|..];
        }
      }
    }
  }

  lemma BeginsStep(text: string, a: string)
    requires text != "" && a != ""
    ensures StartsWith(text, a) <==> text[0] == a[0] && StartsWith(text[1..], a[1..])
  {
    if |text| >= |a| {
      assert text[..|a|] == [text[0]] + text[1..][..|a| - 1];
      assert a == [a[0]] + a[1..];
      if text[..|a|] == a {
        assert text[1..][..|a| - 1] == a[1..];
      }
    }
  }

  lemma LiteralMatches(b: string, text: string)
    requires Glob.IsLiteral(b)
    ensures Glob.Matches(b, text) <==> text == b
  {
    assert b + "" == b;
    LiteralFirst(b, "", text);
    if StartsWith(text, b) && |text| == |b| {
      assert text[..|b|] == text;
    }
  }

  lemma StarThenLiteral(b: string, text: string)
    requires Glob.IsLiteral(b)
    ensures Glob.Matches("*" + b, text) <==> EndsWith(text, b)
  {
    assert ("*" + b)[1..] == b;
    forall k | 0 <= k <= |text| ensures Glob.Matches(b, text[k..]) <==> text[k..] == b {
      LiteralMatches(b, text[k..]);
    }
    if EndsWith(text, b) {
      assert Glob.Matches(b, text[|text| - |b|..]);
    }
  }

  /** A star stands for any text, also for none; a question mark for one character, whatever it is. */
  lemma StarAndMark(a: string, b: string, text: string)
    requires Glob.IsLiteral(a) && Glob.IsLiteral(b) && '*' !in text
    ensures Glob.Accepts(a + "*" + b, text) <==> |text| >= |a| + |b| && StartsWith(text, a) && EndsWith(text, b)
    ensures Glob.Accepts(a + "?" + b, text) <==> |text| == |a| + 1 + |b| && StartsWith(text, a) && EndsWith(text, b)
  {
    hide Glob.Accepts, Glob.Matches;
    Glob.AcceptsIsSound(a + "*" + b, text);
    Glob.AcceptsIsComplete(a + "*" + b, text);
    Glob.AcceptsIsSound(a + "?" + b, text);
    Glob.AcceptsIsComplete(a + "?" + b, text);
    assert a + "*" + b == a + ("*" + b) && a + "?" + b == a + ("?" + b);
    LiteralFirst(a, "*" + b, text);
    LiteralFirst(a, "?" + b, text);
    if StartsWith(text, a) {
      var rest := text[|a|..];
      StarThenLiteral(b, rest);
      MarkThenLiteral(b, rest);
      if |rest| >= |b| {
        assert rest[|rest| - |b|..] == text[|text| - |b|..];
      }
    }
  }

  lemma MarkThenLiteral(b: string, text: string)
    requires Glob.IsLiteral(b)
    ensures Glob.Matches("?" + b, text) <==> |text| == 1 + |b| && EndsWith(text, b)
  {
    assert ("?" + b)[1..] == b;
    if text != "" {
      LiteralMatches(b, text[1..]);
    }
  }

  // ---------------------------------------------------------------------------
  // File-name globs

  /** A rule `dir/a*b` is about what lies in the directory itself, and there about the names that begin and end so. */
  lemma StarRuleMatches(rule: CompiledRule, dir: string, a: string, b: string, q: Query)
    requires WellFormed(rule) && rule.hasGlob && rule.path == dir + "/" + (a + "*" + b)
    requires SlashFree(a) && SlashFree(b) && Glob.IsLiteral(a) && Glob.IsLiteral(b) && '*' !in q.path
    ensures Matched(rule, q) <==>
      exists name :: IsEntry(q.path, dir, name) && |name| >= |a| + |b| && StartsWith(name, a) && EndsWith(name, b)
  {
    hide LastIndex, Glob.Accepts, Glob.IsLiteral, StartsWith, EndsWith, WellFormed, SlashFree, MatchedByName;
    NoSlashInside(a, b);
    GlobPartsAre(rule, dir, a + "*" + b);
    MatchedEntry(rule, dir, q);
    forall name | q.path == dir + "/" + name
      ensures Glob.Accepts(a + "*" + b, name) <==> |name| >= |a| + |b| && StartsWith(name, a) && EndsWith(name, b)
    {
      NameIsStarFree(dir, name);
      StarAndMark(a, b, name);
    }
    assert MatchedByName(rule, dir, q) <==> exists name :: IsEntry(q.path, dir, name) && Glob.Accepts(rule.globPattern, name) by {
      MatchedByNameIs(rule, dir, q);
    }
  }

  predicate IsEntry(path: string, dir: string, name: string) {
    path == dir + "/" + name && SlashFree(name) && name != ""
  }

  ghost predicate MatchedByName(rule: CompiledRule, dir: string, q: Query) {
    exists name :: IsEntry(q.path, dir, name) && Glob.Accepts(rule.globPattern, name)
  }

  lemma MatchedByNameIs(rule: CompiledRule, dir: string, q: Query)
    ensures MatchedByName(rule, dir, q) <==> exists name :: IsEntry(q.path, dir, name) && Glob.Accepts(rule.globPattern, name)
  {
    hide Glob.Accepts, IsEntry;
  }

  /** A file-name glob is about the entries of its directory whose names its pattern accepts. */
  lemma MatchedEntry(rule: CompiledRule, dir: string, q: Query)
    requires !rule.hasPathGlob && rule.hasGlob && rule.globParent == dir
    ensures Matched(rule, q) <==> MatchedByName(rule, dir, q)
  {
    hide LastIndex, Glob.Accepts;
    var slash := LastIndex(q.path, '/');
    if Matched(rule, q) {
      NoSlashBehind(q.path, slash);
      assert IsEntry(q.path, dir, q.path[slash + 1..]);
    }
    if name :| IsEntry(q.path, dir, name) && Glob.Accepts(rule.globPattern, name) {
      LastSlashIn(dir, name);
      assert q.path[..|dir|] == dir;
    }
  }

  lemma NoSlashInside(a: string, b: string)
    requires SlashFree(a) && SlashFree(b)
    ensures SlashFree(a + "*" + b)
  {
  }

  lemma GlobPartsAre(rule: CompiledRule, dir: string, pattern: string)
    requires WellFormed(rule) && rule.hasGlob && rule.path == dir + "/" + pattern && SlashFree(pattern)
    ensures !rule.hasPathGlob && rule.globParent == dir && rule.globPattern == pattern
  {
    hide LastIndex, FirstGlobChar, HasDoubleStar;
    LastSlashIn(dir, pattern);
    assert rule.path[..|dir|] == dir;
  }

  // ---------------------------------------------------------------------------
  // Path globs

  /** Behind a literal base, the rest of the pattern has to accept what lies below it. */
  lemma BaseInFront(base: string, rest: string, text: string)
    requires !HasGlobChars(base)
    ensures PathAccepts(base + "/" + rest, text) <==>
      || (text == base && Decides(Split(rest), []))
      || exists tail :: text == base + "/" + tail && Decides(Split(rest), Split(tail))
  {
    hide Split, Decides, HasGlobChars;
    var bs, ps := Split(base), Split(rest);
    SplitOfConcat(base, rest);
    LiteralSegments(base);
    if PathAccepts(base + "/" + rest, text) {
      LiteralSegmentsMatchThemselves(bs, ps, Split(text));
      RestOfText(base, text);
    }
    if text == base && Decides(ps, []) {
      LiteralPrefixStep(bs, ps, []);
      assert bs + [] == bs;
    }
    if tail :| text == base + "/" + tail && Decides(ps, Split(tail)) {
      SplitOfConcat(base, tail);
      LiteralPrefixStep(bs, ps, Split(tail));
    }
  }

  /** A text whose first segments are those of the base is the base, or goes on behind it. */
  lemma RestOfText(base: string, text: string)
    requires var bs, ts := Split(base), Split(text); |bs| <= |ts| && ts[..|bs|] == bs
    ensures var us := Split(text)[|Split(base)|..];
      if us == [] then text == base else Split(Join(us)) == us && text == base + "/" + Join(us)
  {
    hide Split;
    var bs, ts := Split(base), Split(text);
    var us := ts[|bs|..];
    JoinOfSplit(base);
    JoinOfSplit(text);
    assert ts == bs + us;
    if us != [] {
      SplitOfJoin(us);
      JoinAppend(bs, us);
    } else {
      assert ts == bs;
    }
  }

  /** `base` with `**` as one more segment is about the base and everything below it. */
  lemma AllBelow(base: string, text: string)
    requires !HasGlobChars(base)
    ensures PathAccepts(base + "/" + "**", text) <==> IsDirectoryMatch(text, base)
  {
    hide Split, HasGlobChars, PathAccepts, Decides;
    BaseInFront(base, "**", text);
    SplitOfSlashFree("**");
    forall us: seq<string> ensures Decides(["**"], us) {
      AnyDepthTakesAll(us);
    }
    if |text| > |base| && StartsWith(text, base) && text[|base|] == '/' {
      assert text == base + "/" + text[|base| + 1..];
    }
    if tail :| text == base + "/" + tail {
      assert text[..|base|] == base && text[|base|] == '/';
    }
  }

  lemma AnyDepthTakesAll(us: seq<string>)
    ensures Decides(["**"], us)
  {
    assert ["**"][1..] == [] && us[|us|..] == [];
  }

  /** `base` with `**` and one more segment behind it is about the entries at any depth, also right below the base, whose
    own name that segment accepts. */
  lemma AtAnyDepth(base: string, last: string, text: string)
    requires !HasGlobChars(base) && SlashFree(last) && last != "**"
    ensures PathAccepts(base + "/" + ("**" + "/" + last), text) <==>
      exists front, name :: SlashFree(name) && Glob.Accepts(last, name) && text == front + "/" + name && IsDirectoryMatch(front, base)
  {
    hide Split, HasGlobChars, Decides, Glob.Accepts, IsDirectoryMatch;
    BaseInFront(base, "**" + "/" + last, text);
    SplitOfConcat("**", last);
    SplitOfSlashFree("**");
    SplitOfSlashFree(last);
    var ps := ["**"] + [last];
    AnyDepthThenOne(last, []);
    if tail :| text == base + "/" + tail && Decides(ps, Split(tail)) {
      var us := Split(tail);
      AnyDepthThenOne(last, us);
      var front := FrontOfTail(base, tail);
    }
    if front, name :| SlashFree(name) && Glob.Accepts(last, name) && text == front + "/" + name && IsDirectoryMatch(front, base) {
      var tail := TailOfFront(base, front, name);
      AnyDepthThenOne(last, Split(tail));
    }
  }

  lemma {:induction false} AnyDepthThenOne(last: string, us: seq<string>)
    requires last != "**"
    ensures Decides(["**"] + [last], us) <==> us != [] && Glob.Accepts(last, us[|us| - 1])
  {
    var ps := ["**"] + [last];
    assert ps[1..] == [last] && [last][1..] == [];
    forall k | 0 <= k <= |us| ensures Decides([last], us[k..]) <==> k == |us| - 1 && Glob.Accepts(last, us[k]) {
      OneSegment(last, us[k..]);
    }
    if us != [] {
      assert Decides([last], us[|us| - 1..]) <==> Glob.Accepts(last, us[|us| - 1]);
    }
  }

  lemma OneSegment(last: string, us: seq<string>)
    requires last != "**"
    ensures Decides([last], us) <==> |us| == 1 && Glob.Accepts(last, us[0])
  {
    assert [last][1..] == [];
  }

  lemma FrontOfTail(base: string, tail: string) returns (front: string)
    ensures var us := Split(tail); SlashFree(us[|us| - 1]) && base + "/" + tail == front + "/" + us[|us| - 1]
    ensures IsDirectoryMatch(front, base)
  {
    hide Split;
    var us := Split(tail);
    var init, name := us[..|us| - 1], us[|us| - 1];
    assert us == init + [name];
    JoinOfSplit(tail);
    JoinOfOne(name);
    if init == [] {
      assert us == [name];
      front := base;
    } else {
      JoinAppend(init, [name]);
      front := base + "/" + Join(init);
      assert front[..|base|] == base;
      assert base + "/" + tail == front + "/" + name;
    }
  }

  lemma TailOfFront(base: string, front: string, name: string) returns (tail: string)
    requires IsDirectoryMatch(front, base) && SlashFree(name)
    ensures front + "/" + name == base + "/" + tail && Split(tail)[|Split(tail)| - 1] == name
  {
    hide Split;
    SplitOfSlashFree(name);
    if front == base {
      tail := name;
    } else {
      var mid := front[|base| + 1..];
      tail := mid + "/" + name;
      SplitOfConcat(mid, name);
      assert front == base + "/" + mid;
    }
  }

  /** So a rule such as `base` with `**` and `*.pdf` behind it is about the PDF files at any depth below the base. */
  lemma ByNameAtAnyDepth(rule: CompiledRule, base: string, a: string, b: string, q: Query)
    requires WellFormed(rule) && rule.hasPathGlob && rule.path == base + "/" + ("**" + "/" + (a + "*" + b))
    requires !HasGlobChars(base) && SlashFree(a) && SlashFree(b) && Glob.IsLiteral(a) && Glob.IsLiteral(b)
    requires '*' !in q.path
    ensures Matched(rule, q) <==>
      exists front, name :: q.path == front + "/" + name && SlashFree(name) && IsDirectoryMatch(front, base)
        && |name| >= |a| + |b| && StartsWith(name, a) && EndsWith(name, b)
  {
    hide Glob.Accepts, Glob.IsLiteral, StartsWith, EndsWith, WellFormed, PathAccepts, IsDirectoryMatch, HasGlobChars;
    NoSlashInside(a, b);
    OneStarOnly(a, b);
    AtAnyDepth(base, a + "*" + b, q.path);
    EngineTestIsRedundant(rule, q);
    forall front, name | q.path == front + "/" + name
      ensures Glob.Accepts(a + "*" + b, name) <==> |name| >= |a| + |b| && StartsWith(name, a) && EndsWith(name, b)
    {
      assert '*' !in name by { NameIsStarFree(front, name); }
      StarAndMark(a, b, name);
    }
  }

  lemma OneStarOnly(a: string, b: string)
    requires Glob.IsLiteral(a) && Glob.IsLiteral(b)
    ensures a + "*" + b != "**"
  {
    var pattern := a + "*" + b;
    if |a| == 1 {
      assert pattern[0] == a[0] && a[0] in a;
    } else if |b| == 1 && a == "" {
      assert pattern[1] == b[0] && b[0] in b;
    }
  }

  lemma NameIsStarFree(front: string, name: string)
    requires '*' !in front + "/" + name
    ensures '*' !in name
  {
    assert forall i :: 0 <= i < |name| ==> (front + "/" + name)[|front| + 1 + i] == name[i];
  }

  lemma EngineTestIsRedundant(rule: CompiledRule, q: Query)
    requires WellFormed(rule) && rule.hasPathGlob
    ensures Matched(rule, q) <==> PathAccepts(rule.path, q.path)
  {
    hide PathAccepts;
    BasePrefixIsRedundant(rule.path, q.path);
  }
}
