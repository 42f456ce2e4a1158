/** Path globs: `**` stands for any number of segments, and each other segment is a wildcard pattern for one.

  native/rule_engine.cpp (lines 225-285) and native/folder_manager_daemon.cpp (lines 444-516) both answer by a
  memoised depth-first search, each in its own way. Both are proved here against the relation `Decides`.
*/
module PathGlob {
  import opened Text
  import Glob

  newtype int8 = x: int | -128 <= x < 128

  const ANY_DEPTH := "**"

  /** The meaning of a list of pattern segments, given what the segment matcher answers. */
  ghost predicate Decides(ps: seq<string>, ts: seq<string>)
    decreases |ps|
  {
    if ps == [] then ts == []
    else if ps[0] == ANY_DEPTH then exists k :: 0 <= k <= |ts| && Decides(ps[1..], ts[k..])
    else ts != [] && Glob.Accepts(ps[0], ts[0]) && Decides(ps[1..], ts[1..])
  }

  /** The intended meaning: the same relation over the declarative meaning of a segment. */
  ghost predicate Denotes(ps: seq<string>, ts: seq<string>)
    decreases |ps|
  {
    if ps == [] then ts == []
    else if ps[0] == ANY_DEPTH then exists k :: 0 <= k <= |ts| && Denotes(ps[1..], ts[k..])
    else ts != [] && Glob.Matches(ps[0], ts[0]) && Denotes(ps[1..], ts[1..])
  }

  ghost predicate PathAccepts(pattern: string, text: string) {
    Decides(Split(pattern), Split(text))
  }

  ghost predicate PathDenotes(pattern: string, text: string) {
    Denotes(Split(pattern), Split(text))
  }

  // ---------------------------------------------------------------------------
  // How the two searches unfold `**`

  lemma AnyDepthStep(ps: seq<string>, ts: seq<string>)
    requires ps != [] && ps[0] == ANY_DEPTH
    ensures Decides(ps, ts) <==> Decides(ps[1..], ts) || (ts != [] && Decides(ps, ts[1..]))
  {
    assert ts[0..] == ts;
    if ts != [] {
      assert forall k :: 0 < k <= |ts| ==> ts[k..] == ts[1..][k - 1..];
      if Decides(ps, ts[1..]) {
        var k :| 0 <= k <= |ts[1..]| && Decides(ps[1..], ts[1..][k..]);
        assert ts[1..][k..] == ts[k + 1..];
      }
    }
  }

  ghost predicate SomeSuffix(ps: seq<string>, ts: seq<string>) {
    exists k :: 0 <= k <= |ts| && Decides(ps, ts[k..])
  }

  /** A run of `**` means the same as one of them. */
  lemma {:induction false} AnyDepthRun(ps: seq<string>, ts: seq<string>, n: nat)
    requires 0 < n <= |ps| && forall i :: 0 <= i < n ==> ps[i] == ANY_DEPTH
    ensures Decides(ps, ts) <==> SomeSuffix(ps[n..], ts)
    decreases n
  {
    if n > 1 {
      assert ps[1..][n - 1..] == ps[n..];
      forall k | 0 <= k <= |ts|
        ensures Decides(ps[1..], ts[k..]) <==> SomeSuffix(ps[n..], ts[k..])
      {
        AnyDepthRun(ps[1..], ts[k..], n - 1);
      }
      if Decides(ps, ts) {
        var k :| 0 <= k <= |ts| && Decides(ps[1..], ts[k..]);
      }
      assert ts[0..] == ts;
    }
  }

  // ---------------------------------------------------------------------------
  // The memo table: one cell for each pair of suffixes

  function Cell(p: nat, t: nat, pLen: nat, tLen: nat): (c: nat)
    requires p <= pLen && t <= tLen
    ensures c < (pLen + 1) * (tLen + 1)
  {
    assert p * (tLen + 1) <= pLen * (tLen + 1);
    p * (tLen + 1) + t
  }

  lemma CellsAreDistinct(p: nat, t: nat, q: nat, u: nat, pLen: nat, tLen: nat)
    requires p <= pLen && t <= tLen && q <= pLen && u <= tLen
    requires Cell(p, t, pLen, tLen) == Cell(q, u, pLen, tLen)
    ensures p == q && t == u
  {
    if p < q {
      RowsAreApart(p + 1, q, tLen + 1);
    } else if q < p {
      RowsAreApart(q + 1, p, tLen + 1);
    }
  }

  lemma RowsAreApart(row: nat, later: nat, width: nat)
    requires row <= later
    ensures row * width <= later * width
  {
  }

  ghost predicate CellHolds(ps: seq<string>, ts: seq<string>, p: nat, t: nat, value: int8)
    requires p <= |ps| && t <= |ts|
  {
    && -1 <= value <= 1
    && (value >= 0 ==> (value == 1 <==> Decides(ps[p..], ts[t..])))
  }

  /** Every filled cell holds the right answer. */
  ghost predicate MemoHolds(ps: seq<string>, ts: seq<string>, memo: array<int8>)
    reads memo
  {
    && memo.Length == (|ps| + 1) * (|ts| + 1)
    && forall p: nat, t: nat | p <= |ps| && t <= |ts| :: CellHolds(ps, ts, p, t, memo[Cell(p, t, |ps|, |ts|)])
  }

  twostate predicate OnlyFills(memo: array<int8>)
    reads memo
  {
    forall i :: 0 <= i < memo.Length && old(memo[i]) >= 0 ==> memo[i] == old(memo[i])
  }

  method Fill(ps: seq<string>, ts: seq<string>, memo: array<int8>, p: nat, t: nat, matched: bool)
    requires p <= |ps| && t <= |ts| && MemoHolds(ps, ts, memo)
    requires matched <==> Decides(ps[p..], ts[t..])
    modifies memo
    ensures MemoHolds(ps, ts, memo) && OnlyFills(memo)
    ensures memo[Cell(p, t, |ps|, |ts|)] >= 0
  {
    var idx := Cell(p, t, |ps|, |ts|);
    assert CellHolds(ps, ts, p, t, memo[idx]);
    memo[idx] := if matched then 1 else 0;
    forall q: nat, u: nat | q <= |ps| && u <= |ts|
      ensures CellHolds(ps, ts, q, u, memo[Cell(q, u, |ps|, |ts|)])
    {
      if Cell(q, u, |ps|, |ts|) == idx {
        CellsAreDistinct(p, t, q, u, |ps|, |ts|);
      } else {
        assert CellHolds(ps, ts, q, u, old(memo[Cell(q, u, |ps|, |ts|)]));
      }
    }
  }

  // The meaning of a pair of suffixes, one case for each branch of the searches.

  lemma DecidesAtEnd(ps: seq<string>, ts: seq<string>, t: nat)
    requires t <= |ts|
    ensures Decides(ps[|ps|..], ts[t..]) <==> t == |ts|
  {
  }

  lemma DecidesSegment(ps: seq<string>, ts: seq<string>, p: nat, t: nat)
    requires p < |ps| && t <= |ts| && ps[p] != ANY_DEPTH
    ensures Decides(ps[p..], ts[t..]) <==> t < |ts| && Glob.Accepts(ps[p], ts[t]) && Decides(ps[p + 1..], ts[t + 1..])
  {
    hide Glob.Accepts;
    assert ps[p..][1..] == ps[p + 1..];
    if t < |ts| {
      assert ts[t..][1..] == ts[t + 1..];
    }
  }

  lemma DecidesSwallow(ps: seq<string>, ts: seq<string>, p: nat, t: nat)
    requires p < |ps| && t <= |ts| && ps[p] == ANY_DEPTH
    ensures Decides(ps[p..], ts[t..]) <==> Decides(ps[p + 1..], ts[t..]) || (t < |ts| && Decides(ps[p..], ts[t + 1..]))
  {
    hide Decides;
    AnyDepthStep(ps[p..], ts[t..]);
    assert ps[p..][1..] == ps[p + 1..];
    if t < |ts| {
      assert ts[t..][1..] == ts[t + 1..];
    }
  }

  lemma DecidesRun(ps: seq<string>, ts: seq<string>, p: nat, next: nat, t: nat)
    requires p < next <= |ps| && t <= |ts| && forall i :: p <= i < next ==> ps[i] == ANY_DEPTH
    ensures Decides(ps[p..], ts[t..]) <==> exists k :: t <= k <= |ts| && Decides(ps[next..], ts[k..])
  {
    hide Decides;
    AnyDepthRun(ps[p..], ts[t..], next - p);
    assert ps[p..][next - p..] == ps[next..];
    assert forall j :: 0 <= j <= |ts[t..]| ==> ts[t..][j..] == ts[t + j..];
    assert forall k :: t <= k <= |ts| ==> ts[k..] == ts[t..][k - t..];
  }

  /** The search of the engine: `**` either ends here or swallows one more text segment. */
  method EngineDfs(ps: seq<string>, ts: seq<string>, memo: array<int8>, p: nat, t: nat) returns (matched: bool)
    requires p <= |ps| && t <= |ts| && MemoHolds(ps, ts, memo)
    modifies memo
    ensures MemoHolds(ps, ts, memo) && OnlyFills(memo)
    ensures memo[Cell(p, t, |ps|, |ts|)] >= 0
    ensures matched <==> Decides(ps[p..], ts[t..])
    decreases |ps| - p, |ts| - t
  {
    hide Decides, Glob.Accepts, Glob.Matches;
    var cached := memo[Cell(p, t, |ps|, |ts|)];
    assert CellHolds(ps, ts, p, t, cached);
    if cached >= 0 {
      return cached != 0;
    }
    matched := false;
    if p == |ps| {
      DecidesAtEnd(ps, ts, t);
      matched := t == |ts|;
    } else {
      var token := ps[p];
      if token != ANY_DEPTH {
        DecidesSegment(ps, ts, p, t);
      }
      if token == ANY_DEPTH {
        DecidesSwallow(ps, ts, p, t);
        matched := EngineDfs(ps, ts, memo, p + 1, t);
        if !matched && t < |ts| {
          matched := EngineDfs(ps, ts, memo, p, t + 1);
        }
      } else if t < |ts| {
        var accepted, _ := Glob.MatchGlob(token, ts[t]);
        if accepted {
          matched := EngineDfs(ps, ts, memo, p + 1, t + 1);
        }
      }
    }
    Fill(ps, ts, memo, p, t, matched);
  }

  /** The search of the daemon: skip the whole run of `**`, then try every text suffix in turn. */
  method DaemonDfs(ps: seq<string>, ts: seq<string>, memo: array<int8>, p: nat, t: nat) returns (matched: bool)
    requires p <= |ps| && t <= |ts| && MemoHolds(ps, ts, memo)
    modifies memo
    ensures MemoHolds(ps, ts, memo) && OnlyFills(memo)
    ensures memo[Cell(p, t, |ps|, |ts|)] >= 0
    ensures matched <==> Decides(ps[p..], ts[t..])
    decreases |ps| - p, |ts| - t
  {
    hide Decides, Glob.Accepts, Glob.Matches;
    var cached := memo[Cell(p, t, |ps|, |ts|)];
    assert CellHolds(ps, ts, p, t, cached);
    if cached >= 0 {
      return cached != 0;
    }
    if p == |ps| {
      DecidesAtEnd(ps, ts, t);
      matched := t == |ts|;
      Fill(ps, ts, memo, p, t, matched);
      return;
    }
    var segment := ps[p];
    if segment == ANY_DEPTH {
      var next := p;
      while next < |ps| && ps[next] == ANY_DEPTH
        invariant p <= next <= |ps|
        invariant forall i :: p <= i < next ==> ps[i] == ANY_DEPTH
      {
        next := next + 1;
      }
      DecidesRun(ps, ts, p, next, t);
      matched := false;
      var k := t;
      while k <= |ts|
        invariant t <= k <= |ts| + 1
        invariant MemoHolds(ps, ts, memo) && OnlyFills(memo)
        invariant forall j :: t <= j < k ==> !Decides(ps[next..], ts[j..])
      {
        matched := DaemonDfs(ps, ts, memo, next, k);
        if matched {
          Fill(ps, ts, memo, p, t, true);
          return true;
        }
        k := k + 1;
      }
      Fill(ps, ts, memo, p, t, false);
      return false;
    }
    DecidesSegment(ps, ts, p, t);
    if t >= |ts| {
      Fill(ps, ts, memo, p, t, false);
      return false;
    }
    var accepted, _ := Glob.MatchGlob(segment, ts[t]);
    if !accepted {
      Fill(ps, ts, memo, p, t, false);
      return false;
    }
    matched := DaemonDfs(ps, ts, memo, p + 1, t + 1);
    Fill(ps, ts, memo, p, t, matched);
  }

  method SplitPathSegments(path: string) returns (segments: seq<string>)
    ensures segments == Split(path)
  {
    hide Split;
    segments := [];
    var start := 0;
    assert path[0..] == path;
    while true
      invariant 0 <= start <= |path|
      invariant segments + Split(path[start..]) == Split(path)
      decreases |path| - start
    {
      var slash := FirstIndex(path[start..], '/');
      if slash < 0 {
        SplitOfSlashFree(path[start..]);
        return segments + [path[start..]];
      }
      NextSegment(segments, path, start, slash);
      segments := segments + [path[start..start + slash]];
      start := start + slash + 1;
    }
  }

  lemma NextSegment(segments: seq<string>, path: string, start: nat, slash: nat)
    requires start <= |path| && slash == FirstIndex(path[start..], '/')
    ensures segments + Split(path[start..])
         == (segments + [path[start..start + slash]]) + Split(path[start + slash + 1..])
  {
    hide Split;
    var rest := path[start..];
    assert rest[..slash] == path[start..start + slash];
    assert rest[slash + 1..] == path[start + slash + 1..];
    assert SlashFree(rest[..slash]);
    SplitAt(rest, slash);
    assert segments + ([rest[..slash]] + Split(rest[slash + 1..])) == (segments + [rest[..slash]]) + Split(rest[slash + 1..]);
  }

  method NewMemo(ps: seq<string>, ts: seq<string>) returns (memo: array<int8>)
    ensures fresh(memo) && MemoHolds(ps, ts, memo)
    ensures forall i :: 0 <= i < memo.Length ==> memo[i] == -1
  {
    memo := new int8[(|ps| + 1) * (|ts| + 1)](_ => -1);
  }

  method EngineMatchPathGlob(pattern: string, text: string) returns (matched: bool)
    ensures matched <==> PathAccepts(pattern, text)
    ensures '*' !in text ==> (matched <==> PathDenotes(pattern, text))
  {
    AcceptsIsDenotes(pattern, text);
    var ps := SplitPathSegments(pattern);
    var ts := SplitPathSegments(text);
    var memo := NewMemo(ps, ts);
    matched := EngineDfs(ps, ts, memo, 0, 0);
  }

  method DaemonMatchPathGlob(pattern: string, text: string) returns (matched: bool)
    ensures matched <==> PathAccepts(pattern, text)
    ensures '*' !in text ==> (matched <==> PathDenotes(pattern, text))
  {
    AcceptsIsDenotes(pattern, text);
    var ps := SplitPathSegments(pattern);
    var ts := SplitPathSegments(text);
    var memo := NewMemo(ps, ts);
    matched := DaemonDfs(ps, ts, memo, 0, 0);
  }

  // ---------------------------------------------------------------------------
  // Exactly when a path glob decides what it denotes, for every pattern

  predicate AllStarFree(segments: seq<string>) {
    forall i :: 0 <= i < |segments| ==> '*' !in segments[i]
  }

  lemma {:induction false} DecidesIsDenotes(ps: seq<string>, ts: seq<string>)
    requires AllStarFree(ts)
    ensures Decides(ps, ts) <==> Denotes(ps, ts)
    decreases |ps|
  {
    if ps == [] {
    } else if ps[0] == ANY_DEPTH {
      forall k | 0 <= k <= |ts| ensures Decides(ps[1..], ts[k..]) <==> Denotes(ps[1..], ts[k..]) {
        DecidesIsDenotes(ps[1..], ts[k..]);
      }
    } else if ts != [] {
      Glob.TrustedTexts(ts[0]);
      DecidesIsDenotes(ps[1..], ts[1..]);
    }
  }

  lemma AcceptsIsDenotes(pattern: string, text: string)
    ensures '*' !in text ==> (PathAccepts(pattern, text) <==> PathDenotes(pattern, text))
  {
    if '*' !in text {
      SegmentCharacters(text, '*');
      DecidesIsDenotes(Split(pattern), Split(text));
    }
  }

  lemma {:induction false} LiteralPrefixStep(prefix: seq<string>, ps: seq<string>, ts: seq<string>)
    requires forall i :: 0 <= i < |prefix| ==> '*' !in prefix[i]
    ensures Decides(prefix + ps, prefix + ts) <==> Decides(ps, ts)
    ensures Denotes(prefix + ps, prefix + ts) <==> Denotes(ps, ts)
    decreases |prefix|
  {
    if prefix == [] {
      assert prefix + ps == ps && prefix + ts == ts;
    } else {
      assert (prefix + ps)[1..] == prefix[1..] + ps && (prefix + ts)[1..] == prefix[1..] + ts;
      LiteralPrefixStep(prefix[1..], ps, ts);
      assert ANY_DEPTH[0] in ANY_DEPTH;
      Glob.MatchesSelf(prefix[0], prefix[0]);
      Glob.TrustedTexts(prefix[0]);
    }
  }

  lemma TrustedPaths(text: string)
    ensures (forall pattern :: PathAccepts(pattern, text) <==> PathDenotes(pattern, text)) <==> '*' !in text
  {
    if '*' !in text {
      forall pattern ensures PathAccepts(pattern, text) <==> PathDenotes(pattern, text) {
        AcceptsIsDenotes(pattern, text);
      }
    } else {
      SegmentCharacters(text, '*');
      var i := FirstStarred(Split(text));
      var bad := FooledSegment(Split(text)[i]);
      var pattern := FooledPath(text, i, bad);
      assert !(PathAccepts(pattern, text) <==> PathDenotes(pattern, text));
    }
  }

  lemma FooledSegment(segment: string) returns (bad: string)
    requires '*' in segment && SlashFree(segment)
    ensures bad != "" && bad[|bad| - 1] == '?' && SlashFree(bad)
    ensures Glob.Matches(bad, segment) && !Glob.Accepts(bad, segment)
  {
    hide Glob.Matches, Glob.Accepts;
    var at := Glob.FirstStar(segment);
    Glob.FoolingPatternFools(segment, at);
    bad := Glob.FoolingPattern(segment, at);
    assert forall j :: 0 <= j < |bad| ==> bad[j] in segment || bad[j] == '*' || bad[j] == '?';
  }

  lemma FooledPath(text: string, i: nat, bad: string) returns (pattern: string)
    requires i < |Split(text)| && (forall j :: 0 <= j < i ==> '*' !in Split(text)[j])
    requires bad != "" && bad[|bad| - 1] == '?' && SlashFree(bad)
    requires Glob.Matches(bad, Split(text)[i]) && !Glob.Accepts(bad, Split(text)[i])
    ensures PathDenotes(pattern, text) && !PathAccepts(pattern, text)
  {
    hide Split, Decides, Denotes, Glob.Matches, Glob.Accepts;
    var ts := Split(text);
    var ps := ts[..i] + [bad, ANY_DEPTH];
    FooledAfterPrefix(bad, ts[i..]);
    LiteralPrefixStep(ts[..i], [bad, ANY_DEPTH], ts[i..]);
    assert ts == ts[..i] + ts[i..];
    SplitOfJoin(ps);
    pattern := Join(ps);
  }

  lemma FooledAfterPrefix(bad: string, ts: seq<string>)
    requires ts != [] && bad != "" && bad[|bad| - 1] == '?'
    requires Glob.Matches(bad, ts[0]) && !Glob.Accepts(bad, ts[0])
    ensures Denotes([bad, ANY_DEPTH], ts) && !Decides([bad, ANY_DEPTH], ts)
  {
    assert [bad, ANY_DEPTH][1..] == [ANY_DEPTH];
    var rest := ts[1..];
    assert rest[|rest|..] == [];
    assert [ANY_DEPTH][1..] == [];
    assert Denotes([ANY_DEPTH], rest);
  }

  lemma FirstStarred(segments: seq<string>) returns (i: nat)
    requires SomeSegmentHas(segments, '*')
    ensures i < |segments| && '*' in segments[i] && forall j :: 0 <= j < i ==> '*' !in segments[j]
  {
    i := 0;
    while '*' !in segments[i]
      invariant i < |segments| && forall j :: 0 <= j < i ==> '*' !in segments[j]
      invariant exists j :: i <= j < |segments| && '*' in segments[j]
      decreases |segments| - i
    {
      i := i + 1;
    }
  }

  // ---------------------------------------------------------------------------
  // Where a rule path is cut into a literal base and a pattern

  datatype GlobShape =
    | NoGlob
    | FileNameGlob(parent: string, pattern: string)
    | WholePathGlob(base: string)
    | InvalidGlob

  predicate HasGlobChars(path: string) {
    exists i :: 0 <= i < |path| && path[i] in "*?"
  }

  function FirstGlobChar(path: string): (i: int)
    ensures -1 <= i < |path|
    ensures i >= 0 ==> path[i] in "*?" && forall j :: 0 <= j < i ==> path[j] !in "*?"
    ensures i < 0 <==> !HasGlobChars(path)
  {
    if path == "" then -1
    else if path[0] in "*?" then 0
    else
      var rest := FirstGlobChar(path[1..]);
      assert forall j :: 0 < j < |path| ==> path[j] == path[1..][j - 1];
      assert rest >= 0 ==> path[rest + 1] in "*?";
      if rest < 0 then -1 else rest + 1
  }

  predicate HasDoubleStar(path: string) {
    exists i :: 0 <= i < |path| - 1 && path[i] == '*' && path[i + 1] == '*'
  }

  function AnalyzeGlobPattern(path: string): GlobShape {
    var globPos := FirstGlobChar(path);
    if globPos < 0 then NoGlob
    else
      var lastSlash := LastIndex(path, '/');
      if lastSlash < 0 || lastSlash + 1 >= |path| then InvalidGlob
      else if HasDoubleStar(path) || globPos < lastSlash then
        var baseEnd := LastIndex(path[..globPos + 1], '/');
        if baseEnd < 0 then InvalidGlob else WholePathGlob(path[..baseEnd])
      else FileNameGlob(path[..lastSlash], path[lastSlash + 1..])
  }

  /** The base is the literal part before the segment that holds the first wildcard. */
  lemma WholePathGlobShape(path: string)
    requires AnalyzeGlobPattern(path).WholePathGlob?
    ensures var base := AnalyzeGlobPattern(path).base;
      && StartsWith(path, base + "/")
      && !HasGlobChars(base)
      && HasGlobChars(Split(path[|base| + 1..])[0])
  {
    hide Split, FirstGlobChar, LastIndex, HasDoubleStar;
    var globPos := FirstGlobChar(path);
    var baseEnd := LastIndex(path[..globPos + 1], '/');
    FirstSegmentHasGlob(path, baseEnd, globPos);
  }

  lemma FirstSegmentHasGlob(path: string, baseEnd: nat, globPos: nat)
    requires baseEnd < globPos < |path| && path[globPos] in "*?"
    requires forall j :: baseEnd < j <= globPos ==> path[j] != '/'
    ensures HasGlobChars(Split(path[baseEnd + 1..])[0])
  {
    var rest := path[baseEnd + 1..];
    var slash := FirstIndex(rest, '/');
    var at := globPos - baseEnd - 1;
    assert rest[at] == path[globPos];
    if slash >= 0 {
      assert rest[slash] == path[baseEnd + 1 + slash];
      assert rest[..slash][at] == path[globPos];
    }
  }

  /** A file-name glob keeps its wildcards in the last segment and has no `**`. */
  lemma FileNameGlobShape(path: string)
    requires AnalyzeGlobPattern(path).FileNameGlob?
    ensures var shape := AnalyzeGlobPattern(path);
      && path == shape.parent + "/" + shape.pattern
      && SlashFree(shape.pattern)
      && !HasGlobChars(shape.parent)
      && HasGlobChars(shape.pattern)
      && !HasDoubleStar(shape.pattern)
  {
    hide FirstGlobChar, LastIndex, HasDoubleStar, HasGlobChars;
    var globPos := FirstGlobChar(path);
    var lastSlash := LastIndex(path, '/');
    PartsOfFileNameGlob(path, globPos, lastSlash);
    PatternHasNoDoubleStar(path, lastSlash);
  }

  lemma PartsOfFileNameGlob(path: string, globPos: nat, lastSlash: nat)
    requires lastSlash <= globPos < |path| && path[globPos] in "*?" && forall j :: 0 <= j < globPos ==> path[j] !in "*?"
    requires path[lastSlash] == '/' && forall j :: lastSlash < j < |path| ==> path[j] != '/'
    ensures path == path[..lastSlash] + "/" + path[lastSlash + 1..] && SlashFree(path[lastSlash + 1..])
    ensures !HasGlobChars(path[..lastSlash]) && HasGlobChars(path[lastSlash + 1..])
  {
    assert path[lastSlash + 1..][globPos - lastSlash - 1] == path[globPos];
  }

  lemma PatternHasNoDoubleStar(path: string, lastSlash: nat)
    requires lastSlash < |path| && !HasDoubleStar(path)
    ensures !HasDoubleStar(path[lastSlash + 1..])
  {
    var pattern := path[lastSlash + 1..];
    forall i | 0 <= i < |pattern| - 1
      ensures !(pattern[i] == '*' && pattern[i + 1] == '*')
    {
      var at := lastSlash + 1 + i;
      assert !(path[at] == '*' && path[at + 1] == '*');
    }
  }

  lemma {:induction false} LiteralSegmentsMatchThemselves(base: seq<string>, ps: seq<string>, ts: seq<string>)
    requires forall i :: 0 <= i < |base| ==> Glob.IsLiteral(base[i])
    requires Decides(base + ps, ts)
    ensures |base| <= |ts| && ts[..|base|] == base && Decides(ps, ts[|base|..])
    decreases |base|
  {
    if base == [] {
      assert base + ps == ps && ts[0..] == ts;
    } else {
      assert (base + ps)[1..] == base[1..] + ps;
      assert ANY_DEPTH[0] in ANY_DEPTH;
      Glob.LiteralAcceptsItself(base[0], ts[0]);
      LiteralSegmentsMatchThemselves(base[1..], ps, ts[1..]);
      assert ts[1..][|base| - 1..] == ts[|base|..];
      assert ts[..|base|] == [ts[0]] + ts[1..][..|base| - 1];
    }
  }

  lemma LiteralSegments(base: string)
    requires !HasGlobChars(base)
    ensures forall i :: 0 <= i < |Split(base)| ==> Glob.IsLiteral(Split(base)[i])
  {
    SegmentCharacters(base, '*');
    SegmentCharacters(base, '?');
    assert '*' !in base && '?' !in base;
    forall i | 0 <= i < |Split(base)| ensures Glob.IsLiteral(Split(base)[i]) {
      if '*' in Split(base)[i] {
        assert SomeSegmentHas(Split(base), '*');
      }
      if '?' in Split(base)[i] {
        assert SomeSegmentHas(Split(base), '?');
      }
    }
  }

  predicate AllAnyDepth(ps: seq<string>) {
    forall i :: 0 <= i < |ps| ==> ps[i] == ANY_DEPTH
  }

  lemma {:induction false} OnlyAnyDepthMatchesNothing(ps: seq<string>)
    ensures Decides(ps, []) <==> AllAnyDepth(ps)
  {
    if ps != [] {
      assert forall i :: 0 < i < |ps| ==> ps[i] == ps[1..][i - 1];
      OnlyAnyDepthMatchesNothing(ps[1..]);
      var none: seq<string> := [];
      assert none[0..] == [];
    }
  }

  /** A path glob matches only its base and below, so the prefix test of the engine in front of it changes nothing.
    The base itself is matched just when nothing but `**` follows it. */
  lemma BasePrefixIsRedundant(pattern: string, text: string)
    requires AnalyzeGlobPattern(pattern).WholePathGlob?
    ensures var base := AnalyzeGlobPattern(pattern).base;
      && (PathAccepts(pattern, text) ==> IsDirectoryMatch(text, base))
      && (PathAccepts(pattern, base) <==> AllAnyDepth(Split(pattern[|base| + 1..])))
  {
    hide Split, Decides, HasGlobChars, AnalyzeGlobPattern, AllAnyDepth;
    WholePathGlobShape(pattern);
    var base := AnalyzeGlobPattern(pattern).base;
    var rest := pattern[|base| + 1..];
    assert pattern == base + "/" + rest;
    if PathAccepts(pattern, text) {
      LiteralBaseStaysInFront(base, rest, text);
    }
    SplitOfConcat(base, rest);
    LiteralSegments(base);
    LiteralPrefixStep(Split(base), Split(rest), []);
    assert Split(base) + [] == Split(base);
    OnlyAnyDepthMatchesNothing(Split(rest));
  }

  lemma LiteralBaseStaysInFront(base: string, rest: string, text: string)
    requires !HasGlobChars(base) && PathAccepts(base + "/" + rest, text)
    ensures IsDirectoryMatch(text, base)
  {
    hide Split, Decides, HasGlobChars;
    var bs, ts := Split(base), Split(text);
    SplitOfConcat(base, rest);
    LiteralSegments(base);
    LiteralSegmentsMatchThemselves(bs, Split(rest), ts);
    JoinOfSplit(text);
    JoinOfSplit(base);
    assert ts == bs + ts[|bs|..];
    if |bs| < |ts| {
      JoinAppend(bs, ts[|bs|..]);
      assert text == base + "/" + Join(ts[|bs|..]);
    } else {
      assert ts == bs;
    }
  }
}
