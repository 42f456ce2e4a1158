/** The indexed lookup refines the plain scan of the ordered rules.

  `Reachable` says exactly which rules the index can find; `NoneOvertaken` excludes the one way in which a
  reachable rule can be overtaken: a path glob based at the root or one segment below it, ordered before a rule
  that is filed deeper.
*/
module IndexRefinement {
  import opened Options
  import opened Text
  import opened Sorting
  import opened PathMapper
  import opened PathGlob
  import opened PathKindCache
  import opened Rules
  import opened Precedence
  import opened PolicyIndex
  import Glob

  // ---------------------------------------------------------------------------
  // Segments of a path and of a directory it lies in

  lemma SameFirstSegment(path: string, directory: string)
    requires IsDirectoryMatch(path, directory)
    ensures FirstSegment(path) == FirstSegment(directory)
  {
    if path != directory {
      var n := WordLength(directory);
      assert forall i :: 0 <= i < |directory| ==> path[i] == path[..|directory|][i] == directory[i];
      WordLengthIs(path, n);
      assert path[..n] == path[..|directory|][..n];
    }
  }

  lemma ExternalIsPrefix(path: string)
    requires IsExternal(path)
    ensures |path| >= |EXTERNAL_ROOT| && path[..|EXTERNAL_ROOT|] == EXTERNAL_ROOT
    ensures |path| > |EXTERNAL_ROOT| ==> path[|EXTERNAL_ROOT|] == '/'
  {
    if path == EXTERNAL_ROOT {
      assert path[..|EXTERNAL_ROOT|] == EXTERNAL_ROOT;
    }
  }

  lemma InsideExternal(path: string, directory: string)
    requires IsDirectoryMatch(path, directory) && IsExternal(directory)
    ensures IsExternal(path)
  {
    if path != directory {
      ExternalIsPrefix(directory);
      if |directory| > |EXTERNAL_ROOT| {
        assert path[..|EXTERNAL_ROOT| + 1][|EXTERNAL_ROOT|] == directory[..|EXTERNAL_ROOT| + 1][|EXTERNAL_ROOT|];
      }
    }
  }

  lemma InsideBehind(path: string, directory: string, at: nat)
    requires IsDirectoryMatch(path, directory) && at <= |directory|
    ensures IsDirectoryMatch(path[at..], directory[at..])
  {
    if path != directory {
      assert path[at..][..|directory| - at] == path[..|directory|][at..];
    }
  }

  lemma FirstSegmentLength(path: string)
    ensures |FirstSegment(path)| <= |path| && FirstSegment(path) == path[..|FirstSegment(path)|]
  {
  }

  /** A directory that is not just one segment below the root passes both its segments on to everything in it. */
  lemma SegmentsInside(path: string, directory: string)
    requires IsDirectoryMatch(path, directory) && IsExternal(directory) && |directory| > BELOW_ROOT
    ensures ExternalSegments(directory).Some? && ExternalSegments(path).Some?
    ensures var (top, second) := ExternalSegments(directory).value;
            var (innerTop, innerSecond) := ExternalSegments(path).value;
      && top == innerTop
      && (second == innerSecond || (second == "" && directory[BELOW_ROOT..] == top))
  {
    hide FirstSegment;
    InsideExternal(path, directory);
    var x, y := path[BELOW_ROOT..], directory[BELOW_ROOT..];
    InsideBehind(path, directory, BELOW_ROOT);
    SameFirstSegment(x, y);
    FirstSegmentLength(x);
    FirstSegmentLength(y);
    var n := |FirstSegment(y)|;
    if n < |y| {
      InsideBehind(x, y, n);
      InsideBehind(x[n..], y[n..], 1);
      SameFirstSegment(x[n..][1..], y[n..][1..]);
    }
  }

  // ---------------------------------------------------------------------------
  // Which rules the index can find

  /** Some text that begins with the given segments is accepted by the pattern. */
  predicate CanReach(ps: seq<string>, prefix: seq<string>)
    decreases |ps| + |prefix|
  {
    if prefix == [] then true
    else if ps == [] then false
    else if ps[0] == ANY_DEPTH then CanReach(ps[1..], prefix) || CanReach(ps, prefix[1..])
    else Glob.Accepts(ps[0], prefix[0]) && CanReach(ps[1..], prefix[1..])
  }

  const ROOT_SEGMENTS: seq<string> := ["", "storage", "emulated", "0"]

  predicate Reachable(rule: CompiledRule) {
    if rule.hasPathGlob then
      if IsExternal(rule.globBasePrefix) then |rule.globBasePrefix| != BELOW_ROOT
      else !CanReach(Split(rule.path), ROOT_SEGMENTS)
    else if rule.hasGlob then
      if IsExternal(rule.globParent) then
        |rule.globParent| > BELOW_ROOT && '/' in rule.globParent[BELOW_ROOT..]
      else
        !(rule.globParent == "/storage/emulated" && Glob.Accepts(rule.globPattern, "0"))
    else
      if IsExternal(rule.path) then |rule.path| != BELOW_ROOT
      else rule.pathKind == File || !IsDirectoryMatch(EXTERNAL_ROOT, rule.path)
  }

  lemma ExternalBelow(path: string)
    requires IsExternal(path) && |path| <= BELOW_ROOT
    ensures path == EXTERNAL_ROOT || path == EXTERNAL_ROOT + "/"
  {
    ExternalIsPrefix(path);
    if |path| == BELOW_ROOT {
      assert path == path[..|EXTERNAL_ROOT|] + [path[|EXTERNAL_ROOT|]];
    } else {
      assert path == path[..|EXTERNAL_ROOT|];
    }
  }

  /** Everything in a directory that can be filed is searched under the directory's slot. */
  lemma InsideIsSearched(path: string, directory: string)
    requires IsDirectoryMatch(path, directory) && IsExternal(directory) && |directory| != BELOW_ROOT
    ensures SlotOfPath(directory) in Searched(path)
  {
    if |directory| > BELOW_ROOT {
      SegmentsInside(path, directory);
    } else {
      ExternalBelow(directory);
    }
  }

  lemma LongDirectoryIsExternal(path: string, directory: string)
    requires IsExternal(path) && IsDirectoryMatch(path, directory) && |directory| >= |EXTERNAL_ROOT|
    ensures IsExternal(directory)
  {
    ExternalIsPrefix(path);
    if |directory| > |EXTERNAL_ROOT| {
      assert directory[|EXTERNAL_ROOT|] == directory[..|EXTERNAL_ROOT| + 1][|EXTERNAL_ROOT|];
    } else {
      assert directory == directory[..|EXTERNAL_ROOT|];
    }
  }

  /** A directory outside shared storage that holds a path of shared storage lies above the root. */
  lemma OutsideDirectoryIsAbove(path: string, directory: string)
    requires IsExternal(path) && !IsExternal(directory) && IsDirectoryMatch(path, directory)
    ensures IsDirectoryMatch(EXTERNAL_ROOT, directory)
  {
    ExternalIsPrefix(path);
    if |directory| >= |EXTERNAL_ROOT| {
      LongDirectoryIsExternal(path, directory);
    } else {
      assert EXTERNAL_ROOT[..|directory|] == path[..|EXTERNAL_ROOT|][..|directory|] == path[..|directory|];
      assert EXTERNAL_ROOT[|directory|] == path[..|EXTERNAL_ROOT|][|directory|];
    }
  }

  lemma {:induction false} AcceptedCanReach(ps: seq<string>, prefix: seq<string>, ts: seq<string>)
    requires Decides(ps, prefix + ts)
    ensures CanReach(ps, prefix)
    decreases |ps| + |prefix|
  {
    if prefix != [] {
      if ps[0] == ANY_DEPTH {
        AnyDepthStep(ps, prefix + ts);
        assert (prefix + ts)[1..] == prefix[1..] + ts;
        if Decides(ps[1..], prefix + ts) {
          AcceptedCanReach(ps[1..], prefix, ts);
        } else {
          AcceptedCanReach(ps, prefix[1..], ts);
        }
      } else {
        assert (prefix + ts)[1..] == prefix[1..] + ts;
        AcceptedCanReach(ps[1..], prefix[1..], ts);
      }
    }
  }

  lemma JoinOfFour(a: string, b: string, c: string, d: string)
    ensures Join([a, b, c, d]) == a + ("/" + (b + ("/" + (c + ("/" + d)))))
  {
    hide Join;
    JoinOfOne(a);
    JoinOfOne(b);
    JoinOfOne(c);
    JoinOfOne(d);
    JoinAppend([c], [d]);
    JoinAppend([b], [c, d]);
    JoinAppend([a], [b, c, d]);
    assert [c] + [d] == [c, d] && [b] + [c, d] == [b, c, d] && [a] + [b, c, d] == [a, b, c, d];
  }

  lemma RootSegments()
    ensures Split(EXTERNAL_ROOT) == ROOT_SEGMENTS
    ensures Join(ROOT_SEGMENTS) == EXTERNAL_ROOT
  {
    hide Split, Join;
    JoinOfFour("", "storage", "emulated", "0");
    assert SlashFree("") && SlashFree("storage") && SlashFree("emulated") && SlashFree("0");
    assert "" + ("/" + ("storage" + ("/" + ("emulated" + ("/" + "0"))))) == EXTERNAL_ROOT;
    SplitOfJoin(ROOT_SEGMENTS);
  }

  lemma ExternalRest(path: string) returns (rest: string)
    requires IsExternal(path) && path != EXTERNAL_ROOT
    ensures path == EXTERNAL_ROOT + "/" + rest
  {
    ExternalIsPrefix(path);
    rest := path[|EXTERNAL_ROOT| + 1..];
    assert path == path[..|EXTERNAL_ROOT|] + path[|EXTERNAL_ROOT|..];
    assert path[|EXTERNAL_ROOT|..] == "/" + rest;
  }

  lemma ExternalSplit(path: string) returns (ts: seq<string>)
    requires IsExternal(path)
    ensures Split(path) == ROOT_SEGMENTS + ts
  {
    RootSegments();
    if path == EXTERNAL_ROOT {
      ts := [];
    } else {
      var rest := ExternalRest(path);
      SplitOfConcat(EXTERNAL_ROOT, rest);
      ts := Split(rest);
    }
  }

  /** A reachable rule that hits is filed where the lookup looks. */
  lemma ReachableIsSearched(rule: CompiledRule, q: Query)
    requires WellFormed(rule) && Reachable(rule)
    requires IsExternal(q.path) && Hits(rule, q)
    ensures SlotOf(rule) in Searched(q.path)
  {
    if rule.hasPathGlob {
      BasePrefixIsRedundant(rule.path, q.path);
      if IsExternal(rule.globBasePrefix) {
        InsideIsSearched(q.path, rule.globBasePrefix);
      } else {
        var ts := ExternalSplit(q.path);
        AcceptedCanReach(Split(rule.path), ROOT_SEGMENTS, ts);
      }
    } else if rule.hasGlob {
      FileNameGlobIsSearched(rule, q);
    } else {
      if IsExternal(rule.path) {
        InsideIsSearched(q.path, rule.path);
      } else if IsDirectoryMatch(q.path, rule.path) {
        OutsideDirectoryIsAbove(q.path, rule.path);
      }
    }
  }

  lemma FileNameGlobIsSearched(rule: CompiledRule, q: Query)
    requires WellFormed(rule) && Reachable(rule) && rule.hasGlob
    requires IsExternal(q.path) && Hits(rule, q)
    ensures SlotOf(rule) in Searched(q.path)
    ensures IsExternal(rule.globParent)
    ensures ExternalSegments(q.path).Some? && ExternalSegments(rule.globParent) == ExternalSegments(q.path)
    ensures ExternalSegments(rule.path) == ExternalSegments(q.path)
  {
    hide ExternalSegments, Searched, SlotOfPath;
    FileNameGlobSegments(rule, q);
    SameSegmentsAreSearched(rule.path, q.path);
  }

  lemma SameSegmentsAreSearched(path: string, other: string)
    requires ExternalSegments(path).Some? && ExternalSegments(path) == ExternalSegments(other)
    ensures SlotOfPath(path) in Searched(other)
  {
  }

  lemma FileNameGlobSegments(rule: CompiledRule, q: Query)
    requires WellFormed(rule) && Reachable(rule) && rule.hasGlob
    requires IsExternal(q.path) && Hits(rule, q)
    ensures IsExternal(rule.globParent)
    ensures ExternalSegments(q.path).Some? && ExternalSegments(rule.globParent) == ExternalSegments(q.path)
    ensures ExternalSegments(rule.path) == ExternalSegments(q.path)
  {
    hide ExternalSegments, Searched;
    FileNameGlobShape(rule.path);
    if IsExternal(rule.globParent) {
      SharedParentGivesSegments(rule.globParent, q.path, rule.path);
    } else {
      ParentOfRoot(q.path, rule.globParent);
    }
  }

  /** Two entries of a directory at least two segments deep have the same two first segments. */
  lemma SharedParentGivesSegments(parent: string, path: string, otherPath: string)
    requires IsExternal(parent) && |parent| > BELOW_ROOT && '/' in parent[BELOW_ROOT..]
    requires IsDirectoryMatch(path, parent) && IsDirectoryMatch(otherPath, parent)
    ensures ExternalSegments(parent).Some?
    ensures ExternalSegments(path) == ExternalSegments(parent) == ExternalSegments(otherPath)
  {
    SegmentsInside(path, parent);
    SegmentsInside(otherPath, parent);
    var top := ExternalSegments(parent).value.0;
    assert forall i :: 0 <= i < |top| ==> top[i] == parent[BELOW_ROOT..][i];
  }

  lemma ParentOfDeeper(path: string)
    requires IsExternal(path) && path != EXTERNAL_ROOT
    ensures LastIndex(path, '/') >= |EXTERNAL_ROOT| && IsExternal(path[..LastIndex(path, '/')])
  {
    var slash := LastIndex(path, '/');
    ExternalIsPrefix(path);
    var parent := path[..slash];
    assert parent[..|EXTERNAL_ROOT|] == path[..|EXTERNAL_ROOT|];
    if slash == |EXTERNAL_ROOT| {
      assert parent == parent[..|EXTERNAL_ROOT|];
    }
  }

  /** The only path of shared storage whose parent lies outside is the root. */
  lemma ParentOfRoot(path: string, parent: string)
    requires IsExternal(path) && !IsExternal(parent)
    requires 0 <= LastIndex(path, '/') && parent == path[..LastIndex(path, '/')]
    ensures path == EXTERNAL_ROOT && parent == "/storage/emulated" && path[LastIndex(path, '/') + 1..] == "0"
  {
    if path != EXTERNAL_ROOT {
      ParentOfDeeper(path);
    } else {
      assert path[17] == '/' && path[18] == '0';
      assert LastIndex(path, '/') == 17;
    }
  }

  // ---------------------------------------------------------------------------
  // Which rules can be overtaken

  /** A path glob whose literal base is the root or lies one segment below it. */
  predicate ShallowGlob(rule: CompiledRule) {
    && rule.hasPathGlob
    && IsExternal(rule.globBasePrefix)
    && (rule.globBasePrefix == EXTERNAL_ROOT ||
        (|rule.globBasePrefix| > BELOW_ROOT && '/' !in rule.globBasePrefix[BELOW_ROOT..]))
  }

  /** The directory in or at which all hits of a rule lie. */
  function DirectoryOf(rule: CompiledRule): string {
    if rule.hasPathGlob then rule.globBasePrefix else if rule.hasGlob then rule.globParent else rule.path
  }

  lemma HitIsInDirectory(rule: CompiledRule, q: Query)
    requires WellFormed(rule) && Hits(rule, q)
    ensures IsDirectoryMatch(q.path, DirectoryOf(rule))
  {
    if rule.hasPathGlob {
      BasePrefixIsRedundant(rule.path, q.path);
    }
  }

  lemma SegmentsBelow(path: string, directory: string) returns (ts: seq<string>)
    requires IsDirectoryMatch(path, directory)
    ensures Split(path) == Split(directory) + ts
  {
    hide Split;
    if path == directory {
      ts := [];
    } else {
      var rest := path[|directory| + 1..];
      assert path == directory + "/" + rest;
      SplitOfConcat(directory, rest);
      ts := Split(rest);
    }
  }

  /** The lookup tries `b` before `a` although both may match one input. */
  predicate Overtakes(b: CompiledRule, a: CompiledRule) {
    ShallowGlob(a) && CanReach(Split(a.path), Split(DirectoryOf(b))) &&
    match SlotOf(a)
    case RootSlot => SlotOf(b).TopSlot? || SlotOf(b).SecondSlot?
    case TopSlot(top) => SlotOf(b).SecondSlot? && SlotOf(b).top == top
    case _ => false
  }

  ghost predicate NoneOvertaken(rules: seq<CompiledRule>) {
    forall i, j :: 0 <= i < j < |rules| ==> !Overtakes(rules[j], rules[i])
  }

  lemma FiledPathIsShort(rule: CompiledRule)
    requires WellFormed(rule) && SlotOf(rule) != NoSlot
    ensures match SlotOf(rule)
      case RootSlot => |rule.path| >= |EXTERNAL_ROOT|
      case TopSlot(top) => |rule.path| >= BELOW_ROOT + |top| && |rule.path| > BELOW_ROOT
      case SecondSlot(top, second) => |rule.path| > BELOW_ROOT + |top| + |second|
  {
    if rule.hasPathGlob {
      WholePathGlobShape(rule.path);
    }
  }

  /** Without a shallow glob in the way, of two rules that hit the longer one is filed at least as deep. */
  lemma LongerIsDeeper(a: CompiledRule, b: CompiledRule, q: Query)
    requires WellFormed(a) && Reachable(a) && WellFormed(b) && SlotOf(b) in Searched(q.path)
    requires IsExternal(q.path) && Hits(a, q) && Hits(b, q)
    requires |a.path| >= |b.path| && !Overtakes(b, a)
    ensures Depth(SlotOf(a)) <= Depth(SlotOf(b))
  {
    hide Reachable, WellFormed, Hits, CanReach, SlotOf, Searched, ShallowGlob;
    ReachableIsSearched(a, q);
    if Depth(SlotOf(b)) < Depth(SlotOf(a)) {
      SearchedSlots(q.path, SlotOf(a), SlotOf(b));
      FiledPathIsShort(b);
      FiledDeeperIsLonger(a, b, q);
      BothHitReach(a, b, q);
    }
  }

  lemma BothHitReach(a: CompiledRule, b: CompiledRule, q: Query)
    requires WellFormed(b) && Hits(a, q) && Hits(b, q)
    ensures a.hasPathGlob ==> CanReach(Split(a.path), Split(DirectoryOf(b)))
  {
    hide Split, Decides, CanReach;
    HitIsInDirectory(b, q);
    if a.hasPathGlob {
      var ts := SegmentsBelow(q.path, DirectoryOf(b));
      AcceptedCanReach(Split(a.path), Split(DirectoryOf(b)), ts);
    }
  }

  lemma SearchedSlots(path: string, outer: Slot, inner: Slot)
    requires outer in Searched(path) && inner in Searched(path) && Depth(inner) < Depth(outer)
    ensures outer == RootSlot ==> inner.TopSlot? || inner.SecondSlot?
    ensures outer != RootSlot ==>
      && outer.TopSlot? && inner.SecondSlot? && outer.top == inner.top
      && ExternalSegments(path).Some? && ExternalSegments(path).value.1 != ""
  {
    hide ExternalSegments;
  }

  lemma FiledDeeperIsLonger(a: CompiledRule, b: CompiledRule, q: Query)
    requires WellFormed(a) && Reachable(a) && IsExternal(q.path) && Hits(a, q)
    requires SlotOf(a) == RootSlot ==> |b.path| > BELOW_ROOT
    requires SlotOf(a) != RootSlot ==>
      && SlotOf(a).TopSlot? && |b.path| > BELOW_ROOT + |SlotOf(a).top|
      && ExternalSegments(q.path).Some? && ExternalSegments(q.path).value.1 != ""
    ensures (ShallowGlob(a) && a.hasPathGlob) || |a.path| < |b.path|
  {
    if a.hasGlob {
      FileNameGlobIsSearched(a, q);
    } else if SlotOf(a) == RootSlot {
      RootSlotIsRoot(if a.hasPathGlob then a.globBasePrefix else a.path);
    } else {
      TopSlotAboveSecond(a, q);
    }
  }

  lemma RootSlotIsRoot(path: string)
    requires SlotOfPath(path) == RootSlot
    ensures path == EXTERNAL_ROOT
  {
  }

  /** A rule filed under a first segment only, hitting an input that has two, is about that first segment. */
  lemma TopSlotAboveSecond(a: CompiledRule, q: Query)
    requires WellFormed(a) && Reachable(a) && !a.hasGlob
    requires IsExternal(q.path) && Hits(a, q)
    requires SlotOf(a).TopSlot?
    requires ExternalSegments(q.path).Some? && ExternalSegments(q.path).value.1 != ""
    ensures a.hasPathGlob ==> ShallowGlob(a)
    ensures !a.hasPathGlob ==> |a.path| == BELOW_ROOT + |SlotOf(a).top|
  {
    var directory := if a.hasPathGlob then a.globBasePrefix else a.path;
    if a.hasPathGlob {
      BasePrefixIsRedundant(a.path, q.path);
    }
    assert IsExternal(directory) && |directory| > BELOW_ROOT;
    SegmentsInside(q.path, directory);
    var top := ExternalSegments(directory).value.0;
    assert directory[BELOW_ROOT..] == top;
    assert forall i :: 0 <= i < |top| ==> top[i] != '/';
  }

  // ---------------------------------------------------------------------------
  // The refinement

  ghost predicate AllReachable(rules: seq<CompiledRule>) {
    forall r :: r in rules ==> WellFormed(r) && Reachable(r)
  }

  ghost predicate LongestFirst(rules: seq<CompiledRule>) {
    forall i, j :: 0 <= i < j < |rules| ==> |rules[i].path| >= |rules[j].path|
  }

  lemma {:induction false} FirstHitPosition(rules: seq<CompiledRule>, q: Query) returns (i: nat)
    requires FirstHit(rules, q).Some?
    ensures i < |rules| && rules[i] == FirstHit(rules, q).value
    ensures forall j :: 0 <= j < |rules| && Hits(rules[j], q) ==> i <= j
  {
    if Hits(rules[0], q) {
      i := 0;
    } else {
      var k := FirstHitPosition(rules[1..], q);
      i := k + 1;
      assert forall j :: 0 < j < |rules| ==> rules[j] == rules[1..][j - 1];
    }
  }

  /** The indexed lookup finds the first hit of the plain scan, for every access to shared storage. */
  lemma IndexRefinesScan(rules: seq<CompiledRule>, q: Query)
    requires AllReachable(rules) && LongestFirst(rules) && NoneOvertaken(rules)
    requires IsExternal(q.path)
    ensures IndexedHit(rules, q) == FirstHit(rules, q)
  {
    forall r | r in rules && Hits(r, q) ensures SlotOf(r) in Searched(q.path) {
      ReachableIsSearched(r, q);
    }
    if FirstHit(rules, q).Some? {
      var i := FirstHitPosition(rules, q);
      forall r | r in rules && Hits(r, q) ensures Depth(SlotOf(rules[i])) <= Depth(SlotOf(r)) {
        var j :| 0 <= j < |rules| && rules[j] == r;
        if i < j {
          ReachableIsSearched(rules[j], q);
          LongerIsDeeper(rules[i], rules[j], q);
        }
      }
    }
    LookupAgreesExactly(rules, q);
  }

  /** Two segments below the root, neither of them empty. */
  predicate TwoSegmentsDeep(directory: string) {
    match ExternalSegments(directory) case None => false case Some((top, second)) => top != "" && second != ""
  }

  /** The rules anyone would expect the index to find: globs based two segments deep, and plain paths that neither lie
    strictly above shared storage nor end in a slash. */
  predicate Ordinary(rule: CompiledRule) {
    if rule.hasPathGlob then TwoSegmentsDeep(rule.globBasePrefix)
    else if rule.hasGlob then TwoSegmentsDeep(rule.globParent)
    else
      && (rule.path == EXTERNAL_ROOT || !IsDirectoryMatch(EXTERNAL_ROOT, rule.path))
      && (rule.path == "" || rule.path[|rule.path| - 1] != '/')
  }

  lemma DeepHasSlash(directory: string)
    requires TwoSegmentsDeep(directory)
    ensures IsExternal(directory) && |directory| > BELOW_ROOT && '/' in directory[BELOW_ROOT..]
  {
    var rest := directory[BELOW_ROOT..];
    var top := FirstSegment(rest);
    assert rest[|top|..] != "";
    assert rest[|top|] == '/';
  }

  lemma OrdinaryIsReachable(rule: CompiledRule)
    requires Ordinary(rule)
    ensures Reachable(rule) && !ShallowGlob(rule)
  {
    hide ExternalSegments;
    if rule.hasPathGlob {
      DeepHasSlash(rule.globBasePrefix);
    } else if rule.hasGlob {
      DeepHasSlash(rule.globParent);
    } else if IsExternal(rule.path) && |rule.path| == BELOW_ROOT {
      ExternalBelow(rule.path);
    }
  }

  /** Ordinary rules, sorted as the compiler sorts them, are found by the index as by the plain scan. */
  lemma OrdinaryRulesRefineScan(rules: seq<CompiledRule>, q: Query)
    requires SortedBy(rules, ComesBefore) && forall r :: r in rules ==> WellFormed(r) && Ordinary(r)
    requires IsExternal(q.path)
    ensures IndexedHit(rules, q) == FirstHit(rules, q)
  {
    hide Ordinary, Reachable, WellFormed, ShallowGlob, IndexedHit, FirstHit;
    forall r | r in rules ensures Reachable(r) && !ShallowGlob(r) {
      OrdinaryIsReachable(r);
    }
    IndexRefinesScan(rules, q);
  }
}
