/** What the index cannot do: the rules it never finds, and the rules it finds too late. */
module IndexLimits {
  import opened Options
  import opened Text
  import opened PathMapper
  import opened PathGlob
  import opened PathKindCache
  import opened Rules
  import opened Sorting
  import opened Precedence
  import opened PolicyIndex
  import opened IndexRefinement
  import opened GlobEndings
  import opened PathTypes
  import opened NormalPaths
  import Glob

  ghost predicate FoundAlone(rule: CompiledRule) {
    forall q: Query :: IsExternal(q.path) ==> IndexedHit([rule], q) == FirstHit([rule], q)
  }

  lemma AloneIsSearched(rule: CompiledRule, q: Query)
    ensures IndexedHit([rule], q) == FirstHit([rule], q) <==> (Hits(rule, q) ==> SlotOf(rule) in Searched(q.path))
  {
    AloneInSlots(Searched(q.path), rule, q);
  }

  lemma {:induction false} AloneInSlots(slots: seq<Slot>, rule: CompiledRule, q: Query)
    ensures FirstHitIn(slots, [rule], q) == if Hits(rule, q) && SlotOf(rule) in slots then Some(rule) else None
  {
    if slots != [] {
      assert [rule][1..] == [];
      assert At([rule], slots[0]) == if SlotOf(rule) == slots[0] then [rule] else [];
      AloneInSlots(slots[1..], rule, q);
    }
  }

  // ---------------------------------------------------------------------------
  // Exactly when an unreachable rule is missed

  /** Among the paths of shared storage that the unreachable rule matches in vain, one has the given end. */
  predicate MissesEnd(rule: CompiledRule, tail: string) {
    if rule.hasPathGlob then LastCanEnd(Split(rule.path), ROOT_SEGMENTS, tail)
    else if rule.hasGlob then IsExternal(rule.globParent) && SomeOtherName(rule.globPattern, tail)
    else rule.pathKind != File
  }

  /** The type filter, if there is one, lets some such path through. */
  predicate CanBeMissed(rule: CompiledRule) {
    rule.extensions == [] || exists e :: e in rule.extensions && IsNameType(e) && MissesEnd(rule, "." + e)
  }

  /** A rule is found by the index, for all accesses to shared storage, exactly when it is reachable or its type filter
    lets through nothing that it could be missed for. */
  lemma ReachabilityIsExact(rule: CompiledRule)
    requires WellFormed(rule) && rule.action != Delete
    ensures FoundAlone(rule) <==> Reachable(rule) || !CanBeMissed(rule)
  {
    hide Reachable, WellFormed, MissesEnd, Hits, SlotOf, Searched, IndexedHit, FirstHit;
    if Reachable(rule) || !CanBeMissed(rule) {
      forall q: Query | IsExternal(q.path) ensures IndexedHit([rule], q) == FirstHit([rule], q) {
        if Hits(rule, q) {
          if Reachable(rule) {
            ReachableIsSearched(rule, q);
          } else {
            TypedHitIsSearched(rule, q);
          }
        }
        AloneIsSearched(rule, q);
      }
    } else {
      var path := MissedPath(rule);
      AloneIsSearched(rule, Query(path, Directory, map[]));
    }
  }

  ghost predicate FoundForAccesses(rule: CompiledRule) {
    forall q: Query :: IsExternal(q.path) && IsAccess(q.path) ==> IndexedHit([rule], q) == FirstHit([rule], q)
  }

  /** The same for accesses alone, whose paths are normalized, unless the rule is a path glob that ends in a slash. */
  lemma ReachabilityIsExactForAccesses(rule: CompiledRule)
    requires WellFormed(rule) && rule.action != Delete
    requires rule.hasPathGlob && rule.extensions == [] ==> !EndsInSlash(rule.path)
    ensures FoundForAccesses(rule) <==> Reachable(rule) || !CanBeMissed(rule)
  {
    hide Reachable, WellFormed, MissesEnd, CanBeMissed, Hits, SlotOf, Searched, IndexedHit, FirstHit, IsAccess;
    if Reachable(rule) || !CanBeMissed(rule) {
      ReachabilityIsExact(rule);
    } else {
      var path := MissedPath(rule);
      AloneIsSearched(rule, Query(path, Directory, map[]));
    }
  }

  lemma NoSlotIsNeverSearched(path: string)
    ensures NoSlot !in Searched(path)
  {
  }

  lemma LastSlashOf(parent: string, name: string)
    requires SlashFree(name)
    ensures LastIndex(parent + "/" + name, '/') == |parent|
    ensures (parent + "/" + name)[..|parent|] == parent
    ensures (parent + "/" + name)[|parent| + 1..] == name
  {
    var path := parent + "/" + name;
    assert path == parent + ("/" + name);
    LastSlashBehind(parent, name);
  }

  lemma {:induction false} LastSlashBehind(parent: string, name: string)
    requires SlashFree(name)
    ensures LastIndex(parent + ("/" + name), '/') == |parent|
    decreases |name|
  {
    var path := parent + ("/" + name);
    if name != "" {
      var front := name[..|name| - 1];
      assert path[..|path| - 1] == parent + ("/" + front);
      assert path[|path| - 1] == name[|name| - 1];
      LastSlashBehind(parent, front);
    }
  }

  /** The root has no type, and neither has anything that ends in a slash. */
  lemma ShortNameHasNoType(parent: string, name: string, e: string)
    requires IsNameType(e) && |name| <= 1
    ensures !HasEnd(parent + "/" + name, "." + e)
  {
    TypeTailIsLower(e);
    EndOfName(parent, name, "." + e);
  }

  // ---------------------------------------------------------------------------
  // A hit that nothing in the filter allows to be missed is found after all

  lemma TypedHitIsSearched(rule: CompiledRule, q: Query)
    requires WellFormed(rule) && !Reachable(rule) && !CanBeMissed(rule)
    requires IsExternal(q.path) && Hits(rule, q)
    ensures SlotOf(rule) in Searched(q.path)
  {
    hide MissesEnd, Matched, WellFormed, Reachable, SlotOf, Searched, AllowsType, HasEnd, IsNameType;
    AllowsTypeIs(rule.extensions, q.path);
    var e :| e in rule.extensions && IsNameType(e) && HasEnd(q.path, "." + e);
    if SlotOf(rule) !in Searched(q.path) {
      MissMissesEnd(rule, q, e);
    }
  }

  lemma MissMissesEnd(rule: CompiledRule, q: Query, e: string)
    requires WellFormed(rule) && !Reachable(rule) && IsExternal(q.path) && Matched(rule, q)
    requires SlotOf(rule) !in Searched(q.path) && IsNameType(e) && HasEnd(q.path, "." + e)
    ensures MissesEnd(rule, "." + e)
  {
    hide HasEnd, IsNameType, Searched, SlotOf;
    TypeTailIsLower(e);
    if rule.hasPathGlob {
      PathGlobMissesEnd(rule.path, q.path, e);
    } else if rule.hasGlob {
      FileNameGlobMissesEnd(rule, q, e);
    } else if rule.pathKind == File {
      SlashHasNoType(e);
      ExternalBelow(rule.path);
    }
  }

  lemma RootHasNoType(e: string)
    requires IsNameType(e)
    ensures !HasEnd(EXTERNAL_ROOT, "." + e)
  {
    ShortNameHasNoType("/storage/emulated", "0", e);
    assert "/storage/emulated" + "/" + "0" == EXTERNAL_ROOT;
  }

  lemma SlashHasNoType(e: string)
    requires IsNameType(e)
    ensures !HasEnd(EXTERNAL_ROOT + "/", "." + e)
  {
    ShortNameHasNoType(EXTERNAL_ROOT, "", e);
    assert EXTERNAL_ROOT + "/" + "" == EXTERNAL_ROOT + "/";
  }

  lemma PathGlobMissesEnd(pattern: string, path: string, e: string)
    requires IsExternal(path) && PathAccepts(pattern, path) && IsNameType(e) && HasEnd(path, "." + e)
    ensures LastCanEnd(Split(pattern), ROOT_SEGMENTS, "." + e)
  {
    hide Split, Join, Decides, LastCanEnd, HasEnd, IsNameType;
    var ts := ExternalSplit(path);
    RootSegments();
    JoinOfSplit(path);
    if ts == [] {
      assert ROOT_SEGMENTS + ts == ROOT_SEGMENTS;
      RootHasNoType(e);
    } else {
      TypeTailIsLower(e);
      EndOfLastSegment(ROOT_SEGMENTS, ts, "." + e);
      AcceptedCanEnd(Split(pattern), ROOT_SEGMENTS, ts, "." + e);
    }
  }

  lemma EndOfLastSegment(prefix: seq<string>, ts: seq<string>, tail: string)
    requires prefix != [] && ts != [] && SlashFree(tail)
    ensures HasEnd(Join(prefix + ts), tail) <==> HasEnd(ts[|ts| - 1], tail)
  {
    hide Join, HasEnd;
    var front, last := prefix + ts[..|ts| - 1], ts[|ts| - 1];
    assert prefix + ts == front + [last];
    JoinAppend(front, [last]);
    JoinOfOne(last);
    EndOfName(Join(front), last, tail);
  }

  /** What a file-name glob hits is an entry of its parent, as its own text is. */
  lemma FileNameGlobEntry(rule: CompiledRule, q: Query) returns (name: string)
    requires WellFormed(rule) && rule.hasGlob && Matched(rule, q)
    ensures q.path == rule.globParent + "/" + name && rule.path == rule.globParent + "/" + rule.globPattern
    ensures SlashFree(name) && name != "" && SlashFree(rule.globPattern) && rule.globPattern != ""
    ensures Glob.Accepts(rule.globPattern, name)
    ensures !rule.hasPathGlob && LastIndex(q.path, '/') == |rule.globParent|
  {
    hide LastIndex, AnalyzeGlobPattern, Glob.Accepts;
    FileNameGlobShape(rule.path);
    name := q.path[|rule.globParent| + 1..];
  }

  lemma SamePathSameName(parent: string, name: string, other: string)
    ensures parent + "/" + name == parent + "/" + other <==> name == other
  {
    assert (parent + "/" + name)[|parent| + 1..] == name;
    assert (parent + "/" + other)[|parent| + 1..] == other;
  }

  /** An entry of the root or of a directory one segment below it is searched for under a glob of its directory exactly
    when it is the text of the glob. */
  lemma OnlyOwnTextIsSearched(rule: CompiledRule, parent: string, name: string, pattern: string)
    requires IsExternal(parent) && (|parent| <= BELOW_ROOT || '/' !in parent[BELOW_ROOT..])
    requires SlashFree(name) && SlashFree(pattern) && name != "" && pattern != ""
    requires !rule.hasPathGlob && rule.path == parent + "/" + pattern
    ensures SlotOf(rule) in Searched(parent + "/" + name) <==> name == pattern
  {
    hide Searched, SlotOfPath;
    if name == pattern {
      ParentOfEntry(parent, name);
      OwnSlotIsSearched(parent + "/" + name);
    } else {
      EntriesDiffer(parent, name, pattern);
    }
  }

  lemma FileNameGlobMissesEnd(rule: CompiledRule, q: Query, e: string)
    requires WellFormed(rule) && rule.hasGlob && !Reachable(rule) && IsExternal(q.path) && Matched(rule, q)
    requires SlotOf(rule) !in Searched(q.path) && IsNameType(e) && HasEnd(q.path, "." + e)
    ensures IsExternal(rule.globParent) && SomeOtherName(rule.globPattern, "." + e)
  {
    hide HasEnd, IsNameType, Searched, SlotOf, LastIndex, Glob.Accepts, SomeOtherName, WellFormed, Matched;
    var name := FileNameGlobEntry(rule, q);
    if !IsExternal(rule.globParent) {
      assert q.path[..|rule.globParent|] == rule.globParent;
      ParentOfRoot(q.path, rule.globParent);
      RootHasNoType(e);
    } else {
      TypeTailIsLower(e);
      EndOfName(rule.globParent, name, "." + e);
      OnlyOwnTextIsSearched(rule, rule.globParent, name, rule.globPattern);
      AcceptedNameIsOther(rule.globPattern, name, "." + e);
    }
  }

  lemma ParentOfEntry(parent: string, name: string)
    requires IsExternal(parent) && name != ""
    ensures IsExternal(parent + "/" + name) && |parent + "/" + name| > BELOW_ROOT
  {
    ExternalIsPrefix(parent);
    InsideExternal(parent + "/" + name, parent);
  }

  lemma OwnSlotIsSearched(path: string)
    requires IsExternal(path) && |path| > BELOW_ROOT
    ensures SlotOfPath(path) in Searched(path)
  {
  }

  // ---------------------------------------------------------------------------
  // An access that an unreachable rule hits and the lookup misses

  lemma MissedPath(rule: CompiledRule) returns (path: string)
    requires WellFormed(rule) && rule.action != Delete && !Reachable(rule) && CanBeMissed(rule)
    ensures IsExternal(path) && Hits(rule, Query(path, Directory, map[])) && SlotOf(rule) !in Searched(path)
    ensures (rule.hasPathGlob && rule.extensions == [] ==> !EndsInSlash(rule.path)) ==> IsAccess(path)
  {
    hide WellFormed, Reachable, Matched, SlotOf, Searched, AllowsType, HasEnd, IsNameType, MissesEnd, IsAccess, EndsInSlash;
    if rule.extensions == [] {
      path := MissedWithoutFilter(rule);
      TypeNeedsNoFilter(path);
    } else {
      var e :| e in rule.extensions && IsNameType(e) && MissesEnd(rule, "." + e);
      path := MissedWithType(rule, e);
      AllowsTypeIs(rule.extensions, path);
      TypeIsNoSlash(path, e);
      ExternalIsAccess(path);
    }
  }

  lemma TypeIsNoSlash(path: string, e: string)
    requires IsNameType(e) && HasEnd(path, "." + e)
    ensures !EndsInSlash(path)
  {
    EndIsNotEmpty(path, "." + e);
    hide HasEnd;
    EndAt(path, "." + e, |path| - 1);
    LowerKeepsSeparators(path[|path| - 1]);
  }

  lemma TypeNeedsNoFilter(path: string)
    ensures AllowsType([], path)
  {
  }

  ghost predicate MissedAt(rule: CompiledRule, path: string) {
    IsExternal(path) && Matched(rule, Query(path, Directory, map[])) && SlotOf(rule) !in Searched(path)
  }

  lemma MissedWithoutFilter(rule: CompiledRule) returns (path: string)
    requires WellFormed(rule) && !Reachable(rule)
    ensures MissedAt(rule, path)
    ensures (rule.hasPathGlob ==> !EndsInSlash(rule.path)) ==> IsAccess(path)
  {
    hide NormalizedRulePath, WellFormed, MissedAt, Split, Join, CanReach, IsAccess, EndsInSlash;
    if rule.hasPathGlob {
      CompletionIsMissed(rule);
      path := Join(ROOT_SEGMENTS + Completion(Split(rule.path), ROOT_SEGMENTS));
      if !EndsInSlash(rule.path) {
        CompletionHasNoSlash(rule.path);
        MissedIsAccess(rule, path);
      }
    } else if rule.hasGlob {
      path := if IsExternal(rule.globParent) then rule.globParent + "/" + Glob.Instance(rule.globPattern) else EXTERNAL_ROOT;
      FileNameGlobIsMissed(rule);
      InstanceHasNoSlash(rule);
      MissedIsAccess(rule, path);
    } else {
      path := if IsExternal(rule.path) then rule.path else EXTERNAL_ROOT;
      PlainPathIsMissed(rule, path);
      if IsExternal(rule.path) {
        ExternalBelow(rule.path);
      }
      RootIsAccess();
    }
  }

  lemma MissedIsAccess(rule: CompiledRule, path: string)
    requires MissedAt(rule, path) && !EndsInSlash(path)
    ensures IsAccess(path)
  {
    hide IsAccess, EndsInSlash;
    ExternalIsAccess(path);
  }

  lemma RootIsAccess()
    ensures IsAccess(EXTERNAL_ROOT) && IsAccess(EXTERNAL_ROOT + "/")
  {
    hide NormalizedRulePath, Words, Join;
    var path := EXTERNAL_ROOT + "/";
    assert EXTERNAL_ROOT[|EXTERNAL_ROOT| - 1] == '0';
    ExternalIsAccess(EXTERNAL_ROOT);
    SlashStaysExternal(EXTERNAL_ROOT);
    JoinOfRootNames();
    WordsOfRender(Place(ROOT_NAMES, true));
    assert Place(ROOT_NAMES, true).Render() == path;
    ExternalIsAccess(path);
  }

  lemma InstanceHasNoSlash(rule: CompiledRule)
    requires WellFormed(rule) && rule.hasGlob
    ensures !EndsInSlash(rule.globParent + "/" + Glob.Instance(rule.globPattern)) && !EndsInSlash(EXTERNAL_ROOT)
  {
    hide AnalyzeGlobPattern, Glob.Accepts;
    FileNameGlobShape(rule.path);
    var name := Glob.Instance(rule.globPattern);
    InstanceIsSlashFree(rule.globPattern);
    assert name[|name| - 1] in name;
    assert EXTERNAL_ROOT[|EXTERNAL_ROOT| - 1] == '0';
  }

  lemma {:induction false} CompletionEnds(ps: seq<string>, prefix: seq<string>)
    requires CanReach(ps, prefix) && (ps != [] ==> ps[|ps| - 1] != "")
    ensures var ts := Completion(ps, prefix); ts != [] ==> ts[|ts| - 1] != ""
    decreases |ps| + |prefix|
  {
    if prefix == [] {
      InstanceEnds(ps);
    } else if ps[0] == ANY_DEPTH {
      if CanReach(ps[1..], prefix) {
        CompletionEnds(ps[1..], prefix);
      } else {
        CompletionEnds(ps, prefix[1..]);
      }
    } else {
      CompletionEnds(ps[1..], prefix[1..]);
    }
  }

  lemma {:induction false} InstanceEnds(ps: seq<string>)
    ensures ps != [] ==> InstanceAll(ps)[|ps| - 1] == Glob.Instance(ps[|ps| - 1])
  {
    if |ps| > 1 {
      InstanceEnds(ps[1..]);
    }
  }

  lemma LastSegmentIsNotEmpty(path: string)
    requires !EndsInSlash(path) && path != ""
    ensures var ps := Split(path); ps[|ps| - 1] != ""
  {
    hide Split, Join;
    var ps := Split(path);
    JoinOfSplit(path);
    if ps[|ps| - 1] == "" {
      EndOfJoin(ps);
    }
  }

  /** A joined path ends in a slash exactly when its last segment is empty, unless that is all of it. */
  lemma EndOfJoin(ps: seq<string>)
    requires ps != [] && AllSlashFree(ps) && Join(ps) != ""
    ensures EndsInSlash(Join(ps)) <==> ps[|ps| - 1] == ""
  {
    hide Join, EndsInSlash;
    var front, last := ps[..|ps| - 1], ps[|ps| - 1];
    JoinOfOne(last);
    assert ps == front + [last];
    if front == [] {
      assert ps == [last];
      SlashAtEnd("", last);
    } else {
      JoinAppend(front, [last]);
      SlashAtEnd(Join(front) + "/", last);
    }
  }

  lemma SlashAtEnd(front: string, last: string)
    requires SlashFree(last) && (front == "" ==> last != "") && (front != "" ==> EndsInSlash(front))
    ensures EndsInSlash(front + last) <==> last == ""
    ensures "" + last == last
  {
    if last != "" {
      assert last[|last| - 1] in last;
    } else {
      assert front + last == front;
    }
  }

  lemma CompletionHasNoSlash(path: string)
    requires !EndsInSlash(path) && CanReach(Split(path), ROOT_SEGMENTS)
    ensures !EndsInSlash(Join(ROOT_SEGMENTS + Completion(Split(path), ROOT_SEGMENTS)))
  {
    hide Split, Join, CanReach;
    if path == "" {
      NothingReachesRoot();
    } else {
      var ts := Completion(Split(path), ROOT_SEGMENTS);
      LastSegmentIsNotEmpty(path);
      CompletionEnds(Split(path), ROOT_SEGMENTS);
      CompletionIsAccepted(Split(path), ROOT_SEGMENTS);
      RootSegmentsAreSlashFree();
      EndOfJoin(ROOT_SEGMENTS + ts);
    }
  }

  lemma NothingReachesRoot()
    ensures !CanReach(Split(""), ROOT_SEGMENTS)
  {
    SplitOfSlashFree("");
    assert [""][1..] == [];
  }

  lemma RootSegmentsAreSlashFree()
    ensures AllSlashFree(ROOT_SEGMENTS) && forall ts :: Join(ROOT_SEGMENTS + ts) != ""
  {
    assert SlashFree("") && SlashFree("storage") && SlashFree("emulated") && SlashFree("0");
  }

  lemma MissedWithType(rule: CompiledRule, e: string) returns (path: string)
    requires WellFormed(rule) && !Reachable(rule) && IsNameType(e) && MissesEnd(rule, "." + e)
    ensures MissedAt(rule, path) && HasEnd(path, "." + e)
  {
    hide WellFormed, Reachable, MissedAt, HasEnd, IsNameType, SomeOtherName, LastCanEnd;
    var tail := "." + e;
    TypeTailIsLower(e);
    if rule.hasPathGlob {
      TypedCompletionIsMissed(rule, tail);
      path := Join(ROOT_SEGMENTS + TypedCompletion(Split(rule.path), ROOT_SEGMENTS, tail));
    } else if rule.hasGlob {
      TypedNameIsMissed(rule, tail);
      path := rule.globParent + "/" + AcceptedEnding(rule.globPattern, tail);
    } else {
      path := TypedPlainPathIsMissed(rule, tail);
    }
  }

  // Plain paths

  lemma PlainPathIsMissed(rule: CompiledRule, path: string)
    requires WellFormed(rule) && !Reachable(rule) && !rule.hasPathGlob && !rule.hasGlob
    requires IsExternal(path) && IsDirectoryMatch(path, rule.path)
    requires path == rule.path || rule.pathKind != File
    ensures MissedAt(rule, path)
  {
    NoSlotIsNeverSearched(path);
  }

  lemma TypedPlainPathIsMissed(rule: CompiledRule, tail: string) returns (path: string)
    requires WellFormed(rule) && !Reachable(rule) && !rule.hasPathGlob && !rule.hasGlob && rule.pathKind != File
    requires AllLower(tail) && SlashFree(tail)
    ensures MissedAt(rule, path) && HasEnd(path, tail)
  {
    hide WellFormed, MissedAt;
    var above := if IsExternal(rule.path) then rule.path else EXTERNAL_ROOT;
    path := above + "/" + tail;
    BelowIsInside(above, rule.path, tail);
    BelowIsInside(above, EXTERNAL_ROOT, tail);
    PlainPathIsMissed(rule, path);
    IsItsOwnEnd(tail);
    EndOfName(above, tail, tail);
  }

  lemma BelowIsInside(above: string, directory: string, name: string)
    requires IsDirectoryMatch(above, directory)
    ensures IsDirectoryMatch(above + "/" + name, directory)
  {
  }

  lemma IsItsOwnEnd(tail: string)
    requires AllLower(tail)
    ensures HasEnd(tail, tail)
  {
    assert tail[0..] == tail;
  }

  // File-name globs

  lemma FileNameGlobIsMissed(rule: CompiledRule)
    requires WellFormed(rule) && rule.hasGlob && !Reachable(rule)
    ensures MissedAt(rule, if IsExternal(rule.globParent) then rule.globParent + "/" + Glob.Instance(rule.globPattern)
                           else EXTERNAL_ROOT)
  {
    hide MissedAt, Glob.Accepts, Glob.IsLiteral, AnalyzeGlobPattern;
    if IsExternal(rule.globParent) {
      FileNameGlobShape(rule.path);
      InstanceIsOther(rule.globPattern);
      OtherNameIsMissed(rule, Glob.Instance(rule.globPattern));
    } else {
      RootIsMissed(rule);
    }
  }

  lemma InstanceIsOther(pattern: string)
    requires HasGlobChars(pattern) && SlashFree(pattern)
    ensures var name := Glob.Instance(pattern);
      Glob.Accepts(pattern, name) && SlashFree(name) && name != "" && name != pattern
  {
    hide Glob.Accepts;
    Glob.AcceptsInstance(pattern);
    InstanceIsSlashFree(pattern);
  }

  lemma RootIsMissed(rule: CompiledRule)
    requires WellFormed(rule) && rule.hasGlob && rule.globParent == "/storage/emulated" && Glob.Accepts(rule.globPattern, "0")
    ensures MissedAt(rule, EXTERNAL_ROOT)
  {
    hide Glob.Accepts, LastIndex, SlotOf, Searched, AnalyzeGlobPattern;
    FileNameGlobHasNoSlot(rule);
    NoSlotIsNeverSearched(EXTERNAL_ROOT);
    LastSlashOf("/storage/emulated", "0");
    assert "/storage/emulated" + "/" + "0" == EXTERNAL_ROOT;
  }

  lemma OtherNameIsMissed(rule: CompiledRule, name: string)
    requires WellFormed(rule) && rule.hasGlob && !Reachable(rule) && IsExternal(rule.globParent)
    requires SlashFree(name) && name != "" && name != rule.globPattern && Glob.Accepts(rule.globPattern, name)
    ensures MissedAt(rule, rule.globParent + "/" + name)
  {
    hide Glob.Accepts, Searched, SlotOfPath;
    var path := rule.globParent + "/" + name;
    FileNameGlobShape(rule.path);
    LastSlashOf(rule.globParent, name);
    ParentOfEntry(rule.globParent, name);
    EntriesDiffer(rule.globParent, name, rule.globPattern);
  }

  lemma TypedNameIsMissed(rule: CompiledRule, tail: string)
    requires WellFormed(rule) && rule.hasGlob && !rule.hasPathGlob && !Reachable(rule)
    requires IsExternal(rule.globParent) && SomeOtherName(rule.globPattern, tail)
    requires AllLower(tail) && SlashFree(tail) && tail != ""
    ensures var path := rule.globParent + "/" + AcceptedEnding(rule.globPattern, tail);
      MissedAt(rule, path) && HasEnd(path, tail)
  {
    hide Reachable, MissedAt, HasEnd, SomeOtherName, AcceptedEnding, Glob.Accepts;
    var name := AcceptedEnding(rule.globPattern, tail);
    FileNameGlobShape(rule.path);
    SomeOtherNameIsAccepted(rule.globPattern, tail);
    AcceptedEndingIsSlashFree(rule.globPattern, tail);
    EndIsNotEmpty(name, tail);
    OtherNameIsMissed(rule, name);
    EndOfName(rule.globParent, name, tail);
  }

  lemma FileNameGlobHasNoSlot(rule: CompiledRule)
    requires WellFormed(rule) && rule.hasGlob && rule.globParent == "/storage/emulated"
    ensures SlotOf(rule) == NoSlot
  {
    FileNameGlobShape(rule.path);
    NotTheRoot(rule.path, rule.globPattern);
  }

  lemma NotTheRoot(path: string, pattern: string)
    requires path == "/storage/emulated" + "/" + pattern && SlashFree(pattern) && pattern != "0"
    ensures SlotOfPath(path) == NoSlot
  {
    var parent := "/storage/emulated";
    assert path[|parent| + 1..] == pattern;
    if IsExternal(path) {
      ExternalIsPrefix(path);
      LastSlashOf(parent, pattern);
    }
  }

  /** Entries of the root, and of a directory one segment below it, have slots of their own. */
  lemma EntriesDiffer(parent: string, name: string, pattern: string)
    requires IsExternal(parent) && (|parent| <= BELOW_ROOT || '/' !in parent[BELOW_ROOT..])
    requires SlashFree(name) && SlashFree(pattern) && name != "" && pattern != "" && name != pattern
    ensures SlotOfPath(parent + "/" + pattern) !in Searched(parent + "/" + name)
  {
    hide ExternalSegments, IsExternal;
    EntrySlot(parent, name);
    EntrySlot(parent, pattern);
  }

  lemma SegmentsOf(path: string, top: string, tail: string)
    requires IsExternal(path) && |path| > BELOW_ROOT && path[BELOW_ROOT..] == top + tail && FirstSegment(top + tail) == top
    ensures ExternalSegments(path) == Some((top, if tail == "" then "" else FirstSegment(tail[1..])))
  {
    assert (top + tail)[|top|..] == tail;
  }

  lemma EntrySlot(parent: string, name: string)
    requires IsExternal(parent) && (|parent| <= BELOW_ROOT || '/' !in parent[BELOW_ROOT..])
    requires SlashFree(name) && name != ""
    ensures parent != EXTERNAL_ROOT ==> |parent| >= BELOW_ROOT
    ensures ExternalSegments(parent + "/" + name) ==
      if parent == EXTERNAL_ROOT then Some((name, "")) else Some((parent[BELOW_ROOT..], name))
  {
    hide FirstSegment, ExternalSegments;
    FirstSegmentOf(name, "");
    assert name + "" == name;
    if parent == EXTERNAL_ROOT {
      BelowRoot(name);
      SegmentsOf(parent + "/" + name, name, "");
    } else {
      var top := ExternalRest(parent);
      assert parent[BELOW_ROOT..] == top;
      var rest := top + ("/" + name);
      FirstSegmentOf(top, "/" + name);
      assert parent + "/" + name == EXTERNAL_ROOT + "/" + rest;
      BelowRoot(rest);
      SegmentsOf(parent + "/" + name, top, "/" + name);
      assert ("/" + name)[1..] == name;
    }
  }

  lemma FirstSegmentOf(segment: string, rest: string)
    requires SlashFree(segment) && (rest == "" || rest[0] == '/')
    ensures FirstSegment(segment + rest) == segment
  {
    WordLengthIs(segment + rest, |segment|);
  }

  lemma BelowRoot(rest: string)
    requires rest != ""
    ensures var path := EXTERNAL_ROOT + "/" + rest;
      IsExternal(path) && |path| > BELOW_ROOT && path[BELOW_ROOT..] == rest
  {
  }

  // ---------------------------------------------------------------------------
  // Path globs that no slot holds

  /** Segments that complete the given ones to a text the pattern accepts. */
  function Completion(ps: seq<string>, prefix: seq<string>): seq<string>
    requires CanReach(ps, prefix)
    decreases |ps| + |prefix|
  {
    if prefix == [] then InstanceAll(ps)
    else if ps[0] == ANY_DEPTH then
      if CanReach(ps[1..], prefix) then Completion(ps[1..], prefix) else Completion(ps, prefix[1..])
    else Completion(ps[1..], prefix[1..])
  }

  lemma {:induction false} CompletionIsAccepted(ps: seq<string>, prefix: seq<string>)
    requires AllSlashFree(ps) && CanReach(ps, prefix)
    ensures Decides(ps, prefix + Completion(ps, prefix)) && AllSlashFree(Completion(ps, prefix))
    decreases |ps| + |prefix|
  {
    var ts := Completion(ps, prefix);
    if prefix == [] {
      DecidesInstance(ps);
      assert prefix + ts == ts;
    } else {
      assert (prefix + ts)[1..] == prefix[1..] + ts;
      if ps[0] == ANY_DEPTH {
        AnyDepthStep(ps, prefix + ts);
        if CanReach(ps[1..], prefix) {
          CompletionIsAccepted(ps[1..], prefix);
        } else {
          CompletionIsAccepted(ps, prefix[1..]);
        }
      } else {
        CompletionIsAccepted(ps[1..], prefix[1..]);
      }
    }
  }

  lemma UnreachablePathGlob(rule: CompiledRule)
    requires WellFormed(rule) && rule.hasPathGlob && !Reachable(rule)
    ensures SlotOf(rule) == NoSlot && CanReach(Split(rule.path), ROOT_SEGMENTS)
  {
    hide Split, Join, Decides, CanReach;
    if IsExternal(rule.globBasePrefix) {
      var ts := InstanceAll(Split(rule.path));
      DecidesInstance(Split(rule.path));
      SplitOfJoin(ts);
      BasePrefixIsRedundant(rule.path, Join(ts));
      InsideExternal(Join(ts), rule.globBasePrefix);
      var below := ExternalSplit(Join(ts));
      AcceptedCanReach(Split(rule.path), ROOT_SEGMENTS, below);
    }
  }

  lemma AcceptedIsMissed(rule: CompiledRule, ts: seq<string>)
    requires WellFormed(rule) && rule.hasPathGlob && SlotOf(rule) == NoSlot
    requires AllSlashFree(ts) && Decides(Split(rule.path), ROOT_SEGMENTS + ts)
    ensures MissedAt(rule, Join(ROOT_SEGMENTS + ts))
  {
    hide Split, Join, Decides, Searched, SlotOfPath;
    JoinBelowRoot(ts);
    BasePrefixIsRedundant(rule.path, Join(ROOT_SEGMENTS + ts));
    NoSlotIsNeverSearched(Join(ROOT_SEGMENTS + ts));
  }

  lemma CompletionIsMissed(rule: CompiledRule)
    requires WellFormed(rule) && rule.hasPathGlob && !Reachable(rule)
    ensures CanReach(Split(rule.path), ROOT_SEGMENTS)
    ensures MissedAt(rule, Join(ROOT_SEGMENTS + Completion(Split(rule.path), ROOT_SEGMENTS)))
  {
    hide Split, Join, Decides, CanReach, MissedAt, Reachable, WellFormed;
    UnreachablePathGlob(rule);
    CompletionIsAccepted(Split(rule.path), ROOT_SEGMENTS);
    AcceptedIsMissed(rule, Completion(Split(rule.path), ROOT_SEGMENTS));
  }

  lemma TypedCompletionIsMissed(rule: CompiledRule, tail: string)
    requires WellFormed(rule) && rule.hasPathGlob && !Reachable(rule)
    requires LastCanEnd(Split(rule.path), ROOT_SEGMENTS, tail) && AllLower(tail) && SlashFree(tail)
    ensures var path := Join(ROOT_SEGMENTS + TypedCompletion(Split(rule.path), ROOT_SEGMENTS, tail));
      MissedAt(rule, path) && HasEnd(path, tail)
  {
    hide Split, Join, Decides, LastCanEnd, MissedAt, Reachable, WellFormed, HasEnd;
    var ts := TypedCompletion(Split(rule.path), ROOT_SEGMENTS, tail);
    UnreachablePathGlob(rule);
    TypedCompletionIsAccepted(Split(rule.path), ROOT_SEGMENTS, tail);
    AcceptedIsMissed(rule, ts);
    EndOfLastSegment(ROOT_SEGMENTS, ts, tail);
  }

  lemma JoinBelowRoot(ts: seq<string>)
    requires AllSlashFree(ts)
    ensures var path := Join(ROOT_SEGMENTS + ts);
      IsExternal(path) && Split(path) == ROOT_SEGMENTS + ts
  {
    RootSegments();
    RootSegmentsThen(ROOT_SEGMENTS, ts);
  }

  lemma RootSegmentsThen(root: seq<string>, ts: seq<string>)
    requires AllSlashFree(root) && AllSlashFree(ts) && root != []
    ensures Split(Join(root + ts)) == root + ts
    ensures IsDirectoryMatch(Join(root + ts), Join(root))
  {
    hide Split, Join;
    SplitOfJoin(root + ts);
    if ts == [] {
      assert root + ts == root;
    } else {
      JoinAppend(root, ts);
    }
  }

  // ---------------------------------------------------------------------------
  // A rule that is found too late

  /** Two reachable rules that both match an access are tried in the wrong order exactly when the later one is filed deeper. */
  lemma TwoRulesInWrongOrder(a: CompiledRule, b: CompiledRule, q: Query)
    requires WellFormed(a) && Reachable(a) && WellFormed(b) && Reachable(b)
    requires IsExternal(q.path) && Hits(a, q) && Hits(b, q)
    ensures IndexedHit([a, b], q) == FirstHit([a, b], q) <==> Depth(SlotOf(a)) <= Depth(SlotOf(b))
  {
    hide WellFormed, Reachable, Hits, SlotOf, Searched, IndexedHit;
    var rules := [a, b];
    assert rules[0] == a && rules[1] == b;
    ReachableIsSearched(a, q);
    ReachableIsSearched(b, q);
    LookupAgreesExactly(rules, q);
  }

  lemma OneOfTwoHits(a: CompiledRule, b: CompiledRule, q: Query)
    requires WellFormed(a) && Reachable(a) && WellFormed(b) && Reachable(b)
    requires IsExternal(q.path) && !(Hits(a, q) && Hits(b, q))
    ensures IndexedHit([a, b], q) == FirstHit([a, b], q)
  {
    hide WellFormed, Reachable, Hits, SlotOf, Searched, IndexedHit;
    var rules := [a, b];
    assert rules[0] == a && rules[1] == b;
    if Hits(a, q) {
      ReachableIsSearched(a, q);
    }
    if Hits(b, q) {
      ReachableIsSearched(b, q);
    }
    LookupAgreesExactly(rules, q);
  }

  ghost predicate PairAgrees(a: CompiledRule, b: CompiledRule) {
    forall q: Query :: IsExternal(q.path) ==> IndexedHit([a, b], q) == FirstHit([a, b], q)
  }

  predicate AllowsNameType(rule: CompiledRule, e: string) {
    rule.extensions == [] || e in rule.extensions
  }

  /** Some path that the plain rule is about is matched by the glob and let through by the types of both. For a folder
    rule with types that is a path below the folder or the folder itself. */
  ghost predicate CanMeet(a: CompiledRule, b: CompiledRule) {
    if b.pathKind == File then
      PathAccepts(a.path, b.path) && AllowsType(a.extensions, b.path) && AllowsType(b.extensions, b.path)
    else if a.extensions == [] && b.extensions == [] then CanReach(Split(a.path), Split(b.path))
    else exists e :: MeetsWith(a, b, e)
  }

  ghost predicate MeetsWith(a: CompiledRule, b: CompiledRule, e: string) {
    && IsNameType(e) && AllowsNameType(a, e) && AllowsNameType(b, e)
    && (LastCanEnd(Split(a.path), Split(b.path), "." + e) || (PathAccepts(a.path, b.path) && HasEnd(b.path, "." + e)))
  }

  /** A path glob before a plain rule of any kind: the index and the scan agree on all accesses exactly when the plain rule
    is filed no deeper or nothing can meet both rules. */
  lemma PathGlobBeforePlainRule(a: CompiledRule, b: CompiledRule)
    requires WellFormed(a) && Reachable(a) && a.hasPathGlob && a.action != Delete
    requires WellFormed(b) && Reachable(b) && !b.hasPathGlob && !b.hasGlob && b.action != Delete
    ensures PairAgrees(a, b) <==> !(Depth(SlotOf(b)) < Depth(SlotOf(a)) && CanMeet(a, b))
  {
    hide WellFormed, Reachable, Hits, SlotOf, IndexedHit, FirstHit, Split, Depth, CanMeet;
    if Depth(SlotOf(b)) < Depth(SlotOf(a)) && CanMeet(a, b) {
      FiledIsExternal(b, SlotOf(a));
      var q := BothHitBelow(a, b);
      TwoRulesInWrongOrder(a, b, q);
    } else {
      forall q: Query | IsExternal(q.path) ensures IndexedHit([a, b], q) == FirstHit([a, b], q) {
        if Hits(a, q) && Hits(b, q) {
          BothHitMeet(a, b, q);
          TwoRulesInWrongOrder(a, b, q);
        } else {
          OneOfTwoHits(a, b, q);
        }
      }
    }
  }

  lemma FiledIsExternal(rule: CompiledRule, outer: Slot)
    requires Depth(SlotOf(rule)) < Depth(outer) && !rule.hasPathGlob
    ensures IsExternal(rule.path)
  {
  }

  lemma BothHitBelow(a: CompiledRule, b: CompiledRule) returns (q: Query)
    requires WellFormed(a) && a.hasPathGlob && a.action != Delete
    requires !b.hasPathGlob && !b.hasGlob && b.action != Delete
    requires IsExternal(b.path) && CanMeet(a, b)
    ensures IsExternal(q.path) && Hits(a, q) && Hits(b, q)
  {
    hide Split, Join, Decides, CanReach, LastCanEnd, WellFormed, Matched, AllowsType, HasEnd, IsNameType, IsExternal;
    var path;
    if b.pathKind == File {
      path := OwnPathIsMatched(a, b);
    } else if a.extensions == [] && b.extensions == [] {
      var ts := Completion(Split(a.path), Split(b.path));
      CompletionIsAccepted(Split(a.path), Split(b.path));
      path := BelowIsMatched(a, b, ts);
      TypeNeedsNoFilter(path);
    } else {
      var e :| MeetsWith(a, b, e);
      path := TypedMeeting(a, b, e);
      AllowedByType(a.extensions, path, e);
      AllowedByType(b.extensions, path, e);
    }
    q := Query(path, Directory, map[]);
  }

  lemma AllowedByType(types: seq<string>, path: string, e: string)
    requires (types == [] || e in types) && IsNameType(e) && HasEnd(path, "." + e)
    ensures AllowsType(types, path)
  {
    if types != [] {
      hide AllowsType, HasEnd, IsNameType;
      AllowsTypeIs(types, path);
    }
  }

  ghost predicate MatchedByBoth(a: CompiledRule, b: CompiledRule, path: string) {
    IsExternal(path) && Matched(a, Query(path, Directory, map[])) && Matched(b, Query(path, Directory, map[]))
  }

  lemma OwnPathIsMatched(a: CompiledRule, b: CompiledRule) returns (path: string)
    requires WellFormed(a) && a.hasPathGlob && !b.hasPathGlob && !b.hasGlob && b.pathKind == File && IsExternal(b.path)
    requires PathAccepts(a.path, b.path)
    ensures path == b.path && MatchedByBoth(a, b, path)
  {
    hide Split, Decides;
    path := b.path;
    BasePrefixIsRedundant(a.path, path);
  }

  lemma BelowIsMatched(a: CompiledRule, b: CompiledRule, ts: seq<string>) returns (path: string)
    requires WellFormed(a) && a.hasPathGlob && !b.hasPathGlob && !b.hasGlob && b.pathKind != File && IsExternal(b.path)
    requires AllSlashFree(ts) && Decides(Split(a.path), Split(b.path) + ts)
    ensures path == Join(Split(b.path) + ts) && MatchedByBoth(a, b, path)
  {
    hide Split, Join, Decides;
    RootSegmentsThen(Split(b.path), ts);
    JoinOfSplit(b.path);
    path := Join(Split(b.path) + ts);
    InsideExternal(path, b.path);
    BasePrefixIsRedundant(a.path, path);
  }

  lemma TypedMeeting(a: CompiledRule, b: CompiledRule, e: string) returns (path: string)
    requires WellFormed(a) && a.hasPathGlob && !b.hasPathGlob && !b.hasGlob && b.pathKind != File && IsExternal(b.path)
    requires MeetsWith(a, b, e)
    ensures MatchedByBoth(a, b, path) && HasEnd(path, "." + e)
  {
    hide Split, Join, Decides, LastCanEnd, WellFormed, MatchedByBoth, HasEnd, IsNameType, IsExternal;
    var ps, prefix := Split(a.path), Split(b.path);
    TypeTailIsLower(e);
    if LastCanEnd(ps, prefix, "." + e) {
      TypedCompletionIsAccepted(ps, prefix, "." + e);
      var ts := TypedCompletion(ps, prefix, "." + e);
      EndOfLastSegment(prefix, ts, "." + e);
      path := BelowIsMatched(a, b, ts);
    } else {
      assert prefix + [] == prefix;
      path := BelowIsMatched(a, b, []);
      JoinOfSplit(b.path);
    }
  }

  lemma BothHitMeet(a: CompiledRule, b: CompiledRule, q: Query)
    requires a.hasPathGlob && !b.hasPathGlob && !b.hasGlob
    requires Hits(a, q) && Hits(b, q)
    ensures CanMeet(a, b)
  {
    hide Split, Decides, CanReach, AllowsType, HasEnd, IsNameType;
    var ts := SegmentsBelow(q.path, b.path);
    if b.pathKind == File {
      assert q.path == b.path;
    } else if a.extensions == [] && b.extensions == [] {
      AcceptedCanReach(Split(a.path), Split(b.path), ts);
    } else {
      var e := SharedType(a, b, q.path);
      TypedHitMeets(a, b, q.path, ts, e);
    }
  }

  /** A path has one type, so that two filters that let it through share it. */
  lemma SharedType(a: CompiledRule, b: CompiledRule, path: string) returns (e: string)
    requires AllowsType(a.extensions, path) && AllowsType(b.extensions, path)
    requires a.extensions != [] || b.extensions != []
    ensures IsNameType(e) && AllowsNameType(a, e) && AllowsNameType(b, e) && HasEnd(path, "." + e)
  {
    hide LastIndex, Lower;
    e := TypeIsEnd(path);
  }

  lemma TypedHitMeets(a: CompiledRule, b: CompiledRule, path: string, ts: seq<string>, e: string)
    requires IsNameType(e) && AllowsNameType(a, e) && AllowsNameType(b, e) && HasEnd(path, "." + e)
    requires PathAccepts(a.path, path) && Split(path) == Split(b.path) + ts
    ensures MeetsWith(a, b, e)
  {
    hide Split, Join, Decides, LastCanEnd, HasEnd, IsNameType;
    JoinOfSplit(path);
    JoinOfSplit(b.path);
    if ts == [] {
      assert Split(b.path) + ts == Split(b.path);
    } else {
      TypeTailIsLower(e);
      EndOfLastSegment(Split(b.path), ts, "." + e);
      AcceptedCanEnd(Split(a.path), Split(b.path), ts, "." + e);
    }
  }

  /** A file-name glob in the root or directly inside a top-level directory, such as `Download` with `*.pdf`: the lookup finds
    it for the one path that is its own text, and for no other path it hits. */
  lemma TopLevelFileNameGlobIsLost(rule: CompiledRule, q: Query)
    requires WellFormed(rule) && rule.hasGlob && IsExternal(rule.globParent)
    requires |rule.globParent| <= BELOW_ROOT || '/' !in rule.globParent[BELOW_ROOT..]
    requires IsExternal(q.path) && Hits(rule, q)
    ensures IndexedHit([rule], q) == FirstHit([rule], q) <==> q.path == rule.path
  {
    hide Searched, SlotOf, IndexedHit, FirstHit, Glob.Accepts, LastIndex, AllowsType, WellFormed, Matched;
    var name := FileNameGlobEntry(rule, q);
    AloneIsSearched(rule, q);
    OnlyOwnTextIsSearched(rule, rule.globParent, name, rule.globPattern);
    SamePathSameName(rule.globParent, name, rule.globPattern);
  }

  lemma AnalyzeAnyDepthBelow(base: string)
    requires !HasGlobChars(base)
    ensures AnalyzeGlobPattern(base + "/**") == WholePathGlob(base)
  {
    var path := base + "/**";
    var n := |base|;
    assert path[n] == '/' && path[n + 1] == '*' && path[n + 2] == '*';
    assert forall j :: 0 <= j < n ==> path[j] == base[j];
    assert FirstGlobChar(path) == n + 1;
    assert LastIndex(path, '/') == n;
    assert LastIndex(path[..n + 2], '/') == n;
    assert path[..n] == base;
  }

  lemma AnyDepthBelowAccepts(base: string, name: string)
    requires !HasGlobChars(base) && SlashFree(name)
    ensures PathAccepts(base + "/**", base + "/" + name)
  {
    hide Split, Decides, HasGlobChars;
    assert base + "/**" == base + "/" + ANY_DEPTH;
    SplitOfConcat(base, ANY_DEPTH);
    SplitOfConcat(base, name);
    SplitOfSlashFree(ANY_DEPTH);
    SplitOfSlashFree(name);
    LiteralSegments(base);
    LiteralPrefixStep(Split(base), [ANY_DEPTH], [name]);
    AnyDepthTakesOne(name);
  }

  lemma AnyDepthTakesOne(name: string)
    ensures Decides([ANY_DEPTH], [name])
  {
    assert [ANY_DEPTH][1..] == [] && [name][1..] == [];
  }

  function DenyBelow(top: string): CompiledRule {
    var base := EXTERNAL_ROOT + "/" + top;
    CompiledRule(Deny, base + "/**", "", [], false, true, "", "", base, File, 1, 0)
  }

  function AllowFolder(top: string, name: string): CompiledRule {
    CompiledRule(Allow, EXTERNAL_ROOT + "/" + top + "/" + name, "", [], false, false, "", "", "", Directory, 2, 1)
  }

  lemma LiteralBelowRoot(top: string)
    requires !HasGlobChars(top)
    ensures !HasGlobChars(EXTERNAL_ROOT + "/" + top)
  {
    var path := EXTERNAL_ROOT + "/" + top;
    assert !HasGlobChars(EXTERNAL_ROOT);
    forall i | 0 <= i < |path| ensures path[i] !in "*?" {
      assert path[i] == if i < |EXTERNAL_ROOT| then EXTERNAL_ROOT[i]
                        else if i == |EXTERNAL_ROOT| then '/' else top[i - BELOW_ROOT];
    }
  }

  lemma DenyBelowIsFiled(top: string)
    requires top != "" && SlashFree(top) && !HasGlobChars(top)
    ensures WellFormed(DenyBelow(top)) && Reachable(DenyBelow(top)) && SlotOf(DenyBelow(top)) == TopSlot(top)
  {
    var base := EXTERNAL_ROOT + "/" + top;
    LiteralBelowRoot(top);
    AnalyzeAnyDepthBelow(base);
    BelowRoot(top);
    FirstSegmentOf(top, "");
    assert top + "" == top;
  }

  lemma LiteralEntry(top: string, name: string)
    requires !HasGlobChars(top) && !HasGlobChars(name)
    ensures !HasGlobChars(EXTERNAL_ROOT + "/" + top + "/" + name)
  {
    hide HasGlobChars;
    LiteralWithSlash(top, name);
    LiteralBelowRoot(top + "/" + name);
    assert EXTERNAL_ROOT + "/" + (top + "/" + name) == EXTERNAL_ROOT + "/" + top + "/" + name;
  }

  lemma AllowFolderIsFiled(top: string, name: string)
    requires top != "" && SlashFree(top) && !HasGlobChars(top)
    requires name != "" && SlashFree(name) && !HasGlobChars(name)
    ensures WellFormed(AllowFolder(top, name)) && Reachable(AllowFolder(top, name))
    ensures SlotOf(AllowFolder(top, name)) == SecondSlot(top, name)
    ensures IsExternal(AllowFolder(top, name).path)
  {
    hide HasGlobChars, ExternalSegments, IsExternal;
    LiteralEntry(top, name);
    BelowRoot(top);
    EntrySlot(EXTERNAL_ROOT + "/" + top, name);
    ParentOfEntry(EXTERNAL_ROOT + "/" + top, name);
  }

  lemma LiteralWithSlash(top: string, name: string)
    requires !HasGlobChars(top) && !HasGlobChars(name)
    ensures !HasGlobChars(top + "/" + name)
  {
    var path := top + "/" + name;
    forall i | 0 <= i < |path| ensures path[i] !in "*?" {
      assert path[i] == if i < |top| then top[i] else if i == |top| then '/' else name[i - |top| - 1];
    }
  }

  /** Denying everything below a top-level directory and allowing one folder in it, with a name so short that the deny
    rule comes first: the scan denies that folder and the indexed lookup allows it. */
  lemma ShallowGlobIsOvertaken(top: string, name: string)
    requires top != "" && SlashFree(top) && !HasGlobChars(top)
    requires 1 <= |name| <= 2 && SlashFree(name) && !HasGlobChars(name)
    ensures var deny, allow := DenyBelow(top), AllowFolder(top, name);
            var q := Query(allow.path, Directory, map[]);
      && AllReachable([deny, allow]) && SortedBy([deny, allow], ComesBefore) && IsExternal(q.path)
      && FirstHit([deny, allow], q) == Some(deny)
      && IndexedHit([deny, allow], q) == Some(allow)
  {
    hide *;
    var deny, allow := DenyBelow(top), AllowFolder(top, name);
    var q := Query(allow.path, Directory, map[]);
    DenyBelowIsFiled(top);
    AllowFolderIsFiled(top, name);
    PairIsOutOfOrder(top, name);
    BothHit(top, name);
    OvertakenPair(deny, allow, q);
  }

  lemma PairIsOutOfOrder(top: string, name: string)
    requires top != "" && SlashFree(top) && !HasGlobChars(top)
    requires 1 <= |name| <= 2 && SlashFree(name) && !HasGlobChars(name)
    ensures var deny, allow := DenyBelow(top), AllowFolder(top, name);
      deny != allow && ComesBefore(deny, allow) && Depth(SlotOf(allow)) < Depth(SlotOf(deny))
  {
    hide SlotOf, WellFormed, Reachable, HasGlobChars;
    DenyBelowIsFiled(top);
    AllowFolderIsFiled(top, name);
  }

  lemma BothHit(top: string, name: string)
    requires SlashFree(top) && !HasGlobChars(top) && SlashFree(name)
    ensures var q := Query(AllowFolder(top, name).path, Directory, map[]);
      Hits(DenyBelow(top), q) && Hits(AllowFolder(top, name), q)
  {
    var base := EXTERNAL_ROOT + "/" + top;
    LiteralBelowRoot(top);
    AnyDepthBelowAccepts(base, name);
    assert StartsWith(base + "/" + name, base);
  }

  lemma OvertakenPair(deny: CompiledRule, allow: CompiledRule, q: Query)
    requires WellFormed(deny) && Reachable(deny) && WellFormed(allow) && Reachable(allow)
    requires IsExternal(q.path) && Hits(deny, q) && Hits(allow, q) && deny != allow
    requires Depth(SlotOf(allow)) < Depth(SlotOf(deny)) && ComesBefore(deny, allow)
    ensures AllReachable([deny, allow]) && SortedBy([deny, allow], ComesBefore)
    ensures FirstHit([deny, allow], q) == Some(deny) && IndexedHit([deny, allow], q) == Some(allow)
  {
    BothReachable(deny, allow);
    ReachableIsSearched(deny, q);
    DeeperIsFoundFirst(deny, allow, q);
    TwoRulesInWrongOrder(deny, allow, q);
  }

  lemma BothReachable(a: CompiledRule, b: CompiledRule)
    requires WellFormed(a) && Reachable(a) && WellFormed(b) && Reachable(b) && ComesBefore(a, b)
    ensures AllReachable([a, b]) && SortedBy([a, b], ComesBefore)
  {
  }

  lemma DeeperIsFoundFirst(a: CompiledRule, b: CompiledRule, q: Query)
    requires Hits(a, q) && SlotOf(a) in Searched(q.path)
    ensures FirstHit([a, b], q) == Some(a)
    ensures IndexedHit([a, b], q).Some? && IndexedHit([a, b], q).value in [a, b]
  {
    var rules := [a, b];
    assert rules[0] == a;
    SearchedByDepth(q.path);
    FirstHitInFinds(Searched(q.path), rules, q);
  }
}
