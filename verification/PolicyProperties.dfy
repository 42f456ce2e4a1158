/** What follows for compiled policies: unique precedence, what a whitelist grants, and how a cache grows over a run. */
module PolicyProperties {
  import opened Options
  import opened Sorting
  import opened Text
  import opened PathMapper
  import opened PathKindCache
  import opened Rules
  import opened Precedence
  import opened PolicyIndex
  import opened IndexRefinement
  import opened IndexLimits
  import opened FiledRules
  import opened PathGlob
  import opened Whitelist
  import opened ParsedRules
  import opened RuleCompiler
  import opened Policy

  // ---------------------------------------------------------------------------
  // The index

  /** A policy whose rules the index can reach, none of them overtaken, decides every access as the plain scan of its
    ordered rules would. */
  lemma IndexDecidesLikeScan(ordered: seq<CompiledRule>, q: Query, mode: PolicyMode, g: Grants, granted: seq<string>)
    requires SortedBy(ordered, ComesBefore)
    requires AllReachable(ordered) && NoneOvertaken(ordered)
    ensures Decide(HitFor(ordered, q), q, mode, g, granted) == Decide(FirstHit(ordered, q), q, mode, g, granted)
  {
    if IsExternal(q.path) {
      IndexRefinesScan(ordered, q);
    }
  }

  // ---------------------------------------------------------------------------
  // Precedence

  ghost predicate IncreasingLines(lines: seq<ParsedRuleLine>) {
    forall i, j :: 0 <= i < j < |lines| ==> lines[i].lineNumber < lines[j].lineNumber
  }

  /** Some of the later lines, in increasing order, stay so behind the first. */
  lemma LaterLines(lines: seq<ParsedRuleLine>, rest: seq<ParsedRuleLine>)
    requires lines != [] && IncreasingLines(lines) && IncreasingLines(rest) && forall l :: l in rest ==> l in lines[1..]
    ensures IncreasingLines([lines[0]] + rest) && forall l :: l in rest ==> l in lines
  {
    forall i | 0 <= i < |rest| ensures lines[0].lineNumber < rest[i].lineNumber {
      assert rest[i] in lines[1..];
      var j :| 0 <= j < |lines[1..]| && lines[1..][j] == rest[i];
      assert lines[j + 1] == rest[i];
    }
    assert forall l :: l in lines[1..] ==> l in lines;
  }

  lemma {:induction false} LinesOfIncrease(lines: seq<ParsedRuleLine>, deletes: bool)
    requires IncreasingLines(lines)
    ensures IncreasingLines(LinesOf(lines, deletes))
    ensures forall l :: l in LinesOf(lines, deletes) ==> l in lines
  {
    if lines != [] {
      var rest := LinesOf(lines[1..], deletes);
      LinesOfIncrease(lines[1..], deletes);
      LaterLines(lines, rest);
    }
  }

  lemma {:induction false} TwiceInMultiset(rules: seq<CompiledRule>, rule: CompiledRule)
    requires multiset(rules)[rule] >= 2
    ensures exists i, j :: 0 <= i < j < |rules| && rules[i] == rules[j] == rule
  {
    assert rules == [rules[0]] + rules[1..];
    if rules[0] == rule {
      assert rule in rules[1..];
      var j :| 0 <= j < |rules[1..]| && rules[1..][j] == rule;
      assert rules[0] == rules[j + 1] == rule;
    } else {
      TwiceInMultiset(rules[1..], rule);
      var i, j :| 0 <= i < j < |rules[1..]| && rules[1..][i] == rules[1..][j] == rule;
      assert rules[i + 1] == rules[j + 1] == rule;
    }
  }

  lemma ReorderedLinesAreDistinct(rules: seq<CompiledRule>, ordered: seq<CompiledRule>)
    requires DistinctLines(rules) && multiset(rules) == multiset(ordered)
    ensures DistinctLines(ordered)
  {
    SameMembers(rules, ordered);
    forall i, j | 0 <= i < j < |ordered| ensures ordered[i].lineNumber != ordered[j].lineNumber {
      if ordered[i] == ordered[j] {
        assert ordered == ordered[..j] + [ordered[j]] + ordered[j + 1..];
        assert ordered[i] in ordered[..j];
        assert multiset(ordered)[ordered[j]] >= 2;
        TwiceInMultiset(rules, ordered[j]);
      } else {
        assert ordered[i] in rules && ordered[j] in rules;
      }
    }
  }

  /** In a policy compiled from one parsed section, the first rule of the ordered list that hits is the only hitting rule
    of highest precedence, and no other order of the rules is sorted. */
  lemma ScannedRuleIsHighest(rules: seq<CompiledRule>, ordered: seq<CompiledRule>, lines: seq<ParsedRuleLine>,
                             package: string, probe: string -> PathKind, q: Query, other: CompiledRule)
    requires IncreasingLines(lines) && RulesFrom(rules, LinesOf(lines, false), package, probe)
    requires multiset(ordered) == multiset(rules) && SortedBy(ordered, ComesBefore)
    ensures DistinctLines(ordered)
    ensures other in rules && Hits(other, q) ==>
      FirstHit(ordered, q).Some? && (other == FirstHit(ordered, q).value ||
        LexicographicallyLess(Rank(FirstHit(ordered, q).value), Rank(other)))
  {
    hide RulesFrom, Hits, ComesBefore, LexicographicallyLess, Rank;
    CompiledLinesAreDistinct(rules, lines, package, probe);
    ReorderedLinesAreDistinct(rules, ordered);
    SameMembers(rules, ordered);
    if other in rules && Hits(other, q) {
      FirstHitIsHighest(ordered, q, other);
      ComparatorIsRankOrder(FirstHit(ordered, q).value, other);
    }
  }

  lemma CompiledLinesAreDistinct(rules: seq<CompiledRule>, lines: seq<ParsedRuleLine>, package: string,
                                 probe: string -> PathKind)
    requires IncreasingLines(lines) && RulesFrom(rules, LinesOf(lines, false), package, probe)
    ensures DistinctLines(rules)
  {
    hide LineFails, NormalizedRulePath, WellFormed;
    LinesOfIncrease(lines, false);
    assert forall i :: 0 <= i < |rules| ==> rules[i].lineNumber == LinesOf(lines, false)[i].lineNumber;
  }

  lemma CompiledIsWellFormed(rules: seq<CompiledRule>, ordered: seq<CompiledRule>, lines: seq<ParsedRuleLine>,
                             package: string, probe: string -> PathKind)
    requires RulesFrom(rules, LinesOf(lines, false), package, probe) && multiset(ordered) == multiset(rules)
    ensures AllWellFormed(ordered) && forall r :: r in ordered <==> r in rules
  {
    hide LineFails, NormalizedRulePath, WellFormed, LinesOf, Expanded;
    SameMembers(rules, ordered);
  }

  /** The rule that decides, by the index or the scan, is the only one of highest precedence among the hitting rules that
    count for the access, if none is overtaken; and there is one as soon as there is such a rule. */
  lemma DecidingRuleIsHighest(rules: seq<CompiledRule>, ordered: seq<CompiledRule>, lines: seq<ParsedRuleLine>,
                              package: string, probe: string -> PathKind, q: Query)
    requires IncreasingLines(lines) && RulesFrom(rules, LinesOf(lines, false), package, probe)
    requires multiset(ordered) == multiset(rules) && SortedBy(ordered, ComesBefore) && NoneOvertaken(ordered)
    ensures HitFor(ordered, q).None? <==> forall r :: r in rules && Hits(r, q) ==> !Counts(r, q)
    ensures HitFor(ordered, q).Some? ==> IsHighest(HitFor(ordered, q).value, rules, q)
  {
    hide RulesFrom, Hits, NoneOvertaken, IndexedHit, Counts, IsHighest, ComesBefore, Filed, FirstHit;
    CompiledIsWellFormed(rules, ordered, lines, package, probe);
    CompiledLinesAreDistinct(rules, lines, package, probe);
    ReorderedLinesAreDistinct(rules, ordered);
    DecidingIsFirstCounting(ordered, q);
    CountingKeepsOrder(ordered, q);
    FirstOfCountingIsHighest(ordered, rules, q);
  }

  /** Among the hitting rules that count, the rule is the only one of highest precedence. */
  ghost predicate IsHighest(rule: CompiledRule, rules: seq<CompiledRule>, q: Query) {
    && rule in rules && Hits(rule, q) && Counts(rule, q)
    && forall other :: other in rules && Hits(other, q) && Counts(other, q) ==>
         other == rule || LexicographicallyLess(Rank(rule), Rank(other))
  }

  /** The rules that the decision tries. */
  function Counting(ordered: seq<CompiledRule>, q: Query): seq<CompiledRule> {
    if IsExternal(q.path) then Filed(ordered, q) else ordered
  }

  lemma DecidingIsFirstCounting(ordered: seq<CompiledRule>, q: Query)
    requires SortedBy(ordered, ComesBefore) && AllWellFormed(ordered) && NoneOvertaken(ordered)
    ensures HitFor(ordered, q) == FirstHit(Counting(ordered, q), q)
  {
    hide WellFormed, NoneOvertaken, IndexedHit, Filed;
    if IsExternal(q.path) {
      IndexFindsFirstFiled(ordered, q);
    }
  }

  /** So a policy, whatever its rules, decides every access as the plain scan of those rules would that the index files where
    it looks, if none is overtaken. */
  lemma IndexDecidesLikeFiledScan(ordered: seq<CompiledRule>, q: Query, mode: PolicyMode, g: Grants, granted: seq<string>)
    requires SortedBy(ordered, ComesBefore) && AllWellFormed(ordered) && NoneOvertaken(ordered)
    ensures Decide(HitFor(ordered, q), q, mode, g, granted) ==
      Decide(FirstHit(Counting(ordered, q), q), q, mode, g, granted)
  {
    hide HitFor, Counting, Decide, AllWellFormed, NoneOvertaken;
    DecidingIsFirstCounting(ordered, q);
  }

  lemma CountingKeepsOrder(ordered: seq<CompiledRule>, q: Query)
    requires SortedBy(ordered, ComesBefore) && DistinctLines(ordered)
    ensures SortedBy(Counting(ordered, q), ComesBefore) && DistinctLines(Counting(ordered, q))
    ensures forall r :: r in Counting(ordered, q) <==> r in ordered && (!IsExternal(q.path) || SlotOf(r) in Searched(q.path))
  {
    hide SlotOf, Searched, ComesBefore, Filed;
    if IsExternal(q.path) {
      FiledMembers(ordered, q);
      var filed := Filed(ordered, q);
      forall i, j | 0 <= i < j < |filed| ensures !ComesBefore(filed[j], filed[i]) && filed[i].lineNumber != filed[j].lineNumber {
        var k, l := FiledOrder(ordered, q, i, j);
      }
    }
  }

  lemma FirstOfCountingIsHighest(ordered: seq<CompiledRule>, rules: seq<CompiledRule>, q: Query)
    requires AllWellFormed(ordered) && (forall r :: r in ordered <==> r in rules)
    requires SortedBy(Counting(ordered, q), ComesBefore) && DistinctLines(Counting(ordered, q))
    requires forall r :: r in Counting(ordered, q) <==> r in ordered && (!IsExternal(q.path) || SlotOf(r) in Searched(q.path))
    ensures var hit := FirstHit(Counting(ordered, q), q);
      && (hit.None? <==> forall r :: r in rules && Hits(r, q) ==> !Counts(r, q))
      && (hit.Some? ==> IsHighest(hit.value, rules, q))
  {
    hide WellFormed, Hits, SlotOf, Searched, Counts, Counting, ComesBefore, LexicographicallyLess, Rank;
    var counting := Counting(ordered, q);
    forall r | r in rules && Hits(r, q) ensures r in counting <==> Counts(r, q) {
      CountingHit(r, q);
    }
    if FirstHit(counting, q).Some? {
      var first := FirstHit(counting, q).value;
      forall other | other in rules && Hits(other, q) && Counts(other, q)
        ensures other == first || LexicographicallyLess(Rank(first), Rank(other))
      {
        FirstHitIsHighest(counting, q, other);
        ComparatorIsRankOrder(first, other);
      }
    }
  }

  lemma CountingHit(rule: CompiledRule, q: Query)
    requires WellFormed(rule) && Hits(rule, q)
    ensures Counts(rule, q) <==> !IsExternal(q.path) || SlotOf(rule) in Searched(q.path)
  {
    hide WellFormed, Hits, SlotOf, Searched, Reachable;
    if IsExternal(q.path) {
      HitIsFiled(rule, q);
    }
  }

  lemma {:induction false} AtKeepsOrder(ordered: seq<CompiledRule>, slot: Slot)
    requires SortedBy(ordered, ComesBefore) && DistinctLines(ordered)
    ensures SortedBy(At(ordered, slot), ComesBefore) && DistinctLines(At(ordered, slot))
  {
    hide SlotOf, ComesBefore, SortedBy, DistinctLines, At;
    AtStep(ordered, slot);
    if ordered != [] {
      var rest := At(ordered[1..], slot);
      LaterKeepOrder(ordered);
      AtKeepsOrder(ordered[1..], slot);
      AtMembers(ordered[1..], slot);
      FirstStaysFirst(ordered, rest);
    } else {
      assert At(ordered, slot) == ordered;
    }
  }

  lemma AtStep(ordered: seq<CompiledRule>, slot: Slot)
    ensures ordered == [] ==> At(ordered, slot) == []
    ensures ordered != [] ==>
      At(ordered, slot) == if SlotOf(ordered[0]) == slot then [ordered[0]] + At(ordered[1..], slot) else At(ordered[1..], slot)
  {
    hide SlotOf;
  }

  lemma LaterKeepOrder(ordered: seq<CompiledRule>)
    requires ordered != [] && SortedBy(ordered, ComesBefore) && DistinctLines(ordered)
    ensures SortedBy(ordered[1..], ComesBefore) && DistinctLines(ordered[1..])
  {
    hide ComesBefore;
  }

  /** Some of the later rules stay in order behind the first. */
  lemma FirstStaysFirst(ordered: seq<CompiledRule>, rest: seq<CompiledRule>)
    requires ordered != [] && SortedBy(ordered, ComesBefore) && DistinctLines(ordered)
    requires SortedBy(rest, ComesBefore) && DistinctLines(rest) && forall r :: r in rest ==> r in ordered[1..]
    ensures SortedBy([ordered[0]] + rest, ComesBefore) && DistinctLines([ordered[0]] + rest)
  {
    hide ComesBefore;
    forall i | 0 <= i < |rest|
      ensures !ComesBefore(rest[i], ordered[0]) && rest[i].lineNumber != ordered[0].lineNumber
    {
      assert rest[i] in ordered[1..];
      var j :| 0 <= j < |ordered[1..]| && ordered[1..][j] == rest[i];
      assert ordered[j + 1] == rest[i];
    }
  }

  /** Filed deeper, or as deep and of higher precedence. */
  predicate TriedBefore(rule: CompiledRule, other: CompiledRule) {
    || Depth(SlotOf(rule)) < Depth(SlotOf(other))
    || (SlotOf(rule) == SlotOf(other) && LexicographicallyLess(Rank(rule), Rank(other)))
  }

  /** Without any condition on the rules: in shared storage, the rule that decides is the only one of those that hit and
    count for the access that is tried before all others, and there is one as soon as one counts. */
  lemma DecidingRuleExactly(rules: seq<CompiledRule>, ordered: seq<CompiledRule>, lines: seq<ParsedRuleLine>,
                            package: string, probe: string -> PathKind, q: Query)
    requires IncreasingLines(lines) && RulesFrom(rules, LinesOf(lines, false), package, probe)
    requires multiset(ordered) == multiset(rules) && SortedBy(ordered, ComesBefore) && IsExternal(q.path)
    ensures var hit := HitFor(ordered, q);
      && (hit.None? <==> forall r :: r in rules && Hits(r, q) ==> !Counts(r, q))
      && (hit.Some? ==>
            && hit.value in rules && Hits(hit.value, q) && Counts(hit.value, q)
            && forall other :: other in rules && Hits(other, q) && Counts(other, q) ==>
                 other == hit.value || TriedBefore(hit.value, other))
  {
    hide RulesFrom, WellFormed, Hits, Counts, SlotOf, Searched, ComesBefore, LexicographicallyLess, Rank, FirstHitIn, Depth;
    CompiledIsWellFormed(rules, ordered, lines, package, probe);
    CompiledLinesAreDistinct(rules, lines, package, probe);
    ReorderedLinesAreDistinct(rules, ordered);
    SearchedByDepth(q.path);
    FoundUnderItsSlot(Searched(q.path), ordered, q);
    FirstHitInIsFiled(Searched(q.path), ordered, q);
    forall r | r in rules && Hits(r, q) ensures Counts(r, q) <==> SlotOf(r) in Searched(q.path) {
      CountingHit(r, q);
    }
    if IndexedHit(ordered, q).Some? {
      var found := IndexedHit(ordered, q).value;
      AtKeepsOrder(ordered, SlotOf(found));
      AtMembers(ordered, SlotOf(found));
      forall other | other in rules && Hits(other, q) && SlotOf(other) == SlotOf(found)
        ensures other == found || LexicographicallyLess(Rank(found), Rank(other))
      {
        FirstHitIsHighest(At(ordered, SlotOf(found)), q, other);
        ComparatorIsRankOrder(found, other);
      }
    }
  }

  /** Beside a deny of the same plain path and kind, whatever the lines, no other rule ever decides what the deny counts for. */
  lemma DenyWins(rules: seq<CompiledRule>, ordered: seq<CompiledRule>, lines: seq<ParsedRuleLine>, package: string,
                 probe: string -> PathKind, q: Query, deny: CompiledRule, other: CompiledRule)
    requires IncreasingLines(lines) && RulesFrom(rules, LinesOf(lines, false), package, probe)
    requires multiset(ordered) == multiset(rules) && SortedBy(ordered, ComesBefore)
    requires deny in rules && Hits(deny, q) && Counts(deny, q)
    requires deny.action == Deny && other.action in {Redirect, RedirectDynamic, Allow}
    requires deny.path == other.path && deny.pathKind == other.pathKind && IsLiteral(deny) && IsLiteral(other)
    ensures HitFor(ordered, q).Some? && HitFor(ordered, q) != Some(other)
  {
    hide RulesFrom, Hits, Counts, IncreasingLines, SortedBy, ComesBefore, LexicographicallyLess, Rank, IndexedHit, SlotOfPath;
    DeniesComeFirst(deny, other, 0, if other.action == Redirect then 1 else if other.action == RedirectDynamic then 2 else 3);
    ComparatorIsRankOrder(other, deny);
    if IsExternal(q.path) {
      DecidingRuleExactly(rules, ordered, lines, package, probe, q);
    } else {
      ScannedRuleIsHighest(rules, ordered, lines, package, probe, q, deny);
    }
  }

  predicate IsLiteral(rule: CompiledRule) {
    !rule.hasGlob && !rule.hasPathGlob
  }

  /** If rules are overtaken it need not be: a rule that hits and comes before the deciding one is overtaken. */
  lemma OvertakenRuleDoesNotDecide(top: string, name: string)
    requires top != "" && SlashFree(top) && !HasGlobChars(top)
    requires 1 <= |name| <= 2 && SlashFree(name) && !HasGlobChars(name)
    ensures var deny, allow := DenyBelow(top), AllowFolder(top, name);
            var q := Query(allow.path, Directory, map[]);
      && SortedBy([deny, allow], ComesBefore) && DistinctLines([deny, allow]) && AllReachable([deny, allow])
      && Hits(deny, q) && ComesBefore(deny, allow) && HitFor([deny, allow], q) == Some(allow)
  {
    hide AllReachable, Hits, HasGlobChars, IndexedHit, FirstHit;
    ShallowGlobIsOvertaken(top, name);
    assert [DenyBelow(top), AllowFolder(top, name)][0] == DenyBelow(top);
  }

  // ---------------------------------------------------------------------------
  // What a whitelist policy allows by itself

  lemma {:induction false} GrantedMembers(rules: seq<CompiledRule>, accessiblePaths: seq<string>)
    ensures forall p :: p in Granted(rules, accessiblePaths) <==>
      p in accessiblePaths ||
      exists r :: r in rules && (r.action == Allow || NeedsTarget(r.action)) && r.path == p
  {
    if rules != [] {
      GrantedMembers(rules[1..], accessiblePaths);
      assert rules == [rules[0]] + rules[1..];
    }
  }

  /** With no rule hit, a whitelist policy allows a path exactly when it lies outside shared storage, is related to a
    directory the app owns, leads to or is the path of an allow or redirect rule or of an accessible folder, or
    lies in an accessible folder. */
  lemma WhitelistWithoutHit(rules: seq<CompiledRule>, g: Grants, q: Query)
    ensures Decide(None, q, Whitelist, g, Granted(rules, g.accessiblePaths)).decision == Allowed <==>
      || !IsExternal(q.path)
      || (g.packageName != "" && (Related(q.path, g.ownedDataRoot) || Related(q.path, g.ownedMediaRoot)))
      || (exists r :: r in rules && (r.action == Allow || NeedsTarget(r.action)) && IsDirectoryMatch(r.path, q.path))
      || (exists p :: p in g.accessiblePaths && Related(q.path, p))
    ensures Decide(None, q, Whitelist, g, Granted(rules, g.accessiblePaths)).decision in {Allowed, Blocked}
  {
    var granted := Granted(rules, g.accessiblePaths);
    GrantedMembers(rules, g.accessiblePaths);
    forall r | r in rules && (r.action == Allow || NeedsTarget(r.action)) ensures r.path in granted {
    }
  }

  // ---------------------------------------------------------------------------
  // What one access teaches the cache

  /** A rule of unknown kind that an access comes to: no rule that is tried before it hits. */
  ghost predicate Asks(rules: seq<CompiledRule>, i: nat, q: Query) {
    && i < |rules| && rules[i].action != Delete && rules[i].pathKind == Auto
    && forall j :: 0 <= j < i ==> !Hits(rules[j], q)
  }

  ghost predicate AskedFor(rules: seq<CompiledRule>, q: Query, path: string) {
    exists i: nat :: Asks(rules, i, q) && rules[i].path == path
  }

  /** The cache learns the kind of the access for the paths of just those rules of unknown kind that are tried until one
    hits, and that it did not know already. An access of unknown kind teaches it nothing. */
  lemma {:induction false} TaughtExactly(rules: seq<CompiledRule>, q: Query, cached: map<string, PathKind>, path: string)
    requires q.kind != Auto ==> q.path in cached && cached[q.path] == q.kind
    ensures var after := TaughtBy(rules, q, cached);
      if q.kind != Auto && AskedFor(rules, q, path) && (path !in cached || cached[path] == Auto)
      then path in after && after[path] == q.kind
      else (path in after <==> path in cached) && (path in after ==> after[path] == cached[path])
  {
    hide Hits, Taught;
    if rules != [] {
      var next := if rules[0].action == Delete then cached else Taught(rules[0], q, cached);
      TaughtByOne(rules[0], q, cached, path);
      AskedNext(rules, q, path);
      if rules[0].action == Delete {
        DeleteNeverHits(rules[0], q);
      }
      if !Hits(rules[0], q) {
        TaughtExactly(rules[1..], q, next, path);
      }
    }
  }

  /** So an access of known kind leaves its own path with that kind, whatever was known of it, gives it to the paths of the
    rules that it asks for and that were unknown, and leaves all other entries as they were. */
  lemma AfterAccess(rules: seq<CompiledRule>, path: string, kind: PathKind, before: map<string, PathKind>, other: string)
    requires kind != Auto && other != path
    ensures var q := Query(path, kind, Noted(before, path, kind));
            var after := TaughtBy(rules, q, q.cached);
      && path in after && after[path] == kind
      && (if AskedFor(rules, q, other) && (other !in before || before[other] == Auto)
          then other in after && after[other] == kind
          else (other in after <==> other in before) && (other in after ==> after[other] == before[other]))
  {
    hide AskedFor, TaughtBy;
    var q := Query(path, kind, Noted(before, path, kind));
    TaughtExactly(rules, q, q.cached, path);
    TaughtExactly(rules, q, q.cached, other);
  }

  lemma TaughtByOne(rule: CompiledRule, q: Query, cached: map<string, PathKind>, path: string)
    requires q.kind != Auto ==> q.path in cached && cached[q.path] == q.kind
    ensures var after := Taught(rule, q, cached);
      && (q.kind != Auto ==> q.path in after && after[q.path] == q.kind)
      && (if q.kind != Auto && rule.pathKind == Auto && rule.path == path && (path !in cached || cached[path] == Auto)
          then path in after && after[path] == q.kind
          else (path in after <==> path in cached) && (path in after ==> after[path] == cached[path]))
  {
  }

  lemma AskedNext(rules: seq<CompiledRule>, q: Query, path: string)
    requires rules != []
    ensures AskedFor(rules, q, path) <==>
      || (rules[0].action != Delete && rules[0].pathKind == Auto && rules[0].path == path)
      || (!Hits(rules[0], q) && AskedFor(rules[1..], q, path))
  {
    hide Hits;
    var rest := rules[1..];
    if i: nat :| Asks(rules, i, q) && rules[i].path == path {
      if i > 0 {
        assert forall j :: 0 <= j < i - 1 ==> rest[j] == rules[j + 1];
        assert rest[i - 1] == rules[i];
        assert Asks(rest, i - 1, q);
      }
    }
    if rules[0].action != Delete && rules[0].pathKind == Auto && rules[0].path == path {
      assert Asks(rules, 0, q);
    }
    if !Hits(rules[0], q) {
      if i: nat :| Asks(rest, i, q) && rest[i].path == path {
        assert forall j :: 0 < j < i + 1 ==> rules[j] == rest[j - 1];
        assert Asks(rules, i + 1, q);
      }
    }
  }

  // ---------------------------------------------------------------------------
  // The cache over a run

  /** What can happen to a cache between two of its states: an access to a path, decided by any policy, or the erasure of
    a path that has been removed or renamed. */
  datatype CacheEvent = Access(path: string) | Erasure(path: string)

  ghost predicate EventStep(before: map<string, PathKind>, event: CacheEvent, after: map<string, PathKind>) {
    match event
    case Access(path) => CacheStep(before, path, after)
    case Erasure(path) => after == before - {path}
  }

  ghost predicate Run(states: seq<map<string, PathKind>>, events: seq<CacheEvent>) {
    && |states| == |events| + 1
    && forall i :: 0 <= i < |events| ==> EventStep(states[i], events[i], states[i + 1])
  }

  lemma StepKeepsKnown(before: map<string, PathKind>, event: CacheEvent, after: map<string, PathKind>)
    requires EventStep(before, event, after) && NoAuto(before)
    ensures NoAuto(after)
    ensures forall p :: p in before && event != Erasure(p) ==> p in after
    ensures forall p :: p in before && p != event.path ==> after[p] == before[p]
  {
    if event.Access? && after != before {
      var kind :| LearntFrom(before, event.path, kind, after);
      LearntKeeps(before, event.path, kind, after);
    }
  }

  lemma LearntKeeps(before: map<string, PathKind>, path: string, kind: PathKind, after: map<string, PathKind>)
    requires LearntFrom(before, path, kind, after) && NoAuto(before)
    ensures NoAuto(after)
    ensures forall p :: p in before ==> p in after && (p != path ==> after[p] == before[p])
  {
    var noted := before[path := kind];
    forall p | p in before ensures p in after && (p != path ==> after[p] == before[p]) {
      assert p in noted;
    }
  }

  /** Over every run that starts without unknown kinds, no unknown kind is ever cached, an entry is lost only by its
    erasure, and the kind of a path changes only by an access to that path or its erasure. */
  lemma {:induction false} RunKeepsKindsKnown(states: seq<map<string, PathKind>>, events: seq<CacheEvent>)
    requires Run(states, events) && NoAuto(states[0])
    ensures forall i :: 0 <= i < |states| ==> NoAuto(states[i])
    ensures forall p :: p in states[0] && Erasure(p) !in events ==> p in states[|events|]
    ensures forall p :: p in states[0] && Erasure(p) !in events && Access(p) !in events ==>
      p in states[|events|] && states[|events|][p] == states[0][p]
  {
    if events != [] {
      var n := |events| - 1;
      var start, last := events[..n], events[n];
      assert events == start + [last];
      RunOfPrefix(states, events, n);
      RunKeepsKindsKnown(states[..n + 1], start);
      StepKeepsKnown(states[n], last, states[n + 1]);
    }
  }

  lemma RunOfPrefix(states: seq<map<string, PathKind>>, events: seq<CacheEvent>, n: nat)
    requires Run(states, events) && n <= |events|
    ensures Run(states[..n + 1], events[..n])
  {
    forall i | 0 <= i < n ensures EventStep(states[..n + 1][i], events[..n][i], states[..n + 1][i + 1]) {
      assert EventStep(states[i], events[i], states[i + 1]);
    }
  }
}
