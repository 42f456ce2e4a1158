/** What the indexed lookup finds among any rules, reachable or not (native/rule_engine.cpp, lines 1602-1670 and 1802-1824). */
module FiledRules {
  import opened Options
  import opened Text
  import opened PathMapper
  import opened PathGlob
  import opened Rules
  import opened Sorting
  import opened Precedence
  import opened PolicyIndex
  import opened IndexRefinement
  import opened IndexLimits
  import Glob

  /** A rule that hits is filed where the lookup looks exactly when it is reachable, or is a file-name glob and the path is
    its own text. */
  lemma HitIsFiled(rule: CompiledRule, q: Query)
    requires WellFormed(rule) && IsExternal(q.path) && Hits(rule, q)
    ensures SlotOf(rule) in Searched(q.path) <==> Reachable(rule) || (rule.hasGlob && q.path == rule.path)
  {
    hide WellFormed, Reachable, Hits, SlotOf, Searched;
    if Reachable(rule) {
      ReachableIsSearched(rule, q);
    } else if rule.hasGlob {
      UnreachableGlobIsFiled(rule, q);
    } else {
      UnreachableIsNowhere(rule);
      NoSlotIsNeverSearched(q.path);
    }
  }

  lemma UnreachableIsNowhere(rule: CompiledRule)
    requires WellFormed(rule) && !Reachable(rule) && !rule.hasGlob
    ensures SlotOf(rule) == NoSlot
  {
    hide Split, CanReach, AnalyzeGlobPattern;
    if rule.hasPathGlob {
      UnreachablePathGlob(rule);
    }
  }

  lemma UnreachableGlobIsFiled(rule: CompiledRule, q: Query)
    requires WellFormed(rule) && !Reachable(rule) && rule.hasGlob && IsExternal(q.path) && Hits(rule, q)
    ensures SlotOf(rule) in Searched(q.path) <==> q.path == rule.path
  {
    hide WellFormed, Matched, SlotOf, Searched, Glob.Accepts, AllowsType;
    var name := FileNameGlobEntry(rule, q);
    SamePathSameName(rule.globParent, name, rule.globPattern);
    if IsExternal(rule.globParent) {
      OnlyOwnTextIsSearched(rule, rule.globParent, name, rule.globPattern);
    } else {
      FileNameGlobHasNoSlot(rule);
      NoSlotIsNeverSearched(q.path);
      OutsideGlobHasNoHitOfItsOwn(rule, q);
    }
  }

  lemma OutsideGlobHasNoHitOfItsOwn(rule: CompiledRule, q: Query)
    requires WellFormed(rule) && rule.hasGlob && rule.globParent == "/storage/emulated" && IsExternal(q.path)
    ensures q.path != rule.path
  {
    FileNameGlobHasNoSlot(rule);
    if q.path == rule.path {
      FileNameGlobShape(rule.path);
      LastSlashOf(rule.globParent, rule.globPattern);
      ParentOfRoot(q.path, rule.globParent);
    }
  }

  // ---------------------------------------------------------------------------
  // The rules that count for an access

  /** The rules filed where the lookup looks for the access, in their order. */
  function Filed(rules: seq<CompiledRule>, q: Query): seq<CompiledRule> {
    if rules == [] then []
    else (if SlotOf(rules[0]) in Searched(q.path) then [rules[0]] else []) + Filed(rules[1..], q)
  }

  lemma {:induction false} FiledMembers(rules: seq<CompiledRule>, q: Query)
    ensures forall r :: r in Filed(rules, q) <==> r in rules && SlotOf(r) in Searched(q.path)
  {
    hide SlotOf, Searched;
    if rules != [] {
      FiledMembers(rules[1..], q);
      assert rules == [rules[0]] + rules[1..];
    }
  }

  lemma {:induction false} FiledAt(rules: seq<CompiledRule>, q: Query, slot: Slot)
    requires slot in Searched(q.path)
    ensures At(Filed(rules, q), slot) == At(rules, slot)
  {
    hide SlotOf, Searched;
    if rules != [] {
      FiledAt(rules[1..], q, slot);
      FiledCons(rules[0], rules[1..], q, slot);
    }
  }

  lemma FiledCons(first: CompiledRule, rest: seq<CompiledRule>, q: Query, slot: Slot)
    requires slot in Searched(q.path)
    ensures var kept := if SlotOf(first) in Searched(q.path) then [first] else [];
      At(kept + Filed(rest, q), slot) == (if SlotOf(first) == slot then [first] else []) + At(Filed(rest, q), slot)
  {
    hide SlotOf, Searched, Filed;
    if SlotOf(first) in Searched(q.path) {
      assert ([first] + Filed(rest, q))[1..] == Filed(rest, q);
    } else {
      assert [] + Filed(rest, q) == Filed(rest, q);
      assert [] + At(Filed(rest, q), slot) == At(Filed(rest, q), slot);
    }
  }

  lemma {:induction false} FiledInSlots(slots: seq<Slot>, rules: seq<CompiledRule>, q: Query)
    requires forall s :: s in slots ==> s in Searched(q.path)
    ensures FirstHitIn(slots, Filed(rules, q), q) == FirstHitIn(slots, rules, q)
  {
    if slots != [] {
      FiledAt(rules, q, slots[0]);
      FiledInSlots(slots[1..], rules, q);
    }
  }

  /** Rules filed elsewhere make no difference to the lookup. */
  lemma IndexedHitOfFiled(rules: seq<CompiledRule>, q: Query)
    ensures IndexedHit(Filed(rules, q), q) == IndexedHit(rules, q)
  {
    FiledInSlots(Searched(q.path), rules, q);
  }

  /** The rule, if it hits, is seen by the decision: outside shared storage every rule is. */
  predicate Counts(rule: CompiledRule, q: Query) {
    !IsExternal(q.path) || Reachable(rule) || (rule.hasGlob && q.path == rule.path)
  }

  // ---------------------------------------------------------------------------
  // The lookup finds the first of them

  lemma FiledStep(rules: seq<CompiledRule>, q: Query)
    ensures Filed(rules, q) != [] ==> rules != []
    ensures rules != [] ==>
      Filed(rules, q) == if SlotOf(rules[0]) in Searched(q.path) then [rules[0]] + Filed(rules[1..], q) else Filed(rules[1..], q)
  {
    hide SlotOf, Searched;
  }

  lemma FiledPosition(rules: seq<CompiledRule>, q: Query, j: nat) returns (l: nat)
    requires j < |Filed(rules, q)|
    ensures l < |rules| && rules[l] == Filed(rules, q)[j]
  {
    hide SlotOf, Searched, Filed;
    FiledMembers(rules, q);
    assert Filed(rules, q)[j] in Filed(rules, q);
    l :| 0 <= l < |rules| && rules[l] == Filed(rules, q)[j];
  }

  lemma {:induction false} FiledOrder(rules: seq<CompiledRule>, q: Query, i: nat, j: nat) returns (k: nat, l: nat)
    requires i < j < |Filed(rules, q)|
    ensures k < l < |rules| && rules[k] == Filed(rules, q)[i] && rules[l] == Filed(rules, q)[j]
    decreases |rules|
  {
    hide SlotOf, Searched, Filed;
    FiledStep(rules, q);
    var later := rules[1..];
    if SlotOf(rules[0]) !in Searched(q.path) {
      k, l := FiledOrder(later, q, i, j);
      k, l := k + 1, l + 1;
    } else if i > 0 {
      k, l := FiledOrder(later, q, i - 1, j - 1);
      k, l := k + 1, l + 1;
    } else {
      k := 0;
      l := FiledPosition(later, q, j - 1);
      l := l + 1;
    }
  }

  ghost predicate AllWellFormed(rules: seq<CompiledRule>) {
    forall r :: r in rules ==> WellFormed(r)
  }

  /** The hits of filed rules are at least as deep as those that come after them. */
  lemma EarlierIsDeeper(a: CompiledRule, b: CompiledRule, q: Query)
    requires WellFormed(a) && WellFormed(b) && IsExternal(q.path) && Hits(a, q) && Hits(b, q)
    requires SlotOf(a) in Searched(q.path) && SlotOf(b) in Searched(q.path)
    requires |a.path| >= |b.path| && !Overtakes(b, a)
    ensures Depth(SlotOf(a)) <= Depth(SlotOf(b))
  {
    hide WellFormed, Reachable, Hits, SlotOf, Searched, Overtakes;
    HitIsFiled(a, q);
    if Reachable(a) {
      LongerIsDeeper(a, b, q);
    } else {
      OwnSlotIsDeepest(a, q, SlotOf(b));
    }
  }

  lemma OwnSlotIsDeepest(rule: CompiledRule, q: Query, slot: Slot)
    requires WellFormed(rule) && rule.hasGlob && q.path == rule.path && slot in Searched(q.path)
    requires SlotOf(rule) in Searched(q.path)
    ensures Depth(SlotOf(rule)) <= Depth(slot)
  {
    hide WellFormed;
    assert !rule.hasPathGlob by {
      GlobIsOneKind(rule);
    }
    SlotsAreShallower(q.path, slot);
  }

  lemma GlobIsOneKind(rule: CompiledRule)
    requires WellFormed(rule) && rule.hasGlob
    ensures !rule.hasPathGlob
  {
  }

  lemma SlotsAreShallower(path: string, slot: Slot)
    requires SlotOfPath(path) in Searched(path) && slot in Searched(path)
    ensures Depth(SlotOfPath(path)) <= Depth(slot)
  {
    hide ExternalSegments;
  }

  /** For any well-formed rules, longest first and none overtaken: the indexed lookup is the scan of the rules that are
    filed where it looks. */
  lemma IndexFindsFirstFiled(rules: seq<CompiledRule>, q: Query)
    requires AllWellFormed(rules) && LongestFirst(rules) && NoneOvertaken(rules) && IsExternal(q.path)
    ensures IndexedHit(rules, q) == FirstHit(Filed(rules, q), q)
  {
    hide WellFormed, Hits, SlotOf, Searched, Overtakes, Depth, IndexedHit;
    var filed := Filed(rules, q);
    IndexedHitOfFiled(rules, q);
    FiledMembers(rules, q);
    if FirstHit(filed, q).Some? {
      var i := FirstHitPosition(filed, q);
      forall r | r in filed && Hits(r, q) ensures Depth(SlotOf(filed[i])) <= Depth(SlotOf(r)) {
        var j :| 0 <= j < |filed| && filed[j] == r;
        if i < j {
          var k, l := FiledOrder(rules, q, i, j);
          EarlierIsDeeper(filed[i], filed[j], q);
        }
      }
    }
    LookupAgreesExactly(filed, q);
  }
}
