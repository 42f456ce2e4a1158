/** The two-level index over the ordered rules (native/rule_engine.cpp, lines 357-466 and 1602-1670).

  A rule is filed under the first one or two segments that its path, or the literal base of its path glob, has
  below shared storage. A lookup tries the rules filed under the two segments of the input, then under its first
  segment, then at the storage root.
*/
module PolicyIndex {
  import opened Options
  import opened Text
  import opened Sorting
  import opened PathMapper
  import opened PathGlob
  import opened PathKindCache
  import opened Rules
  import opened Precedence

  const BELOW_ROOT: nat := |EXTERNAL_ROOT| + 1

  function FirstSegment(path: string): string {
    path[..WordLength(path)]
  }

  /** The first and second segment below shared storage; the second may be empty. */
  function ExternalSegments(path: string): Option<(string, string)> {
    if !IsExternal(path) || |path| <= BELOW_ROOT then None
    else
      var rest := path[BELOW_ROOT..];
      var top := FirstSegment(rest);
      var tail := rest[|top|..];
      Some((top, if tail == "" then "" else FirstSegment(tail[1..])))
  }

  datatype Slot = NoSlot | RootSlot | TopSlot(top: string) | SecondSlot(top: string, second: string)

  function SlotOfPath(path: string): Slot {
    match ExternalSegments(path)
    case Some((top, second)) => if second != "" then SecondSlot(top, second) else TopSlot(top)
    case None => if path == EXTERNAL_ROOT then RootSlot else NoSlot
  }

  function SlotOf(rule: CompiledRule): Slot {
    SlotOfPath(if rule.hasPathGlob then rule.globBasePrefix else rule.path)
  }

  /** The rules filed under one slot, in their order. */
  function At(rules: seq<CompiledRule>, slot: Slot): seq<CompiledRule> {
    if rules == [] then []
    else (if SlotOf(rules[0]) == slot then [rules[0]] else []) + At(rules[1..], slot)
  }

  function Searched(path: string): seq<Slot> {
    match ExternalSegments(path)
    case Some((top, second)) =>
      (if second != "" then [SecondSlot(top, second)] else []) + [TopSlot(top), RootSlot]
    case None => [RootSlot]
  }

  ghost function FirstHitIn(slots: seq<Slot>, rules: seq<CompiledRule>, q: Query): Option<CompiledRule> {
    if slots == [] then None
    else
      var hit := FirstHit(At(rules, slots[0]), q);
      if hit.Some? then hit else FirstHitIn(slots[1..], rules, q)
  }

  /** What the indexed lookup finds. */
  ghost function IndexedHit(rules: seq<CompiledRule>, q: Query): Option<CompiledRule> {
    FirstHitIn(Searched(q.path), rules, q)
  }

  function OrElse(first: Option<CompiledRule>, second: Option<CompiledRule>): Option<CompiledRule> {
    if first.Some? then first else second
  }

  /** The search order spelled out. */
  ghost function SearchInOrder(rules: seq<CompiledRule>, q: Query): Option<CompiledRule> {
    var segments := ExternalSegments(q.path);
    var atRoot := FirstHit(At(rules, RootSlot), q);
    if segments.None? then atRoot
    else
      var (top, second) := segments.value;
      var atTop := OrElse(FirstHit(At(rules, TopSlot(top)), q), atRoot);
      if second != "" then OrElse(FirstHit(At(rules, SecondSlot(top, second)), q), atTop) else atTop
  }

  lemma IndexedHitInOrder(rules: seq<CompiledRule>, q: Query)
    ensures IndexedHit(rules, q) == SearchInOrder(rules, q)
  {
    var segments := ExternalSegments(q.path);
    AfterTheFirst([], RootSlot, rules, q);
    assert [RootSlot] + [] == [RootSlot];
    if segments.Some? {
      var (top, second) := segments.value;
      AfterTheFirst([RootSlot], TopSlot(top), rules, q);
      assert [TopSlot(top), RootSlot] == [TopSlot(top)] + [RootSlot];
      AfterTheFirst([TopSlot(top), RootSlot], SecondSlot(top, second), rules, q);
      assert Searched(q.path) ==
        if second != "" then [SecondSlot(top, second)] + [TopSlot(top), RootSlot] else [TopSlot(top), RootSlot];
    }
  }

  lemma AfterTheFirst(slots: seq<Slot>, slot: Slot, rules: seq<CompiledRule>, q: Query)
    ensures FirstHitIn([slot] + slots, rules, q) == OrElse(FirstHit(At(rules, slot), q), FirstHitIn(slots, rules, q))
  {
    assert ([slot] + slots)[1..] == slots;
  }

  // ---------------------------------------------------------------------------
  // When the lookup agrees with the plain scan: rules filed where it looks, tried in an order that respects depth

  function Depth(slot: Slot): nat {
    match slot
    case SecondSlot(_, _) => 0
    case TopSlot(_) => 1
    case RootSlot => 2
    case NoSlot => 3
  }

  lemma {:induction false} AtMembers(rules: seq<CompiledRule>, slot: Slot)
    ensures forall r :: r in At(rules, slot) <==> r in rules && SlotOf(r) == slot
  {
    if rules != [] {
      AtMembers(rules[1..], slot);
    }
  }

  lemma {:induction false} FirstHitAmongFiled(rules: seq<CompiledRule>, slot: Slot, q: Query)
    ensures FirstHit(rules, q).Some? && SlotOf(FirstHit(rules, q).value) == slot ==>
              FirstHit(At(rules, slot), q) == FirstHit(rules, q)
  {
    if rules != [] {
      var head, tail := rules[0], At(rules[1..], slot);
      FirstHitAmongFiled(rules[1..], slot, q);
      if SlotOf(head) == slot {
        assert At(rules, slot)[1..] == tail;
      } else {
        assert At(rules, slot) == tail;
      }
    }
  }

  lemma {:induction false} FirstHitInFinds(slots: seq<Slot>, rules: seq<CompiledRule>, q: Query)
    requires FirstHit(rules, q).Some? && SlotOf(FirstHit(rules, q).value) in slots
    requires forall i, j :: 0 <= i < j < |slots| ==> Depth(slots[i]) < Depth(slots[j])
    ensures FirstHitIn(slots, rules, q).Some?
    ensures var found := FirstHitIn(slots, rules, q).value;
      && found in rules && Hits(found, q)
      && (forall r :: r in rules && Hits(r, q) && SlotOf(r) in slots ==> Depth(SlotOf(found)) <= Depth(SlotOf(r)))
      && (Depth(SlotOf(found)) == Depth(SlotOf(FirstHit(rules, q).value)) ==> found == FirstHit(rules, q).value)
  {
    var first := FirstHit(rules, q).value;
    AtMembers(rules, slots[0]);
    var hit := FirstHit(At(rules, slots[0]), q);
    if hit.Some? {
      if SlotOf(first) == slots[0] {
        FirstHitAmongFiled(rules, slots[0], q);
      }
    } else {
      FirstHitAmongFiled(rules, slots[0], q);
      FirstHitInFinds(slots[1..], rules, q);
    }
  }

  lemma {:induction false} FirstHitInNone(slots: seq<Slot>, rules: seq<CompiledRule>, q: Query)
    requires FirstHit(rules, q).None?
    ensures FirstHitIn(slots, rules, q).None?
  {
    if slots != [] {
      AtMembers(rules, slots[0]);
      FirstHitInNone(slots[1..], rules, q);
    }
  }

  lemma SearchedByDepth(path: string)
    ensures forall i, j :: 0 <= i < j < |Searched(path)| ==> Depth(Searched(path)[i]) < Depth(Searched(path)[j])
  {
    hide ExternalSegments;
  }

  lemma {:induction false} FirstHitInIsFiled(slots: seq<Slot>, rules: seq<CompiledRule>, q: Query)
    ensures FirstHitIn(slots, rules, q).Some? ==> SlotOf(FirstHitIn(slots, rules, q).value) in slots
  {
    if slots != [] {
      AtMembers(rules, slots[0]);
      FirstHitInIsFiled(slots[1..], rules, q);
    }
  }

  /** What the lookup finds is the first hit under its own slot, and no rule that is filed deeper where it looks hits. */
  lemma {:induction false} FoundUnderItsSlot(slots: seq<Slot>, rules: seq<CompiledRule>, q: Query)
    requires forall i, j :: 0 <= i < j < |slots| ==> Depth(slots[i]) < Depth(slots[j])
    ensures var found := FirstHitIn(slots, rules, q);
      && (found.None? ==> forall r :: r in rules && Hits(r, q) ==> SlotOf(r) !in slots)
      && (found.Some? ==>
            && found.value in rules && FirstHit(At(rules, SlotOf(found.value)), q) == found
            && forall r :: r in rules && Hits(r, q) && SlotOf(r) in slots ==>
                 SlotOf(r) == SlotOf(found.value) || Depth(SlotOf(found.value)) < Depth(SlotOf(r)))
  {
    hide SlotOf, Depth, Hits;
    if slots != [] {
      AtMembers(rules, slots[0]);
      FoundUnderItsSlot(slots[1..], rules, q);
    }
  }

  /** For one access and any rules, the lookup finds what the scan finds exactly when the scan's hit is filed where it looks
    and no rule that is filed there deeper also hits. */
  lemma LookupAgreesExactly(rules: seq<CompiledRule>, q: Query)
    ensures IndexedHit(rules, q) == FirstHit(rules, q) <==>
      (FirstHit(rules, q).Some? ==>
        var first := SlotOf(FirstHit(rules, q).value);
        && first in Searched(q.path)
        && forall r :: r in rules && Hits(r, q) && SlotOf(r) in Searched(q.path) ==> Depth(first) <= Depth(SlotOf(r)))
  {
    hide SlotOf, Searched, Hits, FirstHitIn;
    SearchedByDepth(q.path);
    if FirstHit(rules, q).None? {
      FirstHitInNone(Searched(q.path), rules, q);
    } else if SlotOf(FirstHit(rules, q).value) in Searched(q.path) {
      FirstHitInFinds(Searched(q.path), rules, q);
      FirstHitInIsFiled(Searched(q.path), rules, q);
    } else {
      FirstHitInIsFiled(Searched(q.path), rules, q);
    }
  }
}
