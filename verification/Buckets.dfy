/** How the compiler builds the buckets and how the matcher searches them (native/rule_engine.cpp, lines 440-466 and 1602-1670). */
module Buckets {
  import opened Options
  import opened Text
  import opened Sorting
  import opened PathMapper
  import opened Rules
  import opened PolicyIndex

  datatype SecondBucket = SecondBucket(segment: string, rules: seq<CompiledRule>)
  datatype RootBucket = RootBucket(segment: string, rules: seq<CompiledRule>, secondBuckets: seq<SecondBucket>)

  // ---------------------------------------------------------------------------
  // What the buckets hold

  ghost predicate SecondHolds(top: string, bucket: SecondBucket, rules: seq<CompiledRule>) {
    bucket.segment != "" && bucket.rules == At(rules, SecondSlot(top, bucket.segment))
  }

  ghost predicate BucketHolds(bucket: RootBucket, rules: seq<CompiledRule>) {
    && bucket.rules == At(rules, TopSlot(bucket.segment))
    && forall second :: second in bucket.secondBuckets ==> SecondHolds(bucket.segment, second, rules)
  }

  ghost predicate HasRoot(buckets: seq<RootBucket>, top: string) {
    exists b :: b in buckets && b.segment == top
  }

  ghost predicate HasSecond(buckets: seq<SecondBucket>, second: string) {
    exists b :: b in buckets && b.segment == second
  }

  /** A bucket exists for the slot. */
  ghost predicate Filed(buckets: seq<RootBucket>, slot: Slot) {
    match slot
    case TopSlot(top) => HasRoot(buckets, top)
    case SecondSlot(top, second) =>
      && HasRoot(buckets, top)
      && forall b :: b in buckets && b.segment == top ==> HasSecond(b.secondBuckets, second)
    case _ => true
  }

  ghost predicate Holds(buckets: seq<RootBucket>, rules: seq<CompiledRule>) {
    && (forall b :: b in buckets ==> BucketHolds(b, rules))
    && (forall r :: r in rules ==> Filed(buckets, SlotOf(r)))
  }

  ghost predicate DistinctSeconds(buckets: seq<SecondBucket>) {
    forall i, j :: 0 <= i < j < |buckets| ==> buckets[i].segment != buckets[j].segment
  }

  ghost predicate Distinct(buckets: seq<RootBucket>) {
    && (forall i, j :: 0 <= i < j < |buckets| ==> buckets[i].segment != buckets[j].segment)
    && (forall i :: 0 <= i < |buckets| ==> DistinctSeconds(buckets[i].secondBuckets))
  }

  lemma AtCons(first: CompiledRule, rest: seq<CompiledRule>, slot: Slot)
    ensures At([first] + rest, slot) == (if SlotOf(first) == slot then [first] else []) + At(rest, slot)
  {
    hide SlotOf;
    assert ([first] + rest)[1..] == rest;
  }

  lemma {:induction false} AtExtended(rules: seq<CompiledRule>, rule: CompiledRule, slot: Slot)
    ensures At(rules + [rule], slot) == At(rules, slot) + (if SlotOf(rule) == slot then [rule] else [])
  {
    hide SlotOf, At;
    if rules == [] {
      NothingAt(slot);
      AtCons(rule, [], slot);
      assert rules + [rule] == [rule] + [];
    } else {
      var first, rest := rules[0], rules[1..];
      AtExtended(rest, rule, slot);
      AtCons(first, rest, slot);
      AtCons(first, rest + [rule], slot);
      assert rules == [first] + rest && rules + [rule] == [first] + (rest + [rule]);
    }
  }

  lemma NothingAt(slot: Slot)
    ensures At([], slot) == []
  {
  }

  lemma AtIsEmpty(rules: seq<CompiledRule>, slot: Slot)
    requires forall r :: r in rules ==> SlotOf(r) != slot
    ensures At(rules, slot) == []
  {
    AtMembers(rules, slot);
    if At(rules, slot) != [] {
      assert At(rules, slot)[0] in At(rules, slot);
    }
  }

  // ---------------------------------------------------------------------------
  // Building

  method FindOrCreateBucket(buckets: seq<RootBucket>, segment: string, ghost rules: seq<CompiledRule>)
    returns (more: seq<RootBucket>, at: nat)
    requires Holds(buckets, rules) && Distinct(buckets)
    ensures Holds(more, rules) && Distinct(more)
    ensures at < |more| && more[at].segment == segment
  {
    at := 0;
    while at < |buckets|
      invariant at <= |buckets|
      invariant forall i :: 0 <= i < at ==> buckets[i].segment != segment
    {
      if buckets[at].segment == segment {
        return buckets, at;
      }
      at := at + 1;
    }
    NewBucketHolds(buckets, segment, rules);
    more := buckets + [RootBucket(segment, [], [])];
  }

  lemma NewBucketHolds(buckets: seq<RootBucket>, segment: string, rules: seq<CompiledRule>)
    requires Holds(buckets, rules)
    requires forall i :: 0 <= i < |buckets| ==> buckets[i].segment != segment
    ensures Holds(buckets + [RootBucket(segment, [], [])], rules)
  {
    var added := RootBucket(segment, [], []);
    var more := buckets + [added];
    forall r | r in rules ensures SlotOf(r) != TopSlot(segment) && Filed(more, SlotOf(r)) {
      assert Filed(buckets, SlotOf(r));
      assert added in more;
      assert forall b :: b in buckets ==> b in more;
    }
    AtIsEmpty(rules, TopSlot(segment));
  }

  method FindOrCreateSecondBucket(buckets: seq<SecondBucket>, segment: string, ghost top: string, ghost rules: seq<CompiledRule>)
    returns (more: seq<SecondBucket>, at: nat)
    requires segment != "" && DistinctSeconds(buckets)
    requires forall b :: b in buckets ==> SecondHolds(top, b, rules)
    requires HasSecond(buckets, segment) || forall r :: r in rules ==> SlotOf(r) != SecondSlot(top, segment)
    ensures DistinctSeconds(more)
    ensures forall b :: b in more ==> SecondHolds(top, b, rules)
    ensures forall second :: HasSecond(buckets, second) ==> HasSecond(more, second)
    ensures at < |more| && more[at].segment == segment
  {
    hide SlotOf, At;
    at := 0;
    while at < |buckets|
      invariant at <= |buckets|
      invariant forall i :: 0 <= i < at ==> buckets[i].segment != segment
    {
      if buckets[at].segment == segment {
        return buckets, at;
      }
      at := at + 1;
    }
    AtIsEmpty(rules, SecondSlot(top, segment));
    more := buckets + [SecondBucket(segment, [])];
    forall second | HasSecond(buckets, second) ensures HasSecond(more, second) {
      var b :| b in buckets && b.segment == second;
      assert b in more;
    }
  }

  /** Files one rule; rules with no slot in the buckets are left out. */
  method AddRule(buckets: seq<RootBucket>, rule: CompiledRule, ghost rules: seq<CompiledRule>)
    returns (more: seq<RootBucket>)
    requires Holds(buckets, rules) && Distinct(buckets)
    ensures Holds(more, rules + [rule]) && Distinct(more)
  {
    var segments := ExternalSegments(if rule.hasPathGlob then rule.globBasePrefix else rule.path);
    if segments.None? {
      OthersStillHold(buckets, rules, rule);
      return buckets;
    }
    var (top, second) := segments.value;
    var at;
    more, at := FindOrCreateBucket(buckets, top, rules);
    if second != "" {
      more := AddToSecond(more, at, second, rule, rules);
    } else {
      PushTop(more, at, rules, rule);
      more := more[at := more[at].(rules := more[at].rules + [rule])];
    }
  }

  method AddToSecond(buckets: seq<RootBucket>, at: nat, second: string, rule: CompiledRule, ghost rules: seq<CompiledRule>)
    returns (more: seq<RootBucket>)
    requires Holds(buckets, rules) && Distinct(buckets) && at < |buckets|
    requires second != "" && SlotOf(rule) == SecondSlot(buckets[at].segment, second)
    ensures Holds(more, rules + [rule]) && Distinct(more)
  {
    var bucket := buckets[at];
    assert BucketHolds(bucket, rules);
    var seconds, k := FindOrCreateSecondBucket(bucket.secondBuckets, second, bucket.segment, rules);
    PushSecond(buckets, at, seconds, k, rules, rule);
    seconds := seconds[k := SecondBucket(second, seconds[k].rules + [rule])];
    more := buckets[at := bucket.(secondBuckets := seconds)];
  }

  /** A bucket with another segment holds as much after a rule is added elsewhere. */
  lemma BucketStillHolds(bucket: RootBucket, rules: seq<CompiledRule>, rule: CompiledRule)
    requires BucketHolds(bucket, rules)
    requires match SlotOf(rule)
      case TopSlot(top) => top != bucket.segment
      case SecondSlot(top, _) => top != bucket.segment
      case _ => true
    ensures BucketHolds(bucket, rules + [rule])
  {
    AtExtended(rules, rule, TopSlot(bucket.segment));
    forall second | second in bucket.secondBuckets ensures SecondHolds(bucket.segment, second, rules + [rule]) {
      AtExtended(rules, rule, SecondSlot(bucket.segment, second.segment));
    }
  }

  lemma OthersStillHold(buckets: seq<RootBucket>, rules: seq<CompiledRule>, rule: CompiledRule)
    requires Holds(buckets, rules) && !SlotOf(rule).TopSlot? && !SlotOf(rule).SecondSlot?
    ensures Holds(buckets, rules + [rule])
  {
    forall b | b in buckets ensures BucketHolds(b, rules + [rule]) {
      BucketStillHolds(b, rules, rule);
    }
  }

  /** Replacing one bucket by a fuller one with the same segment keeps every slot filed. */
  lemma StillFiled(buckets: seq<RootBucket>, at: nat, bucket: RootBucket, slot: Slot)
    requires at < |buckets| && bucket.segment == buckets[at].segment && Filed(buckets, slot)
    requires forall second :: HasSecond(buckets[at].secondBuckets, second) ==> HasSecond(bucket.secondBuckets, second)
    ensures Filed(buckets[at := bucket], slot)
  {
    var more := buckets[at := bucket];
    assert buckets[at] in buckets && more[at] in more;
    forall top | HasRoot(buckets, top) ensures HasRoot(more, top) {
      var b :| b in buckets && b.segment == top;
      var i :| 0 <= i < |buckets| && buckets[i] == b;
      assert more[i] in more && more[i].segment == top;
    }
  }

  lemma Replaced(buckets: seq<RootBucket>, at: nat, bucket: RootBucket, rules: seq<CompiledRule>, rule: CompiledRule)
    requires Holds(buckets, rules) && Distinct(buckets) && at < |buckets|
    requires bucket.segment == buckets[at].segment && DistinctSeconds(bucket.secondBuckets)
    requires BucketHolds(bucket, rules + [rule])
    requires forall second :: HasSecond(buckets[at].secondBuckets, second) ==> HasSecond(bucket.secondBuckets, second)
    requires SlotOf(rule) == TopSlot(bucket.segment) ||
             (SlotOf(rule).SecondSlot? && SlotOf(rule).top == bucket.segment && HasSecond(bucket.secondBuckets, SlotOf(rule).second))
    ensures Holds(buckets[at := bucket], rules + [rule]) && Distinct(buckets[at := bucket])
  {
    hide BucketHolds, Filed, DistinctSeconds, SlotOf;
    var more := buckets[at := bucket];
    forall b | b in more ensures BucketHolds(b, rules + [rule]) {
      var i :| 0 <= i < |more| && more[i] == b;
      if i != at {
        assert buckets[i] in buckets;
        BucketStillHolds(b, rules, rule);
      }
    }
    NewRuleIsFiled(buckets, at, bucket, SlotOf(rule));
    forall r | r in rules + [rule] ensures Filed(more, SlotOf(r)) {
      if r in rules {
        StillFiled(buckets, at, bucket, SlotOf(r));
      }
    }
  }

  lemma NewRuleIsFiled(buckets: seq<RootBucket>, at: nat, bucket: RootBucket, slot: Slot)
    requires Distinct(buckets) && at < |buckets| && bucket.segment == buckets[at].segment
    requires slot == TopSlot(bucket.segment) ||
             (slot.SecondSlot? && slot.top == bucket.segment && HasSecond(bucket.secondBuckets, slot.second))
    ensures Filed(buckets[at := bucket], slot)
  {
    var more := buckets[at := bucket];
    assert more[at] in more;
    forall b | b in more && b.segment == bucket.segment ensures b == bucket {
      var i :| 0 <= i < |more| && more[i] == b;
      assert i == at;
    }
  }

  lemma PushTop(buckets: seq<RootBucket>, at: nat, rules: seq<CompiledRule>, rule: CompiledRule)
    requires Holds(buckets, rules) && Distinct(buckets) && at < |buckets|
    requires SlotOf(rule) == TopSlot(buckets[at].segment)
    ensures var bucket := buckets[at].(rules := buckets[at].rules + [rule]);
      Holds(buckets[at := bucket], rules + [rule]) && Distinct(buckets[at := bucket])
  {
    var before := buckets[at];
    var bucket := before.(rules := before.rules + [rule]);
    assert before in buckets;
    AtExtended(rules, rule, TopSlot(bucket.segment));
    forall second | second in bucket.secondBuckets ensures SecondHolds(bucket.segment, second, rules + [rule]) {
      AtExtended(rules, rule, SecondSlot(bucket.segment, second.segment));
    }
    Replaced(buckets, at, bucket, rules, rule);
  }

  lemma PushedBucketHolds(bucket: RootBucket, seconds: seq<SecondBucket>, k: nat, rules: seq<CompiledRule>, rule: CompiledRule)
    requires BucketHolds(bucket, rules) && k < |seconds| && DistinctSeconds(seconds)
    requires SlotOf(rule) == SecondSlot(bucket.segment, seconds[k].segment)
    requires forall b :: b in seconds ==> SecondHolds(bucket.segment, b, rules)
    ensures var pushed := seconds[k := SecondBucket(seconds[k].segment, seconds[k].rules + [rule])];
      BucketHolds(bucket.(secondBuckets := pushed), rules + [rule])
  {
    hide SecondHolds, SlotOf, At, DistinctSeconds;
    AtExtended(rules, rule, TopSlot(bucket.segment));
    PushedHold(bucket.segment, seconds, k, rules, rule);
  }

  lemma PushSecond(buckets: seq<RootBucket>, at: nat, seconds: seq<SecondBucket>, k: nat,
                   rules: seq<CompiledRule>, rule: CompiledRule)
    requires Holds(buckets, rules) && Distinct(buckets) && at < |buckets|
    requires k < |seconds| && DistinctSeconds(seconds)
    requires seconds[k].segment != "" && SlotOf(rule) == SecondSlot(buckets[at].segment, seconds[k].segment)
    requires forall b :: b in seconds ==> SecondHolds(buckets[at].segment, b, rules)
    requires forall s :: HasSecond(buckets[at].secondBuckets, s) ==> HasSecond(seconds, s)
    ensures var pushed := seconds[k := SecondBucket(seconds[k].segment, seconds[k].rules + [rule])];
            var bucket := buckets[at].(secondBuckets := pushed);
      Holds(buckets[at := bucket], rules + [rule]) && Distinct(buckets[at := bucket])
  {
    var pushed := seconds[k := SecondBucket(seconds[k].segment, seconds[k].rules + [rule])];
    var bucket := buckets[at].(secondBuckets := pushed);
    hide SecondHolds, SlotOf, At, BucketHolds;
    assert BucketHolds(buckets[at], rules) && pushed[k] in pushed;
    PushedBucketHolds(buckets[at], seconds, k, rules, rule);
    PushedHave(seconds, k, pushed[k]);
    Replaced(buckets, at, bucket, rules, rule);
  }

  lemma PushedHold(top: string, seconds: seq<SecondBucket>, k: nat, rules: seq<CompiledRule>, rule: CompiledRule)
    requires k < |seconds| && DistinctSeconds(seconds)
    requires SlotOf(rule) == SecondSlot(top, seconds[k].segment)
    requires forall b :: b in seconds ==> SecondHolds(top, b, rules)
    ensures forall b :: b in seconds[k := SecondBucket(seconds[k].segment, seconds[k].rules + [rule])] ==>
              SecondHolds(top, b, rules + [rule])
  {
    var pushed := seconds[k := SecondBucket(seconds[k].segment, seconds[k].rules + [rule])];
    forall b | b in pushed ensures SecondHolds(top, b, rules + [rule]) {
      var i :| 0 <= i < |pushed| && pushed[i] == b;
      assert seconds[i] in seconds;
      AtExtended(rules, rule, SecondSlot(top, b.segment));
    }
  }

  lemma PushedHave(seconds: seq<SecondBucket>, k: nat, bucket: SecondBucket)
    requires k < |seconds| && bucket.segment == seconds[k].segment
    ensures forall s :: HasSecond(seconds, s) ==> HasSecond(seconds[k := bucket], s)
  {
    forall s | HasSecond(seconds, s) ensures HasSecond(seconds[k := bucket], s) {
      var b :| b in seconds && b.segment == s;
      var i :| 0 <= i < |seconds| && seconds[i] == b;
      assert seconds[k := bucket][i] in seconds[k := bucket];
    }
  }

  // ---------------------------------------------------------------------------
  // Sorting the buckets, and searching them

  function RootKey(bucket: RootBucket): string { bucket.segment }
  function SecondKey(bucket: SecondBucket): string { bucket.segment }

  ghost predicate Sorted(buckets: seq<RootBucket>) {
    && SortedByKey(buckets, RootKey)
    && forall b :: b in buckets ==> SortedByKey(b.secondBuckets, SecondKey)
  }

  method SortBuckets(buckets: seq<RootBucket>, ghost rules: seq<CompiledRule>) returns (sorted: seq<RootBucket>)
    requires Holds(buckets, rules)
    ensures Holds(sorted, rules) && Sorted(sorted)
  {
    LessIsStrictWeakOrder();
    sorted := Sort(buckets, (lhs: RootBucket, rhs: RootBucket) => Less(lhs.segment, rhs.segment));
    SameMembers(sorted, buckets);
    assert SortedByKey(sorted, RootKey);
    var i := 0;
    while i < |sorted|
      invariant 0 <= i <= |sorted|
      invariant Holds(sorted, rules) && SortedByKey(sorted, RootKey)
      invariant forall k :: 0 <= k < i ==> SortedByKey(sorted[k].secondBuckets, SecondKey)
    {
      var seconds := Sort(sorted[i].secondBuckets, (lhs: SecondBucket, rhs: SecondBucket) => Less(lhs.segment, rhs.segment));
      SameMembers(seconds, sorted[i].secondBuckets);
      SecondsReordered(sorted, i, seconds, rules);
      sorted := sorted[i := sorted[i].(secondBuckets := seconds)];
      i := i + 1;
    }
  }

  lemma SecondsReordered(buckets: seq<RootBucket>, at: nat, seconds: seq<SecondBucket>, rules: seq<CompiledRule>)
    requires Holds(buckets, rules) && at < |buckets|
    requires forall b :: b in buckets[at].secondBuckets <==> b in seconds
    ensures Holds(buckets[at := buckets[at].(secondBuckets := seconds)], rules)
  {
    var bucket := buckets[at].(secondBuckets := seconds);
    var more := buckets[at := bucket];
    assert buckets[at] in buckets;
    forall b | b in more ensures BucketHolds(b, rules) {
      var i :| 0 <= i < |more| && more[i] == b;
      assert buckets[i] in buckets;
    }
    forall r | r in rules ensures Filed(more, SlotOf(r)) {
      assert Filed(buckets, SlotOf(r));
      StillFiled(buckets, at, bucket, SlotOf(r));
    }
  }

  /** The rules a lookup gets for a first segment, and the bucket to look for the second in. */
  method FindRootBucket(buckets: seq<RootBucket>, segment: string, ghost rules: seq<CompiledRule>) returns (found: Option<RootBucket>)
    requires Holds(buckets, rules) && Sorted(buckets)
    ensures found.Some? ==> found.value in buckets && found.value.segment == segment
    ensures (if found.Some? then found.value.rules else []) == At(rules, TopSlot(segment))
    ensures found.None? ==> forall second :: At(rules, SecondSlot(segment, second)) == []
  {
    var at := FindByKey(buckets, RootKey, segment);
    if at >= 0 {
      assert BucketHolds(buckets[at], rules);
      return Some(buckets[at]);
    }
    forall r | r in rules
      ensures SlotOf(r) != TopSlot(segment) && forall second :: SlotOf(r) != SecondSlot(segment, second)
    {
      assert Filed(buckets, SlotOf(r));
    }
    AtIsEmpty(rules, TopSlot(segment));
    forall second ensures At(rules, SecondSlot(segment, second)) == [] {
      AtIsEmpty(rules, SecondSlot(segment, second));
    }
    return None;
  }

  method FindSecondBucket(buckets: seq<RootBucket>, bucket: RootBucket, segment: string, ghost rules: seq<CompiledRule>)
    returns (found: Option<SecondBucket>)
    requires Holds(buckets, rules) && Sorted(buckets) && bucket in buckets
    ensures (if found.Some? then found.value.rules else []) == At(rules, SecondSlot(bucket.segment, segment))
  {
    assert BucketHolds(bucket, rules);
    var at := FindByKey(bucket.secondBuckets, SecondKey, segment);
    if at >= 0 {
      assert bucket.secondBuckets[at] in bucket.secondBuckets;
      return Some(bucket.secondBuckets[at]);
    }
    forall r | r in rules ensures SlotOf(r) != SecondSlot(bucket.segment, segment) {
      assert Filed(buckets, SlotOf(r));
    }
    AtIsEmpty(rules, SecondSlot(bucket.segment, segment));
    return None;
  }
}
