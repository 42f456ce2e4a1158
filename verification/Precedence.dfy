/** The order in which compiled rules are tried (native/rule_engine.cpp, lines 468-494 and 1463-1491). */
module Precedence {
  import opened Options
  import opened PathKindCache
  import opened Rules
  import opened Sorting

  function ActionPriority(action: RuleAction): int {
    match action
    case Deny => 4
    case Redirect => 3
    case RedirectDynamic => 2
    case Allow => 1
    case Delete => 0
  }

  function KindPriority(kind: PathKind): int {
    match kind
    case File => 3
    case Directory => 2
    case Auto => 1
  }

  function GlobRank(rule: CompiledRule): int {
    if rule.hasPathGlob then 0 else if rule.hasGlob then 1 else 2
  }

  /** The comparator given to std::sort. */
  predicate ComesBefore(lhs: CompiledRule, rhs: CompiledRule) {
    if |lhs.path| != |rhs.path| then |lhs.path| > |rhs.path|
    else if lhs.pathKind != rhs.pathKind then KindPriority(lhs.pathKind) > KindPriority(rhs.pathKind)
    else if lhs.action != rhs.action then ActionPriority(lhs.action) > ActionPriority(rhs.action)
    else if GlobRank(lhs) != GlobRank(rhs) then GlobRank(lhs) > GlobRank(rhs)
    else if (lhs.extensions == []) != (rhs.extensions == []) then lhs.extensions != []
    else lhs.lineNumber < rhs.lineNumber
  }

  /** The precedence in one reading: longer path, then kind, action, glob rank, type filter, earlier line. */
  function Rank(rule: CompiledRule): seq<int> {
    [-|rule.path|, -KindPriority(rule.pathKind), -ActionPriority(rule.action), -GlobRank(rule),
     if rule.extensions == [] then 1 else 0, rule.lineNumber]
  }

  predicate LexicographicallyLess(a: seq<int>, b: seq<int>) {
    a != [] && b != [] && (a[0] < b[0] || (a[0] == b[0] && LexicographicallyLess(a[1..], b[1..])))
  }

  lemma {:induction false} LexicographicStep(a: seq<int>, b: seq<int>, n: nat)
    requires n < |a| == |b| && a[..n] == b[..n] && a[n] != b[n]
    ensures LexicographicallyLess(a, b) <==> a[n] < b[n]
  {
    if n > 0 {
      assert a[0] == a[..n][0] && b[0] == b[..n][0];
      assert a[1..][..n - 1] == a[..n][1..] && b[1..][..n - 1] == b[..n][1..];
      LexicographicStep(a[1..], b[1..], n - 1);
    }
  }

  lemma {:induction false} NotLessThanItself(a: seq<int>)
    ensures !LexicographicallyLess(a, a)
  {
    if a != [] {
      NotLessThanItself(a[1..]);
    }
  }

  /** The comparator is the lexicographic order of the ranks. */
  lemma ComparatorIsRankOrder(lhs: CompiledRule, rhs: CompiledRule)
    ensures ComesBefore(lhs, rhs) <==> LexicographicallyLess(Rank(lhs), Rank(rhs))
  {
    var a, b := Rank(lhs), Rank(rhs);
    if a == b {
      NotLessThanItself(a);
    } else {
      var n := if a[0] != b[0] then 0 else if a[1] != b[1] then 1 else if a[2] != b[2] then 2
               else if a[3] != b[3] then 3 else if a[4] != b[4] then 4 else 5;
      LexicographicStep(a, b, n);
    }
  }

  // ---------------------------------------------------------------------------
  // The order of the keys, spelled out

  /** From the first to the last. */
  const ACTIONS: seq<RuleAction> := [Deny, Redirect, RedirectDynamic, Allow, Delete]
  const KINDS: seq<PathKind> := [File, Directory, Auto]

  predicate SameUpToKind(a: CompiledRule, b: CompiledRule) {
    |a.path| == |b.path| && a.pathKind == b.pathKind
  }

  predicate SameShape(a: CompiledRule, b: CompiledRule) {
    a.hasGlob == b.hasGlob && a.hasPathGlob == b.hasPathGlob
  }

  lemma LongerComesFirst(a: CompiledRule, b: CompiledRule)
    requires |a.path| > |b.path|
    ensures ComesBefore(a, b) && !ComesBefore(b, a)
  {
  }

  /** Of rules with paths of one length, those for files come first, then those for directories, then those of unknown kind. */
  lemma FilesComeFirst(a: CompiledRule, b: CompiledRule, i: nat, j: nat)
    requires |a.path| == |b.path| && i < j < |KINDS| && a.pathKind == KINDS[i] && b.pathKind == KINDS[j]
    ensures ComesBefore(a, b) && !ComesBefore(b, a)
  {
  }

  /** Of rules with paths of one length and one kind, whatever their lines, a deny comes before a redirect, that before a
    dynamic one, that before an allow. */
  lemma DeniesComeFirst(a: CompiledRule, b: CompiledRule, i: nat, j: nat)
    requires SameUpToKind(a, b) && i < j < |ACTIONS| && a.action == ACTIONS[i] && b.action == ACTIONS[j]
    ensures ComesBefore(a, b) && !ComesBefore(b, a)
  {
  }

  /** Then literal paths come before file-name globs, and those before path globs. */
  lemma LiteralsComeFirst(a: CompiledRule, b: CompiledRule)
    requires SameUpToKind(a, b) && a.action == b.action
    requires || (!a.hasGlob && !a.hasPathGlob && (b.hasGlob || b.hasPathGlob))
             || (a.hasGlob && !a.hasPathGlob && b.hasPathGlob)
    ensures ComesBefore(a, b) && !ComesBefore(b, a)
  {
  }

  /** Then rules with types come before rules without, and at last the earlier line decides. */
  lemma TypesComeFirst(a: CompiledRule, b: CompiledRule)
    requires SameUpToKind(a, b) && a.action == b.action && SameShape(a, b)
    ensures a.extensions != [] && b.extensions == [] ==> ComesBefore(a, b) && !ComesBefore(b, a)
    ensures (a.extensions == [] <==> b.extensions == []) ==> (ComesBefore(a, b) <==> a.lineNumber < b.lineNumber)
  {
  }

  lemma ComparatorIsStrictWeakOrder()
    ensures StrictWeakOrder(ComesBefore)
  {
  }

  ghost predicate DistinctLines(rules: seq<CompiledRule>) {
    forall i, j :: 0 <= i < j < |rules| ==> rules[i].lineNumber != rules[j].lineNumber
  }

  /** Between rules from different lines the order is total. */
  lemma ComparatorIsTotal(lhs: CompiledRule, rhs: CompiledRule)
    requires lhs.lineNumber != rhs.lineNumber
    ensures ComesBefore(lhs, rhs) <==> !ComesBefore(rhs, lhs)
  {
  }

  method OrderRules(rules: seq<CompiledRule>) returns (ordered: seq<CompiledRule>)
    ensures multiset(ordered) == multiset(rules)
    ensures SortedBy(ordered, ComesBefore)
  {
    ComparatorIsStrictWeakOrder();
    ordered := Sort(rules, ComesBefore);
  }

  /** Rules from different lines have one order only, so how the sort treats ties does not matter. */
  lemma {:induction false} OrderIsUnique(xs: seq<CompiledRule>, ys: seq<CompiledRule>)
    requires multiset(xs) == multiset(ys)
    requires DistinctLines(xs) && DistinctLines(ys)
    requires SortedBy(xs, ComesBefore) && SortedBy(ys, ComesBefore)
    ensures xs == ys
    decreases |xs|
  {
    SameMembers(xs, ys);
    if xs != [] {
      SmallestIsFirst(xs, ys[0]);
      SmallestIsFirst(ys, xs[0]);
      if xs[0] != ys[0] {
        ComparatorIsTotal(xs[0], ys[0]);
      }
      TailsHaveSameMembers(xs, ys);
      OrderIsUnique(xs[1..], ys[1..]);
      assert xs == [xs[0]] + xs[1..] && ys == [ys[0]] + ys[1..];
    }
  }

  lemma SmallestIsFirst(rules: seq<CompiledRule>, other: CompiledRule)
    requires other in rules && SortedBy(rules, ComesBefore) && DistinctLines(rules)
    ensures other == rules[0] || (!ComesBefore(other, rules[0]) && other.lineNumber != rules[0].lineNumber)
  {
  }

  lemma TailsHaveSameMembers(xs: seq<CompiledRule>, ys: seq<CompiledRule>)
    requires xs != [] && ys != [] && xs[0] == ys[0] && multiset(xs) == multiset(ys)
    ensures multiset(xs[1..]) == multiset(ys[1..])
  {
    assert xs == [xs[0]] + xs[1..] && ys == [ys[0]] + ys[1..];
    assert multiset(xs[1..]) == multiset(xs) - multiset{xs[0]};
    assert multiset(ys[1..]) == multiset(ys) - multiset{ys[0]};
  }

  /** The first hit outranks every other rule that hits. */
  lemma {:induction false} FirstHitIsHighest(rules: seq<CompiledRule>, q: Query, other: CompiledRule)
    requires DistinctLines(rules) && SortedBy(rules, ComesBefore)
    requires other in rules && Hits(other, q)
    ensures FirstHit(rules, q).Some?
    ensures var first := FirstHit(rules, q).value; other == first || ComesBefore(first, other)
  {
    if Hits(rules[0], q) {
      if other != rules[0] {
        var i :| 0 < i < |rules| && rules[i] == other;
        ComparatorIsTotal(rules[0], other);
      }
    } else {
      FirstHitIsHighest(rules[1..], q, other);
    }
  }
}
