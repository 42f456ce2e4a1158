/** The parts of the C++ standard library the policy compiler relies on: sort, unique, lower_bound, binary_search. */
module Sorting {
  import opened Text

  // ---------------------------------------------------------------------------
  // std::sort

  /** What std::sort demands of its comparator. */
  ghost predicate StrictWeakOrder<T(!new)>(less: (T, T) -> bool) {
    && (forall x :: !less(x, x))
    && (forall x, y, z :: less(x, y) && less(y, z) ==> less(x, z))
    && (forall x, y, z :: !less(x, y) && !less(y, z) ==> !less(x, z))
  }

  ghost predicate SortedBy<T>(xs: seq<T>, less: (T, T) -> bool) {
    forall i, j :: 0 <= i < j < |xs| ==> !less(xs[j], xs[i])
  }

  method Sort<T(!new)>(xs: seq<T>, less: (T, T) -> bool) returns (ys: seq<T>)
    requires StrictWeakOrder(less)
    ensures multiset(ys) == multiset(xs)
    ensures SortedBy(ys, less)
  {
    ys := [];
    for i := 0 to |xs|
      invariant multiset(ys) == multiset(xs[..i])
      invariant SortedBy(ys, less)
    {
      assert xs[..i + 1] == xs[..i] + [xs[i]];
      ys := Insert(ys, xs[i], less);
    }
    assert xs[..|xs|] == xs;
  }

  method Insert<T(!new)>(xs: seq<T>, x: T, less: (T, T) -> bool) returns (ys: seq<T>)
    requires StrictWeakOrder(less) && SortedBy(xs, less)
    ensures multiset(ys) == multiset(xs) + multiset{x}
    ensures SortedBy(ys, less)
  {
    var at := |xs|;
    while at > 0 && less(x, xs[at - 1])
      invariant 0 <= at <= |xs|
      invariant forall k :: at <= k < |xs| ==> less(x, xs[k])
    {
      at := at - 1;
    }
    forall k | 0 <= k < at ensures !less(x, xs[k]) {
      assert !less(x, xs[at - 1]);
    }
    forall k | at <= k < |xs| ensures !less(xs[k], x) {
      assert less(x, xs[k]);
    }
    Splice(xs, x, at, less);
    ys := xs[..at] + [x] + xs[at..];
  }

  lemma Splice<T>(xs: seq<T>, x: T, at: nat, less: (T, T) -> bool)
    requires at <= |xs| && SortedBy(xs, less)
    requires forall k :: 0 <= k < at ==> !less(x, xs[k])
    requires forall k :: at <= k < |xs| ==> !less(xs[k], x)
    ensures multiset(xs[..at] + [x] + xs[at..]) == multiset(xs) + multiset{x}
    ensures SortedBy(xs[..at] + [x] + xs[at..], less)
  {
    assert xs == xs[..at] + xs[at..];
    var ys := xs[..at] + [x] + xs[at..];
    forall i, j | 0 <= i < j < |ys| ensures !less(ys[j], ys[i]) {
      var before := if i < at then xs[i] else if i == at then x else xs[i - 1];
      var after := if j < at then xs[j] else if j == at then x else xs[j - 1];
      assert ys[i] == before && ys[j] == after;
    }
  }

  lemma SameMembers<T>(xs: seq<T>, ys: seq<T>)
    requires multiset(xs) == multiset(ys)
    ensures |xs| == |ys|
    ensures forall x :: x in xs <==> x in ys
  {
    assert |multiset(xs)| == |multiset(ys)|;
    forall x ensures x in xs <==> x in ys {
      assert x in xs <==> x in multiset(xs);
      assert x in ys <==> x in multiset(ys);
    }
  }

  // ---------------------------------------------------------------------------
  // Strings in order

  ghost predicate StrictlySorted(xs: seq<string>) {
    forall i, j :: 0 <= i < j < |xs| ==> Less(xs[i], xs[j])
  }

  lemma LessIsStrictWeakOrder()
    ensures StrictWeakOrder(Less)
  {
    forall x ensures !Less(x, x) { LessIsIrreflexive(x); }
    forall x, y, z | Less(x, y) && Less(y, z) ensures Less(x, z) { LessIsTransitive(x, y, z); }
    forall x, y, z | !Less(x, y) && !Less(y, z) ensures !Less(x, z) {
      LessIsTotal(x, y);
      LessIsTotal(y, z);
      if Less(x, z) {
        LessIsIrreflexive(x);
        if x != y && y != z {
          LessIsTransitive(z, y, x);
          LessIsTransitive(x, z, x);
        }
      }
    }
  }

  /** std::sort followed by std::unique: the same strings, each once, in order. */
  method SortUnique(xs: seq<string>) returns (ys: seq<string>)
    ensures StrictlySorted(ys)
    ensures forall x :: x in ys <==> x in xs
  {
    hide Less, StrictWeakOrder;
    LessIsStrictWeakOrder();
    var sorted := Sort(xs, Less);
    SameMembers(sorted, xs);
    ys := [];
    for i := 0 to |sorted|
      invariant StrictlySorted(ys)
      invariant forall x :: x in ys <==> x in sorted[..i]
      invariant ys != [] ==> i > 0 && ys[|ys| - 1] == sorted[i - 1]
      invariant ys == [] ==> i == 0
    {
      assert sorted[..i + 1] == sorted[..i] + [sorted[i]];
      if ys == [] || ys[|ys| - 1] != sorted[i] {
        if ys != [] {
          LessIsTotal(sorted[i - 1], sorted[i]);
        }
        AppendGreater(ys, sorted[i]);
        ys := ys + [sorted[i]];
      }
    }
    assert sorted[..|sorted|] == sorted;
  }

  lemma AppendGreater(ys: seq<string>, x: string)
    requires StrictlySorted(ys)
    requires ys != [] ==> Less(ys[|ys| - 1], x)
    ensures StrictlySorted(ys + [x])
  {
    var zs := ys + [x];
    forall i, j | 0 <= i < j < |zs| ensures Less(zs[i], zs[j]) {
      if j == |ys| && i < |ys| - 1 {
        LessIsTransitive(ys[i], ys[|ys| - 1], x);
      }
    }
  }

  // ---------------------------------------------------------------------------
  // std::lower_bound

  ghost predicate SortedByKey<T>(xs: seq<T>, key: T -> string) {
    forall i, j :: 0 <= i < j < |xs| ==> !Less(key(xs[j]), key(xs[i]))
  }

  method LowerBound<T>(xs: seq<T>, key: T -> string, value: string) returns (at: nat)
    requires SortedByKey(xs, key)
    ensures at <= |xs|
    ensures forall i :: 0 <= i < at ==> Less(key(xs[i]), value)
    ensures forall i :: at <= i < |xs| ==> !Less(key(xs[i]), value)
  {
    LessIsStrictWeakOrder();
    var lo, hi := 0, |xs|;
    while lo < hi
      invariant 0 <= lo <= hi <= |xs|
      invariant forall i :: 0 <= i < lo ==> Less(key(xs[i]), value)
      invariant forall i :: hi <= i < |xs| ==> !Less(key(xs[i]), value)
    {
      var mid := (lo + hi) / 2;
      if Less(key(xs[mid]), value) {
        forall i | 0 <= i < mid ensures Less(key(xs[i]), value) {
          LessIsTotal(key(xs[i]), key(xs[mid]));
        }
        lo := mid + 1;
      } else {
        hi := mid;
      }
    }
    return lo;
  }

  /** The element with the given key, found the way the engine finds it: lower_bound, then one comparison. */
  method FindByKey<T>(xs: seq<T>, key: T -> string, value: string) returns (at: int)
    requires SortedByKey(xs, key)
    ensures -1 <= at < |xs|
    ensures at >= 0 ==> key(xs[at]) == value
    ensures at < 0 <==> forall i :: 0 <= i < |xs| ==> key(xs[i]) != value
  {
    LessIsStrictWeakOrder();
    var i := LowerBound(xs, key, value);
    if i < |xs| && key(xs[i]) == value {
      return i;
    }
    forall k | 0 <= k < |xs| ensures key(xs[k]) != value {
      if k >= i && key(xs[k]) == value {
        LessIsTotal(key(xs[i]), value);
      }
    }
    return -1;
  }

  /** std::binary_search over sorted, distinct strings. */
  method BinarySearch(xs: seq<string>, value: string) returns (found: bool)
    requires StrictlySorted(xs)
    ensures found <==> value in xs
  {
    LessIsStrictWeakOrder();
    forall i, j | 0 <= i < j < |xs| ensures !Less(xs[j], xs[i]) {
      assert Less(xs[i], xs[j]);
    }
    var at := FindByKey(xs, (x: string) => x, value);
    found := at >= 0;
  }
}
