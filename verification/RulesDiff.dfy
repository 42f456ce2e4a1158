/** RulesDiff.kt: the line diff between two versions of a rule file, by a longest common subsequence. */
module RulesDiff {

  /** `s` is obtained from `t` by leaving elements out. */
  predicate IsSubsequence(s: seq<string>, t: seq<string>) {
    || s == []
    || (t != [] && ((s[0] == t[0] && IsSubsequence(s[1..], t[1..])) || IsSubsequence(s, t[1..])))
  }

  predicate IsCommon(s: seq<string>, a: seq<string>, b: seq<string>) {
    IsSubsequence(s, a) && IsSubsequence(s, b)
  }

  function Front(s: seq<string>): seq<string>
    requires s != []
  {
    s[..|s| - 1]
  }

  function Last(s: seq<string>): string
    requires s != []
  {
    s[|s| - 1]
  }

  function Max(x: nat, y: nat): nat {
    if x >= y then x else y
  }

  /** The recurrence of the table. That it is a maximum is proved below. */
  function Lcs(a: seq<string>, b: seq<string>): nat
    decreases |a| + |b|
  {
    if a == [] || b == [] then 0
    else if Last(a) == Last(b) then Lcs(Front(a), Front(b)) + 1
    else Max(Lcs(Front(a), b), Lcs(a, Front(b)))
  }

  // ---------------------------------------------------------------------------
  // Subsequences, from both ends

  lemma {:induction false} TailIsSubsequence(s: seq<string>, t: seq<string>)
    requires s != [] && IsSubsequence(s, t)
    ensures IsSubsequence(s[1..], t)
    decreases |t|
  {
    if s[0] == t[0] && IsSubsequence(s[1..], t[1..]) {
    } else {
      TailIsSubsequence(s, t[1..]);
    }
  }

  /** A leading element common to both sides can be taken off both. */
  lemma TakeBoth(s: seq<string>, t: seq<string>)
    requires s != [] && t != [] && s[0] == t[0] && IsSubsequence(s, t)
    ensures IsSubsequence(s[1..], t[1..])
  {
    if !IsSubsequence(s[1..], t[1..]) {
      TailIsSubsequence(s, t[1..]);
    }
  }

  lemma {:induction false} AppendToText(s: seq<string>, t: seq<string>, x: string)
    requires IsSubsequence(s, t)
    ensures IsSubsequence(s, t + [x])
    decreases |t|
  {
    if s != [] {
      assert (t + [x])[1..] == t[1..] + [x];
      if IsSubsequence(s, t[1..]) {
        AppendToText(s, t[1..], x);
      } else {
        AppendToText(s[1..], t[1..], x);
      }
    }
  }

  /** The last element of the text is of use only for the last element of the subsequence. */
  lemma {:induction false} DropLast(s: seq<string>, t: seq<string>)
    requires s != [] && t != [] && IsSubsequence(s, t)
    ensures Last(s) == Last(t) ==> IsSubsequence(Front(s), Front(t))
    ensures Last(s) != Last(t) ==> IsSubsequence(s, Front(t))
    decreases |t|
  {
    if |t| == 1 {
      assert t[1..] == [];
      assert s[1..] == [];
    } else {
      assert Front(t)[1..] == Front(t[1..]) && Last(t) == Last(t[1..]);
      if s[0] == t[0] && IsSubsequence(s[1..], t[1..]) {
        if |s| > 1 {
          DropLast(s[1..], t[1..]);
          assert Front(s)[1..] == Front(s[1..]) && Last(s) == Last(s[1..]);
        } else {
          assert s[1..] == [];
        }
      } else {
        DropLast(s, t[1..]);
      }
    }
  }

  /** No common subsequence is longer than the recurrence says. */
  lemma {:induction false} LcsIsUpperBound(s: seq<string>, a: seq<string>, b: seq<string>)
    requires IsCommon(s, a, b)
    ensures |s| <= Lcs(a, b)
    decreases |a| + |b|
  {
    if s != [] {
      DropLast(s, a);
      DropLast(s, b);
      if Last(a) == Last(b) {
        if Last(s) == Last(a) {
          LcsIsUpperBound(Front(s), Front(a), Front(b));
        } else {
          LcsIsUpperBound(s, Front(a), Front(b));
        }
      } else if Last(s) != Last(a) {
        LcsIsUpperBound(s, Front(a), b);
      } else {
        LcsIsUpperBound(s, a, Front(b));
      }
    }
  }

  // ---------------------------------------------------------------------------
  // The table and the way back through it

  ghost predicate TableHolds(dp: array2<nat>, a: seq<string>, b: seq<string>, i: nat, j: nat)
    reads dp
  {
    && dp.Length0 == |a| + 1 && dp.Length1 == |b| + 1
    && forall x: nat, y: nat | x <= |a| && y <= |b| && (x < i || y == 0 || (x == i && y < j)) ::
         dp[x, y] == Lcs(a[..x], b[..y])
  }

  /** The value of a cell from its three neighbours. */
  lemma LcsOfPrefixes(a: seq<string>, b: seq<string>, i: nat, j: nat)
    requires 0 < i <= |a| && 0 < j <= |b|
    ensures Lcs(a[..i], b[..j]) ==
            if a[i - 1] == b[j - 1] then Lcs(a[..i - 1], b[..j - 1]) + 1
            else Max(Lcs(a[..i - 1], b[..j]), Lcs(a[..i], b[..j - 1]))
  {
    assert Front(a[..i]) == a[..i - 1] && Front(b[..j]) == b[..j - 1];
  }

  method FillCell(dp: array2<nat>, a: seq<string>, b: seq<string>, i: nat, j: nat)
    requires 0 < i <= |a| && 0 < j <= |b| && TableHolds(dp, a, b, i, j)
    modifies dp
    ensures TableHolds(dp, a, b, i, j + 1)
  {
    hide Lcs, Front, Last;
    LcsOfPrefixes(a, b, i, j);
    dp[i, j] := if a[i - 1] == b[j - 1] then dp[i - 1, j - 1] + 1 else Max(dp[i - 1, j], dp[i, j - 1]);
  }

  lemma EmptyRows(dp: array2<nat>, a: seq<string>, b: seq<string>)
    requires dp.Length0 == |a| + 1 && dp.Length1 == |b| + 1
    requires forall x, y | 0 <= x <= |a| && 0 <= y <= |b| :: dp[x, y] == 0
    ensures TableHolds(dp, a, b, 1, 0)
  {
  }

  lemma NextRow(dp: array2<nat>, a: seq<string>, b: seq<string>, i: nat)
    requires TableHolds(dp, a, b, i, |b| + 1)
    ensures TableHolds(dp, a, b, i + 1, 0)
  {
    hide Lcs;
  }

  method FillTable(a: seq<string>, b: seq<string>) returns (dp: array2<nat>)
    ensures TableHolds(dp, a, b, |a| + 1, 0)
  {
    hide Lcs;
    var m, n := |a|, |b|;
    dp := new nat[m + 1, n + 1]((_, _) => 0);
    EmptyRows(dp, a, b);
    var i := 1;
    while i <= m
      invariant 1 <= i <= m + 1
      invariant TableHolds(dp, a, b, i, 0)
    {
      var j := 1;
      while j <= n
        invariant 1 <= j <= n + 1
        invariant TableHolds(dp, a, b, i, j)
      {
        FillCell(dp, a, b, i, j);
        j := j + 1;
      }
      NextRow(dp, a, b, i);
      i := i + 1;
    }
  }

  /** `result` is common to what lies behind (i, j), and what lies before still makes up a longest one. */
  ghost predicate WayBack(result: seq<string>, a: seq<string>, b: seq<string>, i: nat, j: nat) {
    && i <= |a| && j <= |b|
    && IsCommon(result, a[i..], b[j..])
    && |result| + Lcs(a[..i], b[..j]) == Lcs(a, b)
  }

  /** Which of several longest common subsequences: from the end of both texts, what is equal stays, and where either last
    line could go, the old one goes. */
  function Chosen(a: seq<string>, b: seq<string>): seq<string>
    decreases |a| + |b|
  {
    if a == [] || b == [] then []
    else if Last(a) == Last(b) then Chosen(Front(a), Front(b)) + [Last(a)]
    else if Lcs(Front(a), b) >= Lcs(a, Front(b)) then Chosen(Front(a), b)
    else Chosen(a, Front(b))
  }

  lemma ChosenStep(result: seq<string>, a: seq<string>, b: seq<string>, i: nat, j: nat)
    requires 0 < i <= |a| && 0 < j <= |b|
    ensures Chosen(a[..i], b[..j]) + result ==
      if a[i - 1] == b[j - 1] then Chosen(a[..i - 1], b[..j - 1]) + ([a[i - 1]] + result)
      else if Lcs(a[..i - 1], b[..j]) >= Lcs(a[..i], b[..j - 1]) then Chosen(a[..i - 1], b[..j]) + result
      else Chosen(a[..i], b[..j - 1]) + result
  {
    assert Front(a[..i]) == a[..i - 1] && Front(b[..j]) == b[..j - 1];
    if a[i - 1] == b[j - 1] {
      var chosen := Chosen(a[..i - 1], b[..j - 1]);
      assert (chosen + [a[i - 1]]) + result == chosen + ([a[i - 1]] + result);
    }
  }

  lemma StepBack(result: seq<string>, a: seq<string>, b: seq<string>, i: nat, j: nat)
    requires 0 < i && 0 < j && WayBack(result, a, b, i, j)
    ensures a[i - 1] == b[j - 1] ==> WayBack([a[i - 1]] + result, a, b, i - 1, j - 1)
    ensures a[i - 1] != b[j - 1] ==>
      if Lcs(a[..i - 1], b[..j]) >= Lcs(a[..i], b[..j - 1]) then WayBack(result, a, b, i - 1, j)
      else WayBack(result, a, b, i, j - 1)
  {
    LcsOfPrefixes(a, b, i, j);
    if a[i - 1] == b[j - 1] {
      PrependElement(result, a, i);
      PrependElement(result, b, j);
    } else {
      SkipElement(result, a, i);
      SkipElement(result, b, j);
    }
  }

  /** A longest common subsequence: no common subsequence of the two lists is longer. */
  method LongestCommonSubsequence(a: seq<string>, b: seq<string>) returns (result: seq<string>)
    ensures IsCommon(result, a, b)
    ensures |result| == Lcs(a, b) && result == Chosen(a, b)
    ensures forall s :: IsCommon(s, a, b) ==> |s| <= |result|
  {
    hide Chosen;
    var dp := FillTable(a, b);
    result := [];
    var i, j := |a|, |b|;
    assert a[..i] == a && b[..j] == b;
    while i > 0 && j > 0
      invariant 0 <= i && 0 <= j
      invariant WayBack(result, a, b, i, j)
      invariant Chosen(a[..i], b[..j]) + result == Chosen(a, b)
      invariant TableHolds(dp, a, b, |a| + 1, 0)
    {
      StepBack(result, a, b, i, j);
      ChosenStep(result, a, b, i, j);
      if a[i - 1] == b[j - 1] {
        result := [a[i - 1]] + result;
        i, j := i - 1, j - 1;
      } else {
        if dp[i - 1, j] >= dp[i, j - 1] {
          i := i - 1;
        } else {
          j := j - 1;
        }
      }
    }
    EndOfWay(result, a, b, i, j);
    NothingChosen(a[..i], b[..j]);
  }

  lemma NothingChosen(a: seq<string>, b: seq<string>)
    ensures a == [] || b == [] ==> Chosen(a, b) == []
  {
  }

  lemma EndOfWay(result: seq<string>, a: seq<string>, b: seq<string>, i: nat, j: nat)
    requires WayBack(result, a, b, i, j) && (i == 0 || j == 0)
    ensures IsCommon(result, a, b) && |result| == Lcs(a, b)
    ensures forall s :: IsCommon(s, a, b) ==> |s| <= |result|
  {
    SuffixOfText(result, a, i);
    SuffixOfText(result, b, j);
    LcsIsLongest(a, b);
  }

  lemma LcsIsLongest(a: seq<string>, b: seq<string>)
    ensures forall s :: IsCommon(s, a, b) ==> |s| <= Lcs(a, b)
  {
    forall s | IsCommon(s, a, b) ensures |s| <= Lcs(a, b) {
      LcsIsUpperBound(s, a, b);
    }
  }

  lemma PrependElement(s: seq<string>, t: seq<string>, i: nat)
    requires 0 < i <= |t| && IsSubsequence(s, t[i..])
    ensures IsSubsequence([t[i - 1]] + s, t[i - 1..])
  {
    assert ([t[i - 1]] + s)[1..] == s && t[i - 1..][1..] == t[i..];
  }

  lemma SkipElement(s: seq<string>, t: seq<string>, i: nat)
    requires 0 < i <= |t| && IsSubsequence(s, t[i..])
    ensures IsSubsequence(s, t[i - 1..])
  {
    assert t[i - 1..][1..] == t[i..];
  }

  lemma {:induction false} SuffixOfText(s: seq<string>, t: seq<string>, i: nat)
    requires i <= |t| && IsSubsequence(s, t[i..])
    ensures IsSubsequence(s, t)
    decreases i
  {
    if i == 0 {
      assert t[0..] == t;
    } else {
      assert t[i - 1..][1..] == t[i..];
      SuffixOfText(s, t, i - 1);
    }
  }

  // ---------------------------------------------------------------------------
  // Which one is chosen

  lemma {:induction false} CommonEndStays(a: seq<string>, b: seq<string>, w: seq<string>)
    ensures Chosen(a + w, b + w) == Chosen(a, b) + w
    decreases |w|
  {
    hide Chosen;
    if w == [] {
      assert a + w == a && b + w == b;
    } else {
      var init, last := Front(w), Last(w);
      CommonEndStays(a, b, init);
      CommonLastStays(a + init, b + init, last);
      assert w == init + [last];
      assert a + w == a + init + [last] && b + w == b + init + [last];
    }
  }

  lemma CommonLastStays(a: seq<string>, b: seq<string>, x: string)
    ensures Chosen(a + [x], b + [x]) == Chosen(a, b) + [x]
  {
    assert Front(a + [x]) == a && Front(b + [x]) == b;
  }

  lemma {:induction false} PartOfItself(s: seq<string>, t: seq<string>, rest: seq<string>)
    requires t == s + rest
    ensures IsSubsequence(s, t)
  {
    if s != [] {
      assert t[1..] == s[1..] + rest;
      PartOfItself(s[1..], t[1..], rest);
    }
  }

  lemma {:induction false} SubsequenceIsShorter(s: seq<string>, t: seq<string>)
    requires IsSubsequence(s, t)
    ensures |s| <= |t| && (|s| == |t| ==> s == t)
    decreases |t|
  {
    if s != [] {
      if s[0] == t[0] && IsSubsequence(s[1..], t[1..]) {
        SubsequenceIsShorter(s[1..], t[1..]);
        assert s == [s[0]] + s[1..] && t == [t[0]] + t[1..];
      } else {
        SubsequenceIsShorter(s, t[1..]);
      }
    }
  }

  lemma {:induction false} LcsIsShort(a: seq<string>, b: seq<string>)
    ensures Lcs(a, b) <= |a| && Lcs(a, b) <= |b|
    decreases |a| + |b|
  {
    if a != [] && b != [] {
      LcsIsShort(Front(a), Front(b));
      LcsIsShort(Front(a), b);
      LcsIsShort(a, Front(b));
    }
  }

  lemma {:induction false} ChosenIsCommon(a: seq<string>, b: seq<string>)
    ensures IsCommon(Chosen(a, b), a, b) && |Chosen(a, b)| == Lcs(a, b)
    decreases |a| + |b|
  {
    hide IsSubsequence;
    NothingIsPart(a);
    NothingIsPart(b);
    if a != [] && b != [] {
      assert a == Front(a) + [Last(a)] && b == Front(b) + [Last(b)];
      if Last(a) == Last(b) {
        ChosenIsCommon(Front(a), Front(b));
        AppendToBoth(Chosen(Front(a), Front(b)), Front(a), Last(a));
        AppendToBoth(Chosen(Front(a), Front(b)), Front(b), Last(a));
      } else if Lcs(Front(a), b) >= Lcs(a, Front(b)) {
        ChosenIsCommon(Front(a), b);
        AppendToText(Chosen(a, b), Front(a), Last(a));
      } else {
        ChosenIsCommon(a, Front(b));
        AppendToText(Chosen(a, b), Front(b), Last(b));
      }
    }
  }

  lemma NothingIsPart(t: seq<string>)
    ensures IsSubsequence([], t)
  {
  }

  /** A text and the same with one more line have the text itself in common. */
  lemma OneMoreLine(u: seq<string>, x: string)
    ensures Lcs(u, u + [x]) == |u| && Lcs(u + [x], u) == |u|
    ensures Chosen(u, u + [x]) == u
  {
    hide Lcs, Chosen, IsSubsequence;
    assert u + [] == u;
    PartOfItself(u, u, []);
    PartOfItself(u, u + [x], [x]);
    LcsIsUpperBound(u, u, u + [x]);
    LcsIsUpperBound(u, u + [x], u);
    LcsIsShort(u, u + [x]);
    LcsIsShort(u + [x], u);
    ChosenIsCommon(u, u + [x]);
    SubsequenceIsShorter(Chosen(u, u + [x]), u);
  }

  /** Where two neighbours have changed places, the one that was first before is kept, and the other is shown as moved. */
  lemma SwappedLines(u: seq<string>, x: string, y: string, w: seq<string>)
    requires x != y
    ensures Chosen(u + [x, y] + w, u + [y, x] + w) == u + [x] + w
  {
    CommonEndStays(u + [x, y], u + [y, x], w);
    OneMoreLine(u, x);
    OneMoreLine(u, y);
    assert Front(u + [x, y]) == u + [x] && Front(u + [y, x]) == u + [y];
    assert Front(u + [x]) == u && Front(u + [y]) == u;
    assert Lcs(u + [x], u + [y, x]) == |u| + 1;
    assert Lcs(u + [x, y], u + [y]) == |u| + 1;
    assert Chosen(u + [x], u + [y, x]) == u + [x];
  }

  // ---------------------------------------------------------------------------
  // The diff

  datatype DiffType = ADDED | REMOVED | UNCHANGED
  datatype DiffLine = DiffLine(kind: DiffType, line: string, lineNo: nat)
  datatype DiffResult = DiffResult(added: nat, removed: nat, lines: seq<DiffLine>)

  /** The text a script says was there before: everything but the added lines. */
  function OldSide(lines: seq<DiffLine>): seq<string> {
    if lines == [] then []
    else
      var last := lines[|lines| - 1];
      OldSide(lines[..|lines| - 1]) + (if last.kind == ADDED then [] else [last.line])
  }

  function NewSide(lines: seq<DiffLine>): seq<string> {
    if lines == [] then []
    else
      var last := lines[|lines| - 1];
      NewSide(lines[..|lines| - 1]) + (if last.kind == REMOVED then [] else [last.line])
  }

  function Kept(lines: seq<DiffLine>): seq<string> {
    if lines == [] then []
    else
      var last := lines[|lines| - 1];
      Kept(lines[..|lines| - 1]) + (if last.kind == UNCHANGED then [last.line] else [])
  }

  function Count(lines: seq<DiffLine>, kind: DiffType): nat {
    if lines == [] then 0
    else Count(lines[..|lines| - 1], kind) + (if lines[|lines| - 1].kind == kind then 1 else 0)
  }

  /** The number the next line has in the text it is shown from. */
  function NextNumber(lines: seq<DiffLine>, kind: DiffType): nat {
    1 + if kind == ADDED then |NewSide(lines)| else |OldSide(lines)|
  }

  predicate Numbered(lines: seq<DiffLine>) {
    forall k :: 0 <= k < |lines| ==> lines[k].lineNo == NextNumber(lines[..k], lines[k].kind)
  }

  lemma Extend(lines: seq<DiffLine>, next: DiffLine)
    ensures var more := lines + [next];
      && OldSide(more) == OldSide(lines) + (if next.kind == ADDED then [] else [next.line])
      && NewSide(more) == NewSide(lines) + (if next.kind == REMOVED then [] else [next.line])
      && Kept(more) == Kept(lines) + (if next.kind == UNCHANGED then [next.line] else [])
      && (forall kind :: Count(more, kind) == Count(lines, kind) + (if next.kind == kind then 1 else 0))
    ensures Numbered(lines) && next.lineNo == NextNumber(lines, next.kind) ==> Numbered(lines + [next])
  {
    var more := lines + [next];
    assert more[..|more| - 1] == lines;
    assert forall k :: 0 <= k < |lines| ==> more[..k] == lines[..k];
  }

  lemma {:induction false} SizesAddUp(lines: seq<DiffLine>)
    ensures |OldSide(lines)| == Count(lines, REMOVED) + Count(lines, UNCHANGED)
    ensures |NewSide(lines)| == Count(lines, ADDED) + Count(lines, UNCHANGED)
    ensures |Kept(lines)| == Count(lines, UNCHANGED)
  {
    if lines != [] {
      SizesAddUp(lines[..|lines| - 1]);
    }
  }

  /** What a script keeps is common to both sides. */
  lemma {:induction false} KeptIsCommon(lines: seq<DiffLine>)
    ensures IsCommon(Kept(lines), OldSide(lines), NewSide(lines))
  {
    if lines != [] {
      var init, last := lines[..|lines| - 1], lines[|lines| - 1];
      KeptIsCommon(init);
      assert last.kind != UNCHANGED ==> Kept(lines) == Kept(init);
      assert last.kind == ADDED ==> OldSide(lines) == OldSide(init);
      assert last.kind == REMOVED ==> NewSide(lines) == NewSide(init);
      if last.kind == UNCHANGED {
        AppendToBoth(Kept(init), OldSide(init), last.line);
        AppendToBoth(Kept(init), NewSide(init), last.line);
      } else if last.kind == REMOVED {
        AppendToText(Kept(init), OldSide(init), last.line);
      } else {
        AppendToText(Kept(init), NewSide(init), last.line);
      }
    }
  }

  lemma {:induction false} AppendToBoth(s: seq<string>, t: seq<string>, x: string)
    requires IsSubsequence(s, t)
    ensures IsSubsequence(s + [x], t + [x])
    decreases |t|
  {
    if t == [] {
      assert s + [x] == [x] && t + [x] == [x] && [x][1..] == [];
    } else {
      assert (t + [x])[1..] == t[1..] + [x];
      if s != [] && s[0] == t[0] && IsSubsequence(s[1..], t[1..]) {
        AppendToBoth(s[1..], t[1..], x);
        assert (s + [x])[1..] == s[1..] + [x];
      } else {
        AppendToBoth(s, t[1..], x);
      }
    }
  }

  /** No script between the two texts is smaller than the longest common subsequence allows. */
  lemma NoSmallerScript(lines: seq<DiffLine>)
    ensures Count(lines, ADDED) + Count(lines, REMOVED) >=
            |OldSide(lines)| + |NewSide(lines)| - 2 * Lcs(OldSide(lines), NewSide(lines))
  {
    SizesAddUp(lines);
    KeptIsCommon(lines);
    LcsIsUpperBound(Kept(lines), OldSide(lines), NewSide(lines));
  }

  /** How far the merge has come: what it has written, and what of the common lines is left to find. */
  ghost predicate Merged(result: seq<DiffLine>, lcs: seq<string>, a: seq<string>, b: seq<string>, oi: nat, ni: nat, li: nat)
  {
    && oi <= |a| && ni <= |b| && li <= |lcs|
    && OldSide(result) == a[..oi] && NewSide(result) == b[..ni] && Kept(result) == lcs[..li]
    && IsSubsequence(lcs[li..], a[oi..]) && IsSubsequence(lcs[li..], b[ni..])
    && Numbered(result)
  }

  lemma NothingMerged(lcs: seq<string>, a: seq<string>, b: seq<string>)
    requires IsCommon(lcs, a, b)
    ensures Merged([], lcs, a, b, 0, 0, 0)
  {
    assert lcs[0..] == lcs && a[0..] == a && b[0..] == b;
  }

  lemma KeepLine(result: seq<DiffLine>, lcs: seq<string>, a: seq<string>, b: seq<string>, oi: nat, ni: nat, li: nat)
    requires Merged(result, lcs, a, b, oi, ni, li)
    requires li < |lcs| && oi < |a| && ni < |b| && a[oi] == lcs[li] == b[ni]
    ensures Merged(result + [DiffLine(UNCHANGED, a[oi], oi + 1)], lcs, a, b, oi + 1, ni + 1, li + 1)
  {
    Extend(result, DiffLine(UNCHANGED, a[oi], oi + 1));
    TakeBoth(lcs[li..], a[oi..]);
    TakeBoth(lcs[li..], b[ni..]);
    assert lcs[li..][1..] == lcs[li + 1..] && a[oi..][1..] == a[oi + 1..] && b[ni..][1..] == b[ni + 1..];
  }

  lemma RemoveLine(result: seq<DiffLine>, lcs: seq<string>, a: seq<string>, b: seq<string>, oi: nat, ni: nat, li: nat)
    requires Merged(result, lcs, a, b, oi, ni, li)
    requires oi < |a| && (li >= |lcs| || a[oi] != lcs[li])
    ensures Merged(result + [DiffLine(REMOVED, a[oi], oi + 1)], lcs, a, b, oi + 1, ni, li)
  {
    Extend(result, DiffLine(REMOVED, a[oi], oi + 1));
    assert a[oi..][1..] == a[oi + 1..];
  }

  lemma AddLine(result: seq<DiffLine>, lcs: seq<string>, a: seq<string>, b: seq<string>, oi: nat, ni: nat, li: nat)
    requires Merged(result, lcs, a, b, oi, ni, li)
    requires ni < |b| && (li >= |lcs| || b[ni] != lcs[li])
    ensures Merged(result + [DiffLine(ADDED, b[ni], ni + 1)], lcs, a, b, oi, ni + 1, li)
  {
    Extend(result, DiffLine(ADDED, b[ni], ni + 1));
    assert b[ni..][1..] == b[ni + 1..];
  }

  /** A common line still to come is still to come on both sides. */
  lemma NothingLost(result: seq<DiffLine>, lcs: seq<string>, a: seq<string>, b: seq<string>, oi: nat, ni: nat, li: nat)
    requires Merged(result, lcs, a, b, oi, ni, li)
    ensures li < |lcs| ==> oi < |a| && ni < |b|
  {
  }

  /** What has gone is shown before what has come in its place. */
  predicate RemovalsFirst(lines: seq<DiffLine>) {
    forall k :: 0 <= k < |lines| - 1 && lines[k].kind == ADDED ==> lines[k + 1].kind != REMOVED
  }

  /** Behind an added line, the next old line is one to keep. */
  ghost predicate NoneLeftToRemove(result: seq<DiffLine>, lcs: seq<string>, a: seq<string>, oi: nat, li: nat) {
    result != [] && result[|result| - 1].kind == ADDED ==> oi >= |a| || (li < |lcs| && a[oi] == lcs[li])
  }

  method Diff(oldLines: seq<string>, newLines: seq<string>) returns (r: DiffResult)
    ensures IsScript(r.lines, oldLines, newLines)
    ensures Numbered(r.lines) && RemovalsFirst(r.lines)
    ensures Kept(r.lines) == Chosen(oldLines, newLines)
    ensures r.added == Count(r.lines, ADDED) && r.removed == Count(r.lines, REMOVED)
    ensures r.added + r.removed == |oldLines| + |newLines| - 2 * Lcs(oldLines, newLines)
    ensures forall other :: IsScript(other, oldLines, newLines) ==>
              r.added + r.removed <= Count(other, ADDED) + Count(other, REMOVED)
  {
    hide Merged, Lcs, Chosen, IsScript, Count, Numbered, IsSubsequence;
    var lcs := LongestCommonSubsequence(oldLines, newLines);
    var result: seq<DiffLine> := [];
    var oi: nat, ni: nat, li: nat := 0, 0, 0;
    NothingMerged(lcs, oldLines, newLines);
    while oi < |oldLines| || ni < |newLines|
      invariant oi <= |oldLines| && ni <= |newLines| && li <= |lcs|
      invariant Merged(result, lcs, oldLines, newLines, oi, ni, li)
      invariant RemovalsFirst(result) && NoneLeftToRemove(result, lcs, oldLines, oi, li)
      decreases |oldLines| - oi + |newLines| - ni
    {
      NothingLost(result, lcs, oldLines, newLines, oi, ni, li);
      if li < |lcs| && oi < |oldLines| && oldLines[oi] == lcs[li]
         && ni < |newLines| && newLines[ni] == lcs[li] {
        KeepLine(result, lcs, oldLines, newLines, oi, ni, li);
        result := result + [DiffLine(UNCHANGED, oldLines[oi], oi + 1)];
        oi, ni, li := oi + 1, ni + 1, li + 1;
      } else if oi < |oldLines| && (li >= |lcs| || oldLines[oi] != lcs[li]) {
        RemoveLine(result, lcs, oldLines, newLines, oi, ni, li);
        result := result + [DiffLine(REMOVED, oldLines[oi], oi + 1)];
        oi := oi + 1;
      } else if ni < |newLines| {
        AddLine(result, lcs, oldLines, newLines, oi, ni, li);
        result := result + [DiffLine(ADDED, newLines[ni], ni + 1)];
        ni := ni + 1;
      } else {
        // The source breaks out of the loop here: this is never reached.
        assert false;
      }
    }
    MergedIsMinimal(result, lcs, oldLines, newLines, li);
    r := DiffResult(Count(result, ADDED), Count(result, REMOVED), result);
  }

  ghost predicate IsScript(lines: seq<DiffLine>, a: seq<string>, b: seq<string>) {
    OldSide(lines) == a && NewSide(lines) == b
  }

  lemma MergedIsMinimal(result: seq<DiffLine>, lcs: seq<string>, a: seq<string>, b: seq<string>, li: nat)
    requires Merged(result, lcs, a, b, |a|, |b|, li) && |lcs| == Lcs(a, b)
    ensures IsScript(result, a, b) && Numbered(result) && Kept(result) == lcs
    ensures Count(result, ADDED) + Count(result, REMOVED) == |a| + |b| - 2 * Lcs(a, b)
    ensures forall other :: IsScript(other, a, b) ==>
              Count(result, ADDED) + Count(result, REMOVED) <= Count(other, ADDED) + Count(other, REMOVED)
  {
    NothingLost(result, lcs, a, b, |a|, |b|, li);
    SizesAddUp(result);
    assert a[..|a|] == a && b[..|b|] == b && lcs[..|lcs|] == lcs;
    forall other | IsScript(other, a, b)
      ensures |a| + |b| - 2 * Lcs(a, b) <= Count(other, ADDED) + Count(other, REMOVED)
    {
      NoSmallerScript(other);
    }
  }
}
