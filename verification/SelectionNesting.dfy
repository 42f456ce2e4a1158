/** Brackets that do not balance: what `(left) AND (right)` means for any words of the caller on the left
  (native/folder_manager.cpp, lines 1011-1016). */
module SelectionNesting {
  import opened Options
  import opened SelectionSyntax

  // ---------------------------------------------------------------------------
  // Levels

  /** How many more brackets are opened than closed. */
  function Level(words: seq<Word>): int {
    if words == [] then 0
    else (match words[0] case Open => 1 case Close => -1 case _ => 0) + Level(words[1..])
  }

  lemma {:induction false} LevelConcat(left: seq<Word>, right: seq<Word>)
    ensures Level(left + right) == Level(left) + Level(right)
  {
    if left == [] {
      assert left + right == right;
    } else {
      assert (left + right)[1..] == left[1..] + right;
      LevelConcat(left[1..], right);
    }
  }

  lemma LevelOfOne(word: Word)
    ensures Level([word]) == match word case Open => 1 case Close => -1 case _ => 0
  {
    assert [word][1..] == [];
    assert Level([]) == 0;
  }

  /** No bracket is closed that has not been opened. */
  predicate StaysInside(words: seq<Word>) {
    forall i :: 0 <= i <= |words| ==> Level(words[..i]) >= 0
  }

  /** An OR stands where more brackets are closed than opened. */
  predicate OrOutside(words: seq<Word>) {
    exists i :: 0 <= i < |words| && OrBelow(words, i, 0)
  }

  predicate OrBelow(words: seq<Word>, i: int, level: int) {
    0 <= i < |words| && words[i] == Or && Level(words[..i]) < level
  }

  // ---------------------------------------------------------------------------
  // The words that are read

  ghost predicate Balanced(used: seq<Word>) {
    Level(used) == 0 && StaysInside(used)
  }

  /** Every OR is inside brackets. */
  ghost predicate Conjoined(used: seq<Word>) {
    Balanced(used) && forall i :: !OrBelow(used, i, 1)
  }

  /** One test, or a bracketed group. */
  ghost predicate Grouped(used: seq<Word>) {
    && used != [] && Level(used) == 0 && used[0] != Or
    && forall i :: 0 < i < |used| ==> Level(used[..i]) > 0
  }

  lemma LevelOfPrefix(left: seq<Word>, right: seq<Word>, i: nat)
    requires i <= |left + right|
    ensures i <= |left| ==> Level((left + right)[..i]) == Level(left[..i])
    ensures i >= |left| ==> Level((left + right)[..i]) == Level(left) + Level(right[..i - |left|])
  {
    if i <= |left| {
      assert (left + right)[..i] == left[..i];
    }
    if i >= |left| {
      assert (left + right)[..i] == left + right[..i - |left|];
      LevelConcat(left, right[..i - |left|]);
    }
  }

  lemma BalancedConcat(left: seq<Word>, right: seq<Word>)
    requires Balanced(left) && Balanced(right)
    ensures Balanced(left + right)
  {
    hide Level;
    LevelConcat(left, right);
    forall i | 0 <= i <= |left + right| ensures Level((left + right)[..i]) >= 0 {
      LevelOfPrefix(left, right, i);
    }
  }

  lemma ConjoinedConcat(left: seq<Word>, right: seq<Word>)
    requires Conjoined(left) && Conjoined(right)
    ensures Conjoined(left + right)
  {
    hide Level;
    BalancedConcat(left, right);
    forall i ensures !OrBelow(left + right, i, 1) {
      if 0 <= i < |left + right| {
        LevelOfPrefix(left, right, i);
        assert !OrBelow(left, i, 1) && !OrBelow(right, i - |left|, 1);
      }
    }
  }

  lemma GroupedIsConjoined(used: seq<Word>)
    requires Grouped(used)
    ensures Conjoined(used)
  {
    hide Level;
    assert used[..0] == [] && used[..|used|] == used;
    EmptyLevel();
    forall i ensures !OrBelow(used, i, 1) {
    }
  }

  lemma EmptyLevel()
    ensures Level([]) == 0
  {
  }

  lemma OneIsGrouped(test: Test)
    ensures Grouped([Atom(test)])
  {
    LevelOfOne(Atom(test));
  }

  lemma JointIsConjoined()
    ensures Conjoined([And]) && Balanced([Or])
  {
    LevelOfOne(And);
    LevelOfOne(Or);
    EmptyLevel();
    assert [And][..0] == [] && [And][..1] == [And] && [Or][..0] == [] && [Or][..1] == [Or];
  }

  lemma BracketedIsGrouped(inner: seq<Word>)
    requires Balanced(inner)
    ensures Grouped([Open] + inner + [Close])
  {
    hide Level;
    var used := [Open] + inner + [Close];
    LevelOfOne(Open);
    LevelOfOne(Close);
    LevelConcat([Open], inner);
    LevelConcat([Open] + inner, [Close]);
    forall i | 0 < i < |used| ensures Level(used[..i]) > 0 {
      assert used[..i] == [Open] + inner[..i - 1];
      LevelConcat([Open], inner[..i - 1]);
    }
  }

  // ---------------------------------------------------------------------------
  // What is read is read alone: its own words, with its own arguments

  lemma {:induction false} FactorAlone(words: seq<Word>, args: seq<string>, row: Row)
    returns (used: seq<Word>, taken: seq<string>)
    requires ReadFactor(words, args, row).Got?
    ensures var r := ReadFactor(words, args, row);
      words == used + r.words && args == taken + r.args && IsFactor(used, taken, row, r.value)
    ensures Grouped(used)
    decreases |words|, 0
  {
    hide Grouped, Balanced, IsDisjunction;
    if words[0] == Open {
      var inner := ReadOr(words[1..], args, row);
      var within;
      within, taken := OrAlone(words[1..], args, row);
      used := [Open] + within + [Close];
      Parenthesized(within, taken, row, inner.value);
      BracketedIsGrouped(within);
      assert words == [Open] + words[1..] && inner.words == [Close] + inner.words[1..];
      assert words == used + inner.words[1..];
    } else {
      var test := words[0].test;
      used, taken := [words[0]], args[..Holes(test)];
      OneTest(test, taken, row);
      OneIsGrouped(test);
      assert words == used + words[1..] && args == taken + args[Holes(test)..];
    }
  }

  lemma {:induction false} AndAlone(words: seq<Word>, args: seq<string>, row: Row)
    returns (used: seq<Word>, taken: seq<string>)
    requires ReadAnd(words, args, row).Got?
    ensures var r := ReadAnd(words, args, row);
      words == used + r.words && args == taken + r.args && IsConjunction(used, taken, row, r.value)
    ensures Conjoined(used)
    decreases |words|, 1
  {
    hide Grouped, Conjoined, Balanced, ReadFactor;
    var left := ReadFactor(words, args, row);
    var first, mine := FactorAlone(words, args, row);
    GroupedIsConjoined(first);
    if left.words != [] && left.words[0] == And {
      var right := ReadAnd(left.words[1..], left.args, row);
      var rest, others := AndAlone(left.words[1..], left.args, row);
      used, taken := first + ([And] + rest), mine + others;
      FactorThenAnd(first, mine, left.value, rest, others, right.value, row);
      JointIsConjoined();
      ConjoinedConcat([And], rest);
      ConjoinedConcat(first, [And] + rest);
      assert left.words == [And] + left.words[1..];
      assert words == used + right.words && args == taken + right.args;
    } else {
      used, taken := first, mine;
      FactorIsConjunction(first, mine, row, left.value);
    }
  }

  lemma FactorThenAnd(first: seq<Word>, mine: seq<string>, value: bool, rest: seq<Word>, others: seq<string>, more: bool, row: Row)
    requires IsFactor(first, mine, row, value) && IsConjunction(rest, others, row, more)
    ensures IsConjunction(first + ([And] + rest), mine + others, row, value && more)
  {
    hide ReadFactor, ReadAnd;
    FactorFollowed(first, mine, row, [And] + rest, others);
    assert [] + ([And] + rest) == [And] + rest && [] + others == others;
    AndCons(first + ([And] + rest), mine + others, row, Got(value, [And] + rest, others), rest, more);
  }

  lemma {:induction false} OrAlone(words: seq<Word>, args: seq<string>, row: Row)
    returns (used: seq<Word>, taken: seq<string>)
    requires ReadOr(words, args, row).Got?
    ensures var r := ReadOr(words, args, row);
      words == used + r.words && args == taken + r.args && IsDisjunction(used, taken, row, r.value)
    ensures Balanced(used)
    decreases |words|, 2
  {
    hide Conjoined, Balanced, ReadAnd;
    var left := ReadAnd(words, args, row);
    var first, mine := AndAlone(words, args, row);
    assert Balanced(first) by {
      ConjoinedIsBalanced(first);
    }
    if left.words != [] && left.words[0] == Or {
      var right := ReadOr(left.words[1..], left.args, row);
      var rest, others := OrAlone(left.words[1..], left.args, row);
      used, taken := first + ([Or] + rest), mine + others;
      ConjunctionThenOr(first, mine, left.value, rest, others, right.value, row);
      JointIsConjoined();
      BalancedConcat([Or], rest);
      BalancedConcat(first, [Or] + rest);
      assert left.words == [Or] + left.words[1..];
      assert words == used + right.words && args == taken + right.args;
    } else {
      used, taken := first, mine;
      ConjunctionIsDisjunction(first, mine, row, left.value);
    }
  }

  lemma ConjoinedIsBalanced(used: seq<Word>)
    requires Conjoined(used)
    ensures Balanced(used)
  {
  }

  lemma ConjunctionThenOr(first: seq<Word>, mine: seq<string>, value: bool, rest: seq<Word>, others: seq<string>, more: bool, row: Row)
    requires IsConjunction(first, mine, row, value) && IsDisjunction(rest, others, row, more)
    ensures IsDisjunction(first + ([Or] + rest), mine + others, row, value || more)
  {
    hide ReadAnd, ReadOr;
    AndFollowed(first, mine, row, [Or] + rest, others);
    assert [] + ([Or] + rest) == [Or] + rest && [] + others == others;
    OrCons(first + ([Or] + rest), mine + others, row, Got(value, [Or] + rest, others), rest, more);
  }

  // ---------------------------------------------------------------------------
  // The right side decides, unless an OR of the left side stands outside its brackets

  function Bracketed(words: seq<Word>): seq<Word> {
    [Open] + words + [Close]
  }

  /** All that stands in front of the bracketed right side. */
  function LeftOf(left: seq<Word>): seq<Word> {
    [Open] + left + [Close, And]
  }

  lemma BothIsLeftThenRight(left: seq<Word>, right: seq<Word>)
    ensures Both(left, right) == LeftOf(left) + Bracketed(right)
  {
  }

  lemma LevelOfBracketed(words: seq<Word>)
    ensures Level(Bracketed(words)) == Level(words)
  {
    LevelOfOne(Open);
    LevelOfOne(Close);
    LevelConcat([Open], words);
    LevelConcat([Open] + words, [Close]);
  }

  lemma LevelOfLeft(left: seq<Word>)
    ensures Level(LeftOf(left)) == Level(left)
  {
    LevelOfBracketed(left);
    LevelOfOne(And);
    LevelConcat(Bracketed(left), [And]);
    assert LeftOf(left) == Bracketed(left) + [And];
  }

  lemma PlacesConcat(left: seq<Word>, right: seq<Word>)
    ensures Places(left + right) == Places(left) + Places(right)
  {
    if left == [] {
      assert left + right == right;
    } else {
      assert (left + right)[1..] == left[1..] + right;
      PlacesConcat(left[1..], right);
    }
  }

  lemma PlacesOfBracketed(words: seq<Word>)
    ensures Places(Bracketed(words)) == Places(words)
  {
    PlacesConcat([Open], words);
    PlacesConcat([Open] + words, [Close]);
    assert [Open][1..] == [] && [Close][1..] == [];
  }

  /** A group that is read from a group is all of it. */
  lemma GroupedPrefixIsAll(group: seq<Word>, used: seq<Word>)
    requires Grouped(group) && used != [] && Level(used) == 0 && used <= group
    ensures used == group
  {
    assert used == group[..|used|];
    assert group[..|group|] == group;
  }

  /** A conjunction that ends in a bracketed group is not true unless the group is. */
  lemma {:induction false} LastGroupDecides(front: seq<Word>, frontArgs: seq<string>, right: seq<Word>, rightArgs: seq<string>,
                                            rightValue: bool, row: Row, value: bool)
    requires IsDisjunction(right, rightArgs, row, rightValue) && Balanced(right) && Level(front) == 0
    requires IsConjunction(front + Bracketed(right), frontArgs + rightArgs, row, value)
    ensures value ==> rightValue
    decreases |front|
  {
    hide ReadFactor, Level, IsDisjunction, Grouped;
    var group := Bracketed(right);
    var words, args := front + group, frontArgs + rightArgs;
    var r := ReadFactor(words, args, row);
    var used, taken := FactorAlone(words, args, row);
    BracketedIsGrouped(right);
    Parenthesized(right, rightArgs, row, rightValue);
    if front == [] {
      assert words == group;
      GroupIsReadWhole(group, used);
      OwnArguments(right, rightArgs, rightValue, frontArgs, row, used, taken, r.value);
    } else {
      FactorInFront(front, group, used);
      var behind := front[|used|..];
      BehindFactor(front, group, used, r.words);
      assert behind != [] && behind[0] == And && r.words[1..] == behind[1..] + group;
      var rest := ReadAnd(r.words[1..], r.args, row);
      LevelBehind(front, used, behind);
      var restArgs := ArgumentsBehind(behind[1..], right, rightArgs, rightValue, frontArgs, taken, r.args, row, rest.value);
      LastGroupDecides(behind[1..], restArgs, right, rightArgs, rightValue, row, rest.value);
    }
  }

  lemma GroupIsReadWhole(group: seq<Word>, used: seq<Word>)
    requires Grouped(group) && Grouped(used) && used <= group
    ensures used == group
  {
    GroupedPrefixIsAll(group, used);
  }

  /** Read with all its arguments, a group has its own value. */
  lemma OwnArguments(right: seq<Word>, rightArgs: seq<string>, rightValue: bool, frontArgs: seq<string>, row: Row,
                     used: seq<Word>, taken: seq<string>, value: bool)
    requires IsDisjunction(right, rightArgs, row, rightValue) && used == Bracketed(right)
    requires IsFactor(used, taken, row, value) && taken == frontArgs + rightArgs
    ensures value == rightValue
  {
    Parenthesized(right, rightArgs, row, rightValue);
    FactorPlaces(used, taken, row, value);
    FactorPlaces(used, rightArgs, row, rightValue);
    assert taken == rightArgs;
  }

  lemma FactorPlaces(words: seq<Word>, args: seq<string>, row: Row, value: bool)
    requires IsFactor(words, args, row, value)
    ensures |args| == Places(words)
  {
    FactorTakesItsArgs(words, args, row);
  }

  lemma ConjunctionPlaces(words: seq<Word>, args: seq<string>, row: Row, value: bool)
    requires IsConjunction(words, args, row, value)
    ensures |args| == Places(words)
  {
    AndTakesItsArgs(words, args, row);
  }

  lemma DisjunctionPlaces(words: seq<Word>, args: seq<string>, row: Row, value: bool)
    requires IsDisjunction(words, args, row, value)
    ensures |args| == Places(words)
  {
    OrTakesItsArgs(words, args, row);
  }

  /** The first factor does not reach into what follows a balanced front. */
  lemma FactorInFront(front: seq<Word>, group: seq<Word>, used: seq<Word>)
    requires front != [] && Level(front) == 0 && Grouped(used) && used <= front + group
    ensures |used| <= |front| && used == front[..|used|]
  {
    hide Level;
    if |used| >= |front| {
      FrontIsPrefix(front, group, used);
    }
    assert used == (front + group)[..|used|];
  }

  lemma FrontIsPrefix(front: seq<Word>, group: seq<Word>, used: seq<Word>)
    requires used <= front + group && |used| >= |front|
    ensures used[..|front|] == front
  {
  }

  lemma BehindFactor(front: seq<Word>, group: seq<Word>, used: seq<Word>, rest: seq<Word>)
    requires front + group == used + rest && |used| <= |front|
    ensures front == used + front[|used|..] && rest == front[|used|..] + group
  {
    assert rest == (used + rest)[|used|..];
    assert used == (front + group)[..|used|];
  }

  lemma LevelBehind(front: seq<Word>, used: seq<Word>, behind: seq<Word>)
    requires Level(front) == 0 && Grouped(used) && front == used + behind && behind != [] && behind[0] == And
    ensures Level(behind[1..]) == 0
  {
    LevelConcat(used, behind);
    assert behind == [And] + behind[1..];
    LevelOfOne(And);
    LevelConcat([And], behind[1..]);
  }

  /** What the first factor leaves of the arguments still ends in those of the right side. */
  lemma ArgumentsBehind(front: seq<Word>, right: seq<Word>, rightArgs: seq<string>, rightValue: bool, frontArgs: seq<string>,
                        taken: seq<string>, left: seq<string>, row: Row, value: bool)
    returns (restArgs: seq<string>)
    requires IsDisjunction(right, rightArgs, row, rightValue)
    requires frontArgs + rightArgs == taken + left && IsConjunction(front + Bracketed(right), left, row, value)
    ensures left == restArgs + rightArgs
  {
    ConjunctionPlaces(front + Bracketed(right), left, row, value);
    PlacesConcat(front, Bracketed(right));
    PlacesOfBracketed(right);
    DisjunctionPlaces(right, rightArgs, row, rightValue);
    var n := |left| - |rightArgs|;
    restArgs := left[..n];
    var all := frontArgs + rightArgs;
    assert left == all[|taken|..];
    assert left[n..] == all[|taken| + n..] == rightArgs;
  }

  /** In `(left) AND (right)`, no OR stands at the top unless one of the left side stands outside its brackets. */
  lemma NoOrAtTop(left: seq<Word>, right: seq<Word>, i: nat)
    requires !OrOutside(left) && Balanced(right) && Level(left) == 0
    requires i < |Both(left, right)| && Level(Both(left, right)[..i]) == 0
    ensures Both(left, right)[i] != Or
  {
    hide Level;
    var front, group := LeftOf(left), Bracketed(right);
    BothIsLeftThenRight(left, right);
    LevelOfLeft(left);
    LevelOfPrefix(front, group, i);
    if i < |front| {
      if 0 < i <= |left| {
        assert front[..i] == [Open] + left[..i - 1];
        LevelOfOne(Open);
        LevelConcat([Open], left[..i - 1]);
        assert !OrBelow(left, i - 1, 0);
      }
    } else {
      BracketedIsGrouped(right);
    }
  }

  /** Whatever the left side is: if none of its ORs stands outside its brackets, the joined selection is true only where
    the right side is. */
  lemma RightSideDecides(left: seq<Word>, leftArgs: seq<string>, right: seq<Word>, rightArgs: seq<string>, rightValue: bool, row: Row)
    requires IsDisjunction(right, rightArgs, row, rightValue) && !OrOutside(left)
    ensures Evaluate(Both(left, right), leftArgs + rightArgs, row) == Some(true) ==> rightValue
  {
    hide ReadOr, ReadAnd, Level;
    var words, args := Both(left, right), leftArgs + rightArgs;
    if Evaluate(words, args, row) == Some(true) {
      DisjunctionIsBalanced(right, rightArgs, row, rightValue);
      var all, everything := OrAlone(words, args, row);
      assert all == words;
      LevelOfBoth(left, right);
      OnlyConjunction(left, right, args, row);
      BothIsLeftThenRight(left, right);
      LevelOfLeft(left);
      LastGroupDecides(LeftOf(left), leftArgs, right, rightArgs, rightValue, row, true);
    }
  }

  lemma DisjunctionIsBalanced(words: seq<Word>, args: seq<string>, row: Row, value: bool)
    requires IsDisjunction(words, args, row, value)
    ensures Balanced(words)
  {
    hide ReadOr, Level;
    var used, taken := OrAlone(words, args, row);
    assert used == words;
  }

  lemma LevelOfBoth(left: seq<Word>, right: seq<Word>)
    ensures Level(Both(left, right)) == Level(left) + Level(right)
  {
    BothIsLeftThenRight(left, right);
    LevelConcat(LeftOf(left), Bracketed(right));
    LevelOfLeft(left);
    LevelOfBracketed(right);
  }

  lemma OnlyConjunction(left: seq<Word>, right: seq<Word>, args: seq<string>, row: Row)
    requires IsDisjunction(Both(left, right), args, row, true)
    requires !OrOutside(left) && Balanced(right) && Level(left) == 0
    ensures IsConjunction(Both(left, right), args, row, true)
  {
    hide ReadAnd, Level, Both;
    var words := Both(left, right);
    var first := ReadAnd(words, args, row);
    var used, taken := AndAlone(words, args, row);
    if first.words != [] {
      assert first.words[0] == Or;
      assert words[|used|] == Or && words[..|used|] == used;
      NoOrAtTop(left, right, |used|);
    }
  }

  // ---------------------------------------------------------------------------
  // A left side whose brackets are never closed too early is read as such

  /** The first group of the joined selection is the left side. */
  lemma GroupIsLeftSide(left: seq<Word>, rest: seq<Word>, within: seq<Word>, behind: seq<Word>)
    requires StaysInside(left) && Level(left) == 0 && Balanced(within)
    requires left + ([Close] + rest) == within + behind && behind != [] && behind[0] == Close
    ensures within == left
  {
    hide Level;
    var words := left + ([Close] + rest);
    LevelOfOne(Close);
    if |within| < |left| {
      assert left[..|within| + 1] == within + [Close] by {
        CutAt(left, [Close] + rest, within, behind);
      }
      LevelConcat(within, [Close]);
    } else if |within| > |left| {
      assert within[..|left| + 1] == left + [Close] by {
        CutAt(within, behind, left, [Close] + rest);
      }
      LevelConcat(left, [Close]);
    }
    if |within| == |left| {
      assert words[..|left|] == left && words[..|within|] == within;
    }
  }

  lemma CutAt(long: seq<Word>, longRest: seq<Word>, short: seq<Word>, shortRest: seq<Word>)
    requires long + longRest == short + shortRest && |short| < |long| && shortRest != []
    ensures long[..|short| + 1] == short + [shortRest[0]]
  {
    assert long[..|short| + 1] == (long + longRest)[..|short| + 1];
    assert (short + shortRest)[..|short| + 1] == short + [shortRest[0]];
  }

  lemma LeftSideIsRead(left: seq<Word>, leftArgs: seq<string>, right: seq<Word>, rightArgs: seq<string>, rightValue: bool, row: Row)
    requires IsDisjunction(right, rightArgs, row, rightValue) && StaysInside(left)
    requires Evaluate(Both(left, right), leftArgs + rightArgs, row).Some?
    ensures Evaluate(left, leftArgs, row).Some?
  {
    hide ReadOr, ReadAnd, ReadFactor, Level, StaysInside, Balanced;
    var words, args := Both(left, right), leftArgs + rightArgs;
    DisjunctionIsBalanced(right, rightArgs, row, rightValue);
    var value := Evaluate(words, args, row).value;
    DisjunctionIsBalanced(words, args, row, value);
    BalancedLevel(words);
    BalancedLevel(right);
    LevelOfBoth(left, right);
    var rest := [And] + Bracketed(right);
    assert words[0] == Open && words[1..] == left + ([Close] + rest);
    FirstGroupIsRead(words, args, row);
    var inner := ReadOr(words[1..], args, row);
    var within, taken := OrAlone(words[1..], args, row);
    GroupIsLeftSide(left, rest, within, inner.words);
    LeftArguments(left, leftArgs, right, rightArgs, rightValue, row, taken, inner.args, inner.value, value);
  }

  lemma BalancedLevel(words: seq<Word>)
    requires Balanced(words)
    ensures Level(words) == 0
  {
  }

  lemma FirstGroupIsRead(words: seq<Word>, args: seq<string>, row: Row)
    requires ReadOr(words, args, row).Got? && words[0] == Open
    ensures var inner := ReadOr(words[1..], args, row);
      inner.Got? && inner.words != [] && inner.words[0] == Close
  {
    assert ReadAnd(words, args, row).Got? && ReadFactor(words, args, row).Got?;
  }

  lemma LeftArguments(left: seq<Word>, leftArgs: seq<string>, right: seq<Word>, rightArgs: seq<string>, rightValue: bool, row: Row,
                      taken: seq<string>, behind: seq<string>, value: bool, whole: bool)
    requires IsDisjunction(right, rightArgs, row, rightValue) && IsDisjunction(left, taken, row, value)
    requires IsDisjunction(Both(left, right), leftArgs + rightArgs, row, whole) && leftArgs + rightArgs == taken + behind
    ensures taken == leftArgs
  {
    hide ReadOr;
    DisjunctionPlaces(right, rightArgs, row, rightValue);
    DisjunctionPlaces(left, taken, row, value);
    DisjunctionPlaces(Both(left, right), leftArgs + rightArgs, row, whole);
    PlacesOfBoth(left, right);
    assert taken == (taken + behind)[..|taken|] && leftArgs == (leftArgs + rightArgs)[..|leftArgs|];
  }

  lemma PlacesOfBoth(left: seq<Word>, right: seq<Word>)
    ensures Places(Both(left, right)) == Places(left) + Places(right)
  {
    BothIsLeftThenRight(left, right);
    PlacesConcat(LeftOf(left), Bracketed(right));
    PlacesOfBracketed(left);
    PlacesOfBracketed(right);
    assert LeftOf(left) == Bracketed(left) + [And];
    PlacesConcat(Bracketed(left), [And]);
    assert [And][1..] == [];
  }

  /** If the left side never closes a bracket that it has not opened, the joined selection means both sides, and means
    nothing where the left side alone means nothing. */
  lemma BothSidesDecide(left: seq<Word>, leftArgs: seq<string>, right: seq<Word>, rightArgs: seq<string>, rightValue: bool, row: Row)
    requires IsDisjunction(right, rightArgs, row, rightValue) && StaysInside(left)
    ensures Evaluate(Both(left, right), leftArgs + rightArgs, row) ==
      match Evaluate(left, leftArgs, row) case None => None case Some(leftValue) => Some(leftValue && rightValue)
  {
    hide ReadOr, StaysInside, Both;
    if Evaluate(left, leftArgs, row).Some? {
      BothHold(left, leftArgs, Evaluate(left, leftArgs, row).value, right, rightArgs, rightValue, row);
    } else if Evaluate(Both(left, right), leftArgs + rightArgs, row).Some? {
      LeftSideIsRead(left, leftArgs, right, rightArgs, rightValue, row);
    }
  }

  // ---------------------------------------------------------------------------
  // And an OR outside makes the left side decide

  /** The words test nothing but what the caller names. */
  predicate CallersOnly(words: seq<Word>) {
    forall i :: 0 <= i < |words| ==> words[i].Atom? ==> words[i].test.CallerTest?
  }

  /** Every test of the caller holds. */
  function Agreeing(row: Row): Row {
    row.(caller := (id, args) => true)
  }

  lemma {:induction false} FactorOfCaller(words: seq<Word>, args: seq<string>, row: Row)
    requires CallersOnly(words) && ReadFactor(words, args, Agreeing(row)).Got?
    ensures ReadFactor(words, args, Agreeing(row)).value && CallersOnly(ReadFactor(words, args, Agreeing(row)).words)
    decreases |words|, 0
  {
    if words[0] == Open {
      OrOfCaller(words[1..], args, row);
    }
  }

  lemma {:induction false} AndOfCaller(words: seq<Word>, args: seq<string>, row: Row)
    requires CallersOnly(words) && ReadAnd(words, args, Agreeing(row)).Got?
    ensures ReadAnd(words, args, Agreeing(row)).value && CallersOnly(ReadAnd(words, args, Agreeing(row)).words)
    decreases |words|, 1
  {
    var left := ReadFactor(words, args, Agreeing(row));
    FactorOfCaller(words, args, row);
    if left.words != [] && left.words[0] == And {
      AndOfCaller(left.words[1..], left.args, row);
    }
  }

  lemma {:induction false} OrOfCaller(words: seq<Word>, args: seq<string>, row: Row)
    requires CallersOnly(words) && ReadOr(words, args, Agreeing(row)).Got?
    ensures ReadOr(words, args, Agreeing(row)).value && CallersOnly(ReadOr(words, args, Agreeing(row)).words)
    decreases |words|, 2
  {
    var left := ReadAnd(words, args, Agreeing(row));
    AndOfCaller(words, args, row);
    if left.words != [] && left.words[0] == Or {
      OrOfCaller(left.words[1..], left.args, row);
    }
  }

  lemma {:induction false} FactorReadsAlike(words: seq<Word>, args: seq<string>, row: Row, other: Row)
    ensures SameRead(ReadFactor(words, args, row), ReadFactor(words, args, other))
    decreases |words|, 0
  {
    if words != [] && words[0] == Open {
      OrReadsAlike(words[1..], args, row, other);
    }
  }

  /** The two are alike but for their values. */
  predicate SameRead(r: Read, other: Read) {
    if r.Stuck? then other.Stuck? else other.Got? && r == other.(value := r.value)
  }

  lemma {:induction false} AndReadsAlike(words: seq<Word>, args: seq<string>, row: Row, other: Row)
    ensures SameRead(ReadAnd(words, args, row), ReadAnd(words, args, other))
    decreases |words|, 1
  {
    var left := ReadFactor(words, args, row);
    FactorReadsAlike(words, args, row, other);
    if left.Got? && left.words != [] && left.words[0] == And {
      AndReadsAlike(left.words[1..], left.args, row, other);
    }
  }

  lemma {:induction false} OrReadsAlike(words: seq<Word>, args: seq<string>, row: Row, other: Row)
    ensures SameRead(ReadOr(words, args, row), ReadOr(words, args, other))
    decreases |words|, 2
  {
    var left := ReadAnd(words, args, row);
    AndReadsAlike(words, args, row, other);
    if left.Got? && left.words != [] && left.words[0] == Or {
      OrReadsAlike(left.words[1..], left.args, row, other);
    }
  }

  lemma FirstAlternative(left: seq<Word>, right: seq<Word>, used: seq<Word>, i: nat)
    requires OrBelow(left, i, 0) && Conjoined(used) && used <= Both(left, right) && Balanced(Both(left, right))
    ensures |used| <= i + 1 && used == ([Open] + left)[..|used|]
  {
    hide Level;
    var words := Both(left, right);
    assert words[..i + 1] == [Open] + left[..i] && words[i + 1] == Or;
    LevelOfOne(Open);
    LevelConcat([Open], left[..i]);
    assert Level(words[..i + 1]) <= 0;
    assert !OrBelow(used, i + 1, 1);
    if |used| >= i + 1 {
      FrontIsPrefix(words[..i + 1], words[i + 1..], used);
      assert words == words[..i + 1] + words[i + 1..];
    }
    assert used == words[..|used|];
  }

  /** With an OR of the left side outside its brackets, a joined selection that can be evaluated is true where the caller's
    tests hold, whatever the right side says. */
  lemma LeftSideEscapes(left: seq<Word>, right: seq<Word>, args: seq<string>, row: Row)
    requires CallersOnly(left) && OrOutside(left) && Evaluate(Both(left, right), args, row).Some?
    ensures Evaluate(Both(left, right), args, Agreeing(row)) == Some(true)
  {
    hide ReadOr, Level, Both;
    var words := Both(left, right);
    OrReadsAlike(words, args, row, Agreeing(row));
    assert Evaluate(words, args, Agreeing(row)).Some?;
    DisjunctionIsBalanced(words, args, Agreeing(row), Evaluate(words, args, Agreeing(row)).value);
    FirstAlternativeHolds(left, right, args, row);
  }

  lemma FirstAlternativeHolds(left: seq<Word>, right: seq<Word>, args: seq<string>, row: Row)
    requires CallersOnly(left) && OrOutside(left) && Balanced(Both(left, right))
    requires ReadOr(Both(left, right), args, Agreeing(row)).Got?
    ensures ReadOr(Both(left, right), args, Agreeing(row)).value
  {
    hide ReadAnd, Level, Both, Balanced, Conjoined;
    var words := Both(left, right);
    var i :| 0 <= i < |left| && OrBelow(left, i, 0);
    var used, taken := AndAlone(words, args, Agreeing(row));
    FirstAlternative(left, right, used, i);
    AndOfCaller(used, taken, row);
  }
}
