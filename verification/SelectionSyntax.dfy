/** Just enough of SQL to say what a media selection means: tests with positional arguments, AND, OR and parentheses.

  The selection is a sequence of words rather than characters, and its logic is two-valued.
*/
module SelectionSyntax {
  import opened Options

  datatype Column = DataColumn | RelativePathColumn
  datatype Operator = Equal | NotEqual | Like | NotLike

  /** A test of our own takes one argument, a test of the caller any number; `0 = 1` takes none. */
  datatype Test =
    | ColumnTest(column: Column, op: Operator)
    | CallerTest(id: nat, holes: nat)
    | Never

  datatype Word = Open | Close | And | Or | Atom(test: Test)

  /** One row of the media store, and what LIKE and the caller's tests say about it. */
  datatype Row = Row(
    data: string,
    relativePath: string,
    like: (string, string) -> bool,
    caller: (nat, seq<string>) -> bool
  )

  function Holes(test: Test): nat {
    match test
    case ColumnTest(_, _) => 1
    case CallerTest(_, holes) => holes
    case Never => 0
  }

  predicate TestHolds(test: Test, args: seq<string>, row: Row)
    requires |args| == Holes(test)
  {
    match test
    case Never => false
    case CallerTest(id, _) => row.caller(id, args)
    case ColumnTest(column, op) =>
      var value := if column == DataColumn then row.data else row.relativePath;
      match op
      case Equal => value == args[0]
      case NotEqual => value != args[0]
      case Like => row.like(value, args[0])
      case NotLike => !row.like(value, args[0])
  }

  /** What a piece of the selection comes to, and the words and arguments that are left. */
  datatype Read = Stuck | Got(value: bool, words: seq<Word>, args: seq<string>)

  function ReadFactor(words: seq<Word>, args: seq<string>, row: Row): (r: Read)
    ensures r.Got? ==> |r.words| < |words|
    decreases |words|, 0
  {
    if words == [] then Stuck
    else
      match words[0]
      case Open =>
        var inner := ReadOr(words[1..], args, row);
        if inner.Got? && inner.words != [] && inner.words[0] == Close
        then Got(inner.value, inner.words[1..], inner.args)
        else Stuck
      case Atom(test) =>
        if |args| < Holes(test) then Stuck
        else Got(TestHolds(test, args[..Holes(test)], row), words[1..], args[Holes(test)..])
      case _ => Stuck
  }

  function ReadAnd(words: seq<Word>, args: seq<string>, row: Row): (r: Read)
    ensures r.Got? ==> |r.words| < |words|
    decreases |words|, 1
  {
    var left := ReadFactor(words, args, row);
    if left.Got? && left.words != [] && left.words[0] == And then
      var right := ReadAnd(left.words[1..], left.args, row);
      if right.Got? then Got(left.value && right.value, right.words, right.args) else Stuck
    else left
  }

  function ReadOr(words: seq<Word>, args: seq<string>, row: Row): (r: Read)
    ensures r.Got? ==> |r.words| < |words|
    decreases |words|, 2
  {
    var left := ReadAnd(words, args, row);
    if left.Got? && left.words != [] && left.words[0] == Or then
      var right := ReadOr(left.words[1..], left.args, row);
      if right.Got? then Got(left.value || right.value, right.words, right.args) else Stuck
    else left
  }

  /** A selection with exactly the arguments it needs, each bound to its own place. */
  function Evaluate(words: seq<Word>, args: seq<string>, row: Row): Option<bool> {
    var r := ReadOr(words, args, row);
    if r.Got? && r.words == [] && r.args == [] then Some(r.value) else None
  }

  /** The selection is one parenthesised group or one test, or a chain of those joined by AND. */
  predicate IsFactor(words: seq<Word>, args: seq<string>, row: Row, value: bool) {
    ReadFactor(words, args, row) == Got(value, [], [])
  }

  predicate IsConjunction(words: seq<Word>, args: seq<string>, row: Row, value: bool) {
    ReadAnd(words, args, row) == Got(value, [], [])
  }

  predicate IsDisjunction(words: seq<Word>, args: seq<string>, row: Row, value: bool) {
    ReadOr(words, args, row) == Got(value, [], [])
  }

  // ---------------------------------------------------------------------------
  // Reading on when more words and arguments follow

  function Followed(r: Read, words: seq<Word>, args: seq<string>): Read {
    if r.Stuck? then Stuck else Got(r.value, r.words + words, r.args + args)
  }

  predicate DoesNotStartWith(words: seq<Word>, word: Word) {
    words == [] || words[0] != word
  }

  lemma {:induction false} FactorFollowed(words: seq<Word>, args: seq<string>, row: Row, more: seq<Word>, moreArgs: seq<string>)
    requires ReadFactor(words, args, row).Got?
    ensures ReadFactor(words + more, args + moreArgs, row) == Followed(ReadFactor(words, args, row), more, moreArgs)
    decreases |words|, 0
  {
    assert (words + more)[1..] == words[1..] + more;
    match words[0] {
      case Open =>
        var inner := ReadOr(words[1..], args, row);
        OrFollowed(words[1..], args, row, more, moreArgs);
        assert (inner.words + more)[1..] == inner.words[1..] + more;
      case Atom(test) =>
        var n := Holes(test);
        assert (args + moreArgs)[..n] == args[..n] && (args + moreArgs)[n..] == args[n..] + moreArgs;
      case _ =>
    }
  }

  lemma {:induction false} AndFollowed(words: seq<Word>, args: seq<string>, row: Row, more: seq<Word>, moreArgs: seq<string>)
    requires ReadAnd(words, args, row).Got?
    requires ReadAnd(words, args, row).words == [] ==> DoesNotStartWith(more, And)
    ensures ReadAnd(words + more, args + moreArgs, row) == Followed(ReadAnd(words, args, row), more, moreArgs)
    decreases |words|, 1
  {
    var left := ReadFactor(words, args, row);
    FactorFollowed(words, args, row, more, moreArgs);
    if left.words != [] && left.words[0] == And {
      AndFollowed(left.words[1..], left.args, row, more, moreArgs);
      assert (left.words + more)[1..] == left.words[1..] + more;
    }
  }

  lemma {:induction false} OrFollowed(words: seq<Word>, args: seq<string>, row: Row, more: seq<Word>, moreArgs: seq<string>)
    requires ReadOr(words, args, row).Got?
    requires ReadOr(words, args, row).words == [] ==> DoesNotStartWith(more, And) && DoesNotStartWith(more, Or)
    ensures ReadOr(words + more, args + moreArgs, row) == Followed(ReadOr(words, args, row), more, moreArgs)
    decreases |words|, 2
  {
    var left := ReadAnd(words, args, row);
    AndFollowed(words, args, row, more, moreArgs);
    if left.words != [] && left.words[0] == Or {
      OrFollowed(left.words[1..], left.args, row, more, moreArgs);
      assert (left.words + more)[1..] == left.words[1..] + more;
    }
  }

  // ---------------------------------------------------------------------------
  // Putting selections together

  lemma FactorIsConjunction(words: seq<Word>, args: seq<string>, row: Row, value: bool)
    requires IsFactor(words, args, row, value)
    ensures IsConjunction(words, args, row, value)
  {
  }

  lemma ConjunctionIsDisjunction(words: seq<Word>, args: seq<string>, row: Row, value: bool)
    requires IsConjunction(words, args, row, value)
    ensures IsDisjunction(words, args, row, value)
  {
  }

  lemma Parenthesized(words: seq<Word>, args: seq<string>, row: Row, value: bool)
    requires IsDisjunction(words, args, row, value)
    ensures IsFactor([Open] + words + [Close], args, row, value)
  {
    OrFollowed(words, args, row, [Close], []);
    var group := [Open] + words + [Close];
    assert group[1..] == words + [Close];
    assert args + [] == args;
    var none: seq<Word> := [];
    assert none + [Close] == [Close] && [Close][1..] == [];
  }

  lemma AndCons(words: seq<Word>, args: seq<string>, row: Row, first: Read, rest: seq<Word>, value: bool)
    requires first.Got? && ReadFactor(words, args, row) == first && first.words == [And] + rest
    requires IsConjunction(rest, first.args, row, value)
    ensures IsConjunction(words, args, row, first.value && value)
  {
    assert first.words[1..] == rest;
  }

  lemma {:induction false} AndAppend(left: seq<Word>, leftArgs: seq<string>, leftValue: bool,
                                     right: seq<Word>, rightArgs: seq<string>, rightValue: bool, row: Row)
    requires IsConjunction(left, leftArgs, row, leftValue) && IsFactor(right, rightArgs, row, rightValue)
    ensures IsConjunction(left + [And] + right, leftArgs + rightArgs, row, leftValue && rightValue)
    decreases |left|
  {
    hide ReadFactor;
    var more := [And] + right;
    assert left + [And] + right == left + more;
    var first := ReadFactor(left, leftArgs, row);
    FactorFollowed(left, leftArgs, row, more, rightArgs);
    var followed := Followed(first, more, rightArgs);
    if first.words == [] {
      assert followed.words == [And] + right && followed.args == rightArgs;
      FactorIsConjunction(right, rightArgs, row, rightValue);
      AndCons(left + more, leftArgs + rightArgs, row, followed, right, rightValue);
    } else {
      var rest := first.words[1..];
      var restValue := ReadAnd(rest, first.args, row).value;
      AndAppend(rest, first.args, restValue, right, rightArgs, rightValue, row);
      assert followed.words == [And] + (rest + [And] + right);
      AndCons(left + more, leftArgs + rightArgs, row, followed, rest + [And] + right, restValue && rightValue);
    }
  }

  lemma OrCons(words: seq<Word>, args: seq<string>, row: Row, first: Read, rest: seq<Word>, value: bool)
    requires first.Got? && ReadAnd(words, args, row) == first && first.words == [Or] + rest
    requires IsDisjunction(rest, first.args, row, value)
    ensures IsDisjunction(words, args, row, first.value || value)
  {
    assert first.words[1..] == rest;
  }

  lemma {:induction false} OrAppend(left: seq<Word>, leftArgs: seq<string>, leftValue: bool,
                                    right: seq<Word>, rightArgs: seq<string>, rightValue: bool, row: Row)
    requires IsDisjunction(left, leftArgs, row, leftValue) && IsConjunction(right, rightArgs, row, rightValue)
    ensures IsDisjunction(left + [Or] + right, leftArgs + rightArgs, row, leftValue || rightValue)
    decreases |left|
  {
    hide ReadAnd;
    var more := [Or] + right;
    assert left + [Or] + right == left + more;
    var first := ReadAnd(left, leftArgs, row);
    AndFollowed(left, leftArgs, row, more, rightArgs);
    var followed := Followed(first, more, rightArgs);
    if first.words == [] {
      assert followed.words == [Or] + right && followed.args == rightArgs;
      ConjunctionIsDisjunction(right, rightArgs, row, rightValue);
      OrCons(left + more, leftArgs + rightArgs, row, followed, right, rightValue);
    } else {
      var rest := first.words[1..];
      var restValue := ReadOr(rest, first.args, row).value;
      OrAppend(rest, first.args, restValue, right, rightArgs, rightValue, row);
      assert followed.words == [Or] + (rest + [Or] + right);
      OrCons(left + more, leftArgs + rightArgs, row, followed, rest + [Or] + right, restValue || rightValue);
    }
  }

  /** `(left) AND (right)` */
  function Both(left: seq<Word>, right: seq<Word>): seq<Word> {
    [Open] + left + [Close] + [And] + ([Open] + right + [Close])
  }

  lemma BothHold(left: seq<Word>, leftArgs: seq<string>, leftValue: bool,
                 right: seq<Word>, rightArgs: seq<string>, rightValue: bool, row: Row)
    requires IsDisjunction(left, leftArgs, row, leftValue) && IsDisjunction(right, rightArgs, row, rightValue)
    ensures IsDisjunction(Both(left, right), leftArgs + rightArgs, row, leftValue && rightValue)
  {
    Parenthesized(left, leftArgs, row, leftValue);
    Parenthesized(right, rightArgs, row, rightValue);
    FactorIsConjunction([Open] + left + [Close], leftArgs, row, leftValue);
    AndAppend([Open] + left + [Close], leftArgs, leftValue, [Open] + right + [Close], rightArgs, rightValue, row);
    ConjunctionIsDisjunction(Both(left, right), leftArgs + rightArgs, row, leftValue && rightValue);
  }

  lemma OneTest(test: Test, args: seq<string>, row: Row)
    requires |args| == Holes(test)
    ensures IsFactor([Atom(test)], args, row, TestHolds(test, args, row))
  {
    assert args[..|args|] == args && [Atom(test)][1..] == [];
  }

  // ---------------------------------------------------------------------------
  // Arguments and places

  function Places(words: seq<Word>): nat {
    if words == [] then 0
    else (if words[0].Atom? then Holes(words[0].test) else 0) + Places(words[1..])
  }

  lemma {:induction false} FactorTakesItsArgs(words: seq<Word>, args: seq<string>, row: Row)
    ensures var r := ReadFactor(words, args, row); r.Got? ==> |args| + Places(r.words) == |r.args| + Places(words)
    decreases |words|, 0
  {
    if words != [] && words[0] == Open {
      OrTakesItsArgs(words[1..], args, row);
    }
  }

  lemma {:induction false} AndTakesItsArgs(words: seq<Word>, args: seq<string>, row: Row)
    ensures var r := ReadAnd(words, args, row); r.Got? ==> |args| + Places(r.words) == |r.args| + Places(words)
    decreases |words|, 1
  {
    var left := ReadFactor(words, args, row);
    FactorTakesItsArgs(words, args, row);
    if left.Got? && left.words != [] && left.words[0] == And {
      AndTakesItsArgs(left.words[1..], left.args, row);
    }
  }

  lemma {:induction false} OrTakesItsArgs(words: seq<Word>, args: seq<string>, row: Row)
    ensures var r := ReadOr(words, args, row); r.Got? ==> |args| + Places(r.words) == |r.args| + Places(words)
    decreases |words|, 2
  {
    var left := ReadAnd(words, args, row);
    AndTakesItsArgs(words, args, row);
    if left.Got? && left.words != [] && left.words[0] == Or {
      OrTakesItsArgs(left.words[1..], left.args, row);
    }
  }

  /** A selection means something only with as many arguments as it has places. */
  lemma ArgsMatchPlaces(words: seq<Word>, args: seq<string>, row: Row)
    ensures Evaluate(words, args, row).Some? ==> |args| == Places(words)
  {
    OrTakesItsArgs(words, args, row);
  }
}
