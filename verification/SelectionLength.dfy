/** The buffers of the selection are never too small for the rules (native/folder_manager.cpp, lines 824-1003, and
  native/rule_config.h, lines 8-13). */
module SelectionLength {
  import opened Options
  import opened PathKindCache
  import opened SelectionSyntax
  import opened MediaSelection

  /** The characters a word of the rules is written with, the blanks around AND and OR included. */
  function Width(word: Word): nat {
    match word
    case Open => 1
    case Close => 1
    case And => |" AND "|
    case Or => |" OR "|
    case Atom(Never) => |"0 = 1"|
    case Atom(CallerTest(_, _)) => 0
    case Atom(ColumnTest(column, op)) =>
      (if column == DataColumn then |"_data"| else |"relative_path"|) +
      match op
      case Equal => |" = ?"|
      case NotEqual => |" != ?"|
      case Like => |" LIKE ?"|
      case NotLike => |" NOT LIKE ?"|
  }

  function TextLength(words: seq<Word>): nat {
    if words == [] then 0 else Width(words[0]) + TextLength(words[1..])
  }

  lemma {:induction false} LengthConcat(left: seq<Word>, right: seq<Word>)
    ensures TextLength(left + right) == TextLength(left) + TextLength(right)
  {
    if left == [] {
      assert left + right == right;
    } else {
      assert (left + right)[1..] == left[1..] + right;
      LengthConcat(left[1..], right);
    }
  }

  lemma LengthOfOne(word: Word)
    ensures TextLength([word]) == Width(word)
  {
    assert [word][1..] == [];
  }

  lemma ClauseIsShort(path: string, kind: PathKind, positive: bool)
    ensures TextLength(Clause(path, kind, positive).words) <= if positive then 38 else 47
    ensures |Clause(path, kind, positive).args| <= 2
  {
    hide TextLength, DataPattern, RelativePattern, Width;
    var op := OperatorFor(kind == File, positive);
    var data, relative := DataPattern(path, kind == File), RelativePattern(path, kind == File);
    var first := if data.Some? then [Atom(ColumnTest(DataColumn, op))] else [];
    var between := if data.Some? && relative.Some? then [if positive then Or else And] else [];
    var second := if relative.Some? then [Atom(ColumnTest(RelativePathColumn, op))] else [];
    Pieces(first, between, second);
    AtMostOne(first);
    AtMostOne(between);
    AtMostOne(second);
    Widths(op, positive, kind == File);
  }

  lemma Pieces(a: seq<Word>, b: seq<Word>, c: seq<Word>)
    ensures TextLength([Open] + (a + b + c) + [Close]) == 2 + TextLength(a) + TextLength(b) + TextLength(c)
  {
    LengthConcat([Open] + (a + b + c), [Close]);
    LengthConcat([Open], a + b + c);
    LengthConcat(a + b, c);
    LengthConcat(a, b);
    LengthOfOne(Open);
    LengthOfOne(Close);
  }

  lemma AtMostOne(words: seq<Word>)
    requires |words| <= 1
    ensures TextLength(words) == if words == [] then 0 else Width(words[0])
  {
  }

  lemma Widths(op: Operator, positive: bool, exact: bool)
    requires op == OperatorFor(exact, positive)
    ensures Width(Atom(ColumnTest(DataColumn, op))) <= if positive then 12 else 16
    ensures Width(Atom(ColumnTest(RelativePathColumn, op))) <= if positive then 20 else 24
    ensures Width(if positive then Or else And) == if positive then 4 else 5
  {
  }

  lemma {:induction false} ChainIsShort(items: seq<Item>, positive: bool)
    ensures TextLength(Chain(items, positive).words) <= (if positive then 42 else 52) * |items|
    ensures |Chain(items, positive).args| <= 2 * |items|
  {
    if items != [] {
      hide TextLength, Clause, Width;
      var init, last := items[..|items| - 1], items[|items| - 1];
      ChainIsShort(init, positive);
      ClauseIsShort(last.path, last.kind, positive);
      var joint: seq<Word> := if |items| == 1 then [] else [if positive then Or else And];
      AtMostOne(joint);
      Widths(OperatorFor(true, positive), positive, true);
      var chain, clause := Chain(init, positive), Clause(last.path, last.kind, positive);
      LengthConcat(chain.words + joint, clause.words);
      LengthConcat(chain.words, joint);
    }
  }

  lemma {:induction false} ItemsAreRules(media: seq<MediaRule>)
    ensures |BlockItems(media)| + |AllowItems(media)| == |media|
  {
    if media != [] {
      ItemsAreRules(media[..|media| - 1]);
    }
  }

  lemma {:induction false} ItemsAreFolders(folders: seq<MediaFolder>)
    ensures |FolderItems(folders)| == |folders|
  {
    if folders != [] {
      ItemsAreFolders(folders[..|folders| - 1]);
    }
  }

  /** For all that a rule set can hold, both selections, their arguments and their conjunction fit into their buffers. */
  lemma BuffersSuffice(media: seq<MediaRule>, folders: seq<MediaFolder>)
    requires |media| <= 128 && |folders| <= 64
    ensures var allow, deny := Chain(AllowItems(media) + FolderItems(folders), true), Chain(BlockItems(media), false);
      && TextLength(allow.words) < 8192 && |allow.args| <= 4 * (128 + 64)
      && TextLength(deny.words) < 8192 && |deny.args| <= 4 * 128
      && TextLength(Both(allow.words, deny.words)) < 12288
  {
    hide Chain, TextLength, Width;
    ItemsAreRules(media);
    ItemsAreFolders(folders);
    var allow, deny := Chain(AllowItems(media) + FolderItems(folders), true), Chain(BlockItems(media), false);
    ChainIsShort(AllowItems(media) + FolderItems(folders), true);
    ChainIsShort(BlockItems(media), false);
    LengthOfBoth(allow.words, deny.words);
  }

  lemma LengthOfBoth(left: seq<Word>, right: seq<Word>)
    ensures TextLength(Both(left, right)) == TextLength(left) + TextLength(right) + |"() AND ()"|
  {
    LengthConcat([Open] + left + [Close] + [And], [Open] + right + [Close]);
    LengthConcat([Open] + left + [Close], [And]);
    LengthConcat([Open] + left, [Close]);
    LengthConcat([Open], left);
    LengthConcat([Open] + right, [Close]);
    LengthConcat([Open], right);
    LengthOfOne(Open);
    LengthOfOne(Close);
    LengthOfOne(And);
  }
}
