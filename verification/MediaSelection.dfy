/** The selection added to a media query (native/folder_manager.cpp, lines 775-932 and 956-1053). */
module MediaSelection {
  import opened Options
  import opened PathMapper
  import opened PathKindCache
  import opened ParsedRules
  import opened SelectionSyntax
  import opened SelectionNesting

  datatype RuleType = AllowRule | BlockRule | RedirectRule | RedirectDynamicRule

  datatype MediaRule = MediaRule(kind: RuleType, targetPath: string, pathKind: PathKind)
  datatype MediaFolder = MediaFolder(path: string, pathKind: PathKind)

  /** The words of a selection and the arguments its tests are bound to, in order. */
  datatype Selection = Selection(words: seq<Word>, args: seq<string>)

  const EMPTY := Selection([], [])

  function Pattern(path: Option<string>, exact: bool): Option<string> {
    match path
    case None => None
    case Some(p) => Some(CutToFit(if exact then p else p + "/%"))
  }

  /** What snprintf leaves of a text in a buffer for a path. */
  function CutToFit(text: string): string {
    if |text| < MAX_PATH then text else text[..MAX_PATH - 1]
  }

  function DataPattern(path: string, exact: bool): Option<string> {
    Pattern(Normalized(path, MAX_PATH), exact)
  }

  function RelativePattern(path: string, exact: bool): Option<string> {
    Pattern(RelativeExternal(path, MAX_PATH), exact)
  }

  function OperatorFor(exact: bool, positive: bool): Operator {
    if positive then (if exact then Equal else Like) else (if exact then NotEqual else NotLike)
  }

  predicate Usable(path: string) {
    Normalized(path, MAX_PATH).Some?
  }

  /** Whether a row is at or below the path, as far as the two columns of the media store tell. */
  predicate Covers(path: string, kind: PathKind, row: Row) {
    var exact := kind == File;
    var data, relative := DataPattern(path, exact), RelativePattern(path, exact);
    || (data.Some? && (if exact then row.data == data.value else row.like(row.data, data.value)))
    || (relative.Some? && (if exact then row.relativePath == relative.value else row.like(row.relativePath, relative.value)))
  }

  function Clause(path: string, kind: PathKind, positive: bool): Selection {
    var exact := kind == File;
    var op := OperatorFor(exact, positive);
    var data, relative := DataPattern(path, exact), RelativePattern(path, exact);
    var dataPart := if data.Some? then [Atom(ColumnTest(DataColumn, op))] else [];
    var between := if data.Some? && relative.Some? then [if positive then Or else And] else [];
    var relativePart := if relative.Some? then [Atom(ColumnTest(RelativePathColumn, op))] else [];
    Selection([Open] + (dataPart + between + relativePart) + [Close],
              (if data.Some? then [data.value] else []) + (if relative.Some? then [relative.value] else []))
  }

  method AppendMediaPathClause(selection: Selection, path: string, kind: PathKind, positive: bool)
    returns (ok: bool, more: Selection)
    ensures ok <==> Usable(path)
    ensures ok ==> more == Selection(selection.words + Clause(path, kind, positive).words,
                                     selection.args + Clause(path, kind, positive).args)
  {
    var exact := kind == File;
    var relative := RelativePattern(path, exact);
    var data := DataPattern(path, exact);
    if relative.None? && data.None? {
      return false, selection;
    }
    var words, args := selection.words + [Open], selection.args;
    var hasPart := false;
    if data.Some? {
      words := words + [Atom(ColumnTest(DataColumn, OperatorFor(exact, positive)))];
      args := args + [data.value];
      hasPart := true;
    }
    if relative.Some? {
      if hasPart {
        words := words + [if positive then Or else And];
      }
      words := words + [Atom(ColumnTest(RelativePathColumn, OperatorFor(exact, positive)))];
      args := args + [relative.value];
    }
    words := words + [Close];
    assert words == selection.words + Clause(path, kind, positive).words;
    return true, Selection(words, args);
  }

  /** A negative clause says the opposite of the positive clause for the same path. */
  lemma ClauseMeaning(path: string, kind: PathKind, positive: bool, row: Row)
    requires Usable(path)
    ensures var clause := Clause(path, kind, positive);
      IsFactor(clause.words, clause.args, row, if positive then Covers(path, kind, row) else !Covers(path, kind, row))
  {
    var exact := kind == File;
    var op := OperatorFor(exact, positive);
    var data, relative := DataPattern(path, exact).value, RelativePattern(path, exact);
    var dataTest, relativeTest := ColumnTest(DataColumn, op), ColumnTest(RelativePathColumn, op);
    var dataHolds := TestHolds(dataTest, [data], row);
    OneTest(dataTest, [data], row);
    FactorIsConjunction([Atom(dataTest)], [data], row, dataHolds);
    if relative.None? {
      ConjunctionIsDisjunction([Atom(dataTest)], [data], row, dataHolds);
      Parenthesized([Atom(dataTest)], [data], row, dataHolds);
      assert [Atom(dataTest)] + [] + [] == [Atom(dataTest)] && [data] + [] == [data];
    } else {
      var relativeHolds := TestHolds(relativeTest, [relative.value], row);
      OneTest(relativeTest, [relative.value], row);
      TwoTests(dataTest, data, dataHolds, relativeTest, relative.value, relativeHolds, positive, row);
    }
  }

  lemma TwoTests(a: Test, arg: string, holds: bool, b: Test, otherArg: string, otherHolds: bool, positive: bool, row: Row)
    requires IsFactor([Atom(a)], [arg], row, holds) && IsFactor([Atom(b)], [otherArg], row, otherHolds)
    ensures IsFactor([Open] + ([Atom(a)] + [if positive then Or else And] + [Atom(b)]) + [Close], [arg] + [otherArg], row,
                     if positive then holds || otherHolds else holds && otherHolds)
  {
    var words := [Atom(a)] + [if positive then Or else And] + [Atom(b)];
    FactorIsConjunction([Atom(a)], [arg], row, holds);
    FactorIsConjunction([Atom(b)], [otherArg], row, otherHolds);
    if positive {
      ConjunctionIsDisjunction([Atom(a)], [arg], row, holds);
      OrAppend([Atom(a)], [arg], holds, [Atom(b)], [otherArg], otherHolds, row);
      Parenthesized(words, [arg] + [otherArg], row, holds || otherHolds);
    } else {
      AndAppend([Atom(a)], [arg], holds, [Atom(b)], [otherArg], otherHolds, row);
      ConjunctionIsDisjunction(words, [arg] + [otherArg], row, holds && otherHolds);
      Parenthesized(words, [arg] + [otherArg], row, holds && otherHolds);
    }
  }

  // ---------------------------------------------------------------------------
  // The two builders

  datatype Item = Item(path: string, kind: PathKind)

  function BlockItems(rules: seq<MediaRule>): seq<Item> {
    if rules == [] then []
    else
      var last := rules[|rules| - 1];
      BlockItems(rules[..|rules| - 1]) + (if last.kind == BlockRule then [Item(last.targetPath, last.pathKind)] else [])
  }

  function AllowItems(rules: seq<MediaRule>): seq<Item> {
    if rules == [] then []
    else
      var last := rules[|rules| - 1];
      AllowItems(rules[..|rules| - 1]) + (if last.kind != BlockRule then [Item(last.targetPath, last.pathKind)] else [])
  }

  function FolderItems(folders: seq<MediaFolder>): seq<Item> {
    if folders == [] then []
    else
      var last := folders[|folders| - 1];
      FolderItems(folders[..|folders| - 1]) + [Item(last.path, last.pathKind)]
  }

  predicate AllUsable(items: seq<Item>) {
    forall i :: 0 <= i < |items| ==> Usable(items[i].path)
  }

  predicate CoveredByAny(items: seq<Item>, row: Row) {
    exists i :: 0 <= i < |items| && Covers(items[i].path, items[i].kind, row)
  }

  /** The clauses of the items, joined by OR when positive and by AND when negative. */
  function Chain(items: seq<Item>, positive: bool): Selection {
    if items == [] then EMPTY
    else
      var init, last := Chain(items[..|items| - 1], positive), items[|items| - 1];
      var clause := Clause(last.path, last.kind, positive);
      var joint := if |items| == 1 then [] else [if positive then Or else And];
      Selection(init.words + joint + clause.words, init.args + clause.args)
  }

  lemma ChainNext(items: seq<Item>, item: Item, positive: bool)
    ensures Chain(items + [item], positive) ==
      var clause := Clause(item.path, item.kind, positive);
      var joint := if items == [] then [] else [if positive then Or else And];
      Selection(Chain(items, positive).words + joint + clause.words, Chain(items, positive).args + clause.args)
    ensures AllUsable(items + [item]) <==> AllUsable(items) && Usable(item.path)
  {
    assert (items + [item])[..|items|] == items;
    assert AllUsable(items + [item]) ==> (items + [item])[|items|] == item;
    assert forall i :: 0 <= i < |items| ==> (items + [item])[i] == items[i];
  }

  lemma ChainIsEmpty(items: seq<Item>, positive: bool)
    ensures Chain(items, positive).words == [] <==> items == []
  {
  }

  /** Adds the clause of one item, with the word that joins it to what is there. */
  method AppendItem(selection: Selection, item: Item, positive: bool, ghost items: seq<Item>) returns (ok: bool, more: Selection)
    requires selection == Chain(items, positive) && AllUsable(items)
    ensures ok <==> AllUsable(items + [item])
    ensures ok ==> more == Chain(items + [item], positive)
  {
    ChainNext(items, item, positive);
    ChainIsEmpty(items, positive);
    var joined := selection;
    if selection.words != [] {
      joined := selection.(words := selection.words + [if positive then Or else And]);
    }
    ok, more := AppendMediaPathClause(joined, item.path, item.kind, positive);
    assert selection.words + [] == selection.words;
  }

  function Built(items: seq<Item>, positive: bool): Option<Selection> {
    if items != [] && AllUsable(items) then Some(Chain(items, positive)) else None
  }

  method BuildMediaNegativeSelection(rules: seq<MediaRule>) returns (selection: Option<Selection>)
    ensures selection == Built(BlockItems(rules), false)
  {
    var built := EMPTY;
    var index := 0;
    while index < |rules|
      invariant 0 <= index <= |rules|
      invariant AllUsable(BlockItems(rules[..index]))
      invariant built == Chain(BlockItems(rules[..index]), false)
    {
      var rule := rules[index];
      NextRule(rules, index);
      index := index + 1;
      if rule.kind != BlockRule {
        continue;
      }
      var ok;
      ok, built := AppendItem(built, Item(rule.targetPath, rule.pathKind), false, BlockItems(rules[..index - 1]));
      if !ok {
        BlockItemsGrow(rules, index);
        UnusableStays(BlockItems(rules[..index]), BlockItems(rules));
        return None;
      }
    }
    assert rules[..index] == rules;
    ChainIsEmpty(BlockItems(rules), false);
    return if built.words != [] then Some(built) else None;
  }

  lemma NextRule(rules: seq<MediaRule>, i: nat)
    requires i < |rules|
    ensures var rule := rules[i];
            var item := Item(rule.targetPath, rule.pathKind);
      if rule.kind == BlockRule then
        BlockItems(rules[..i + 1]) == BlockItems(rules[..i]) + [item] && AllowItems(rules[..i + 1]) == AllowItems(rules[..i])
      else
        AllowItems(rules[..i + 1]) == AllowItems(rules[..i]) + [item] && BlockItems(rules[..i + 1]) == BlockItems(rules[..i])
  {
    assert rules[..i + 1][..i] == rules[..i];
  }

  lemma UnusableStays(some: seq<Item>, all: seq<Item>)
    ensures some <= all && !AllUsable(some) ==> !AllUsable(all)
  {
    if some <= all && !AllUsable(some) {
      var i :| 0 <= i < |some| && !Usable(some[i].path);
      assert all[i] == some[i];
    }
  }

  lemma {:induction false} BlockItemsGrow(rules: seq<MediaRule>, n: nat)
    requires n <= |rules|
    ensures BlockItems(rules[..n]) <= BlockItems(rules)
    decreases |rules|
  {
    if n == |rules| {
      assert rules[..n] == rules;
    } else {
      BlockItemsGrow(rules[..|rules| - 1], n);
      assert rules[..|rules| - 1][..n] == rules[..n];
    }
  }

  lemma {:induction false} AllowItemsGrow(rules: seq<MediaRule>, n: nat)
    requires n <= |rules|
    ensures AllowItems(rules[..n]) <= AllowItems(rules)
    decreases |rules|
  {
    if n == |rules| {
      assert rules[..n] == rules;
    } else {
      AllowItemsGrow(rules[..|rules| - 1], n);
      assert rules[..|rules| - 1][..n] == rules[..n];
    }
  }

  lemma {:induction false} FolderItemsGrow(folders: seq<MediaFolder>, n: nat)
    requires n <= |folders|
    ensures FolderItems(folders[..n]) <= FolderItems(folders)
    decreases |folders|
  {
    if n == |folders| {
      assert folders[..n] == folders;
    } else {
      FolderItemsGrow(folders[..|folders| - 1], n);
      assert folders[..|folders| - 1][..n] == folders[..n];
    }
  }

  method BuildMediaPositiveSelection(rules: seq<MediaRule>, folders: seq<MediaFolder>) returns (selection: Option<Selection>)
    ensures selection == Built(AllowItems(rules) + FolderItems(folders), true)
  {
    hide Chain, AllUsable;
    var ok, built := AppendRules(rules);
    var all := AllowItems(rules) + FolderItems(folders);
    if !ok {
      UnusableStays(AllowItems(rules), all);
      return None;
    }
    var index := 0;
    assert AllowItems(rules) + FolderItems(folders[..0]) == AllowItems(rules);
    while index < |folders|
      invariant 0 <= index <= |folders|
      invariant AllUsable(AllowItems(rules) + FolderItems(folders[..index]))
      invariant built == Chain(AllowItems(rules) + FolderItems(folders[..index]), true)
    {
      var item := Item(folders[index].path, folders[index].pathKind);
      ghost var before := AllowItems(rules) + FolderItems(folders[..index]);
      assert folders[..index + 1][..index] == folders[..index];
      ok, built := AppendItem(built, item, true, before);
      index := index + 1;
      assert AllowItems(rules) + FolderItems(folders[..index]) == before + [item];
      if !ok {
        FolderItemsGrow(folders, index);
        UnusableStays(AllowItems(rules) + FolderItems(folders[..index]), all);
        return None;
      }
    }
    assert folders[..index] == folders;
    ChainIsEmpty(all, true);
    return if built.words != [] then Some(built) else None;
  }

  method AppendRules(rules: seq<MediaRule>) returns (ok: bool, built: Selection)
    ensures ok <==> AllUsable(AllowItems(rules))
    ensures ok ==> built == Chain(AllowItems(rules), true)
  {
    built := EMPTY;
    var index := 0;
    while index < |rules|
      invariant 0 <= index <= |rules|
      invariant AllUsable(AllowItems(rules[..index]))
      invariant built == Chain(AllowItems(rules[..index]), true)
    {
      var rule := rules[index];
      NextRule(rules, index);
      index := index + 1;
      if rule.kind == BlockRule {
        continue;
      }
      ok, built := AppendItem(built, Item(rule.targetPath, rule.pathKind), true, AllowItems(rules[..index - 1]));
      if !ok {
        AllowItemsGrow(rules, index);
        UnusableStays(AllowItems(rules[..index]), AllowItems(rules));
        return;
      }
    }
    assert rules[..index] == rules;
    ok := true;
  }

  // ---------------------------------------------------------------------------
  // What the selections mean

  lemma CoveredByNext(items: seq<Item>, item: Item, row: Row)
    ensures CoveredByAny(items + [item], row) <==> CoveredByAny(items, row) || Covers(item.path, item.kind, row)
  {
    var all := items + [item];
    assert all[|items|] == item;
    assert forall i :: 0 <= i < |items| ==> all[i] == items[i];
  }

  lemma ChainOfOne(item: Item, positive: bool)
    ensures Chain([item], positive) == Clause(item.path, item.kind, positive)
  {
    assert [item][..0] == [];
    var clause := Clause(item.path, item.kind, positive);
    assert EMPTY.words + [] + clause.words == clause.words && EMPTY.args + clause.args == clause.args;
  }

  ghost predicate MeansAny(items: seq<Item>, row: Row) {
    var chain := Chain(items, true);
    IsDisjunction(chain.words, chain.args, row, CoveredByAny(items, row))
  }

  ghost predicate MeansNone(items: seq<Item>, row: Row) {
    var chain := Chain(items, false);
    IsConjunction(chain.words, chain.args, row, !CoveredByAny(items, row))
  }

  lemma CoveredByOne(item: Item, row: Row)
    ensures CoveredByAny([item], row) <==> Covers(item.path, item.kind, row)
  {
    assert [item][0] == item;
  }

  lemma MeaningOfOne(item: Item, row: Row)
    requires Usable(item.path)
    ensures MeansAny([item], row) && MeansNone([item], row)
  {
    CoveredByOne(item, row);
    ChainOfOne(item, true);
    ChainOfOne(item, false);
    PositiveClause(item, row);
    ClauseMeaning(item.path, item.kind, false, row);
    var clause := Clause(item.path, item.kind, false);
    FactorIsConjunction(clause.words, clause.args, row, !Covers(item.path, item.kind, row));
  }

  lemma AnyNext(init: seq<Item>, last: Item, row: Row)
    requires init != [] && Usable(last.path) && MeansAny(init, row)
    ensures MeansAny(init + [last], row)
  {
    CoveredByNext(init, last, row);
    ChainNext(init, last, true);
    PositiveStep(Chain(init, true), CoveredByAny(init, row), last, row);
  }

  lemma NoneNext(init: seq<Item>, last: Item, row: Row)
    requires init != [] && Usable(last.path) && MeansNone(init, row)
    ensures MeansNone(init + [last], row)
  {
    CoveredByNext(init, last, row);
    ChainNext(init, last, false);
    NegativeStep(Chain(init, false), !CoveredByAny(init, row), last, row);
  }

  /** The positive chain holds of the rows some item covers, the negative chain of the rows none covers. */
  lemma {:induction false} ChainMeaning(items: seq<Item>, row: Row)
    requires items != [] && AllUsable(items)
    ensures MeansAny(items, row) && MeansNone(items, row)
  {
    hide MeansAny, MeansNone, Usable;
    var n := |items| - 1;
    if n == 0 {
      assert items == [items[0]];
      MeaningOfOne(items[0], row);
    } else {
      assert items == items[..n] + [items[n]];
      ChainMeaning(items[..n], row);
      AnyNext(items[..n], items[n], row);
      NoneNext(items[..n], items[n], row);
    }
  }

  lemma PositiveClause(item: Item, row: Row)
    requires Usable(item.path)
    ensures var clause := Clause(item.path, item.kind, true);
      && IsConjunction(clause.words, clause.args, row, Covers(item.path, item.kind, row))
      && IsDisjunction(clause.words, clause.args, row, Covers(item.path, item.kind, row))
  {
    var clause, value := Clause(item.path, item.kind, true), Covers(item.path, item.kind, row);
    ClauseMeaning(item.path, item.kind, true, row);
    FactorIsConjunction(clause.words, clause.args, row, value);
    ConjunctionIsDisjunction(clause.words, clause.args, row, value);
  }

  lemma PositiveStep(chain: Selection, value: bool, item: Item, row: Row)
    requires IsDisjunction(chain.words, chain.args, row, value) && Usable(item.path)
    ensures var clause := Clause(item.path, item.kind, true);
      IsDisjunction(chain.words + [Or] + clause.words, chain.args + clause.args, row, value || Covers(item.path, item.kind, row))
  {
    var clause := Clause(item.path, item.kind, true);
    PositiveClause(item, row);
    OrAppend(chain.words, chain.args, value, clause.words, clause.args, Covers(item.path, item.kind, row), row);
  }

  lemma NegativeStep(chain: Selection, value: bool, item: Item, row: Row)
    requires IsConjunction(chain.words, chain.args, row, value) && Usable(item.path)
    ensures var clause := Clause(item.path, item.kind, false);
      IsConjunction(chain.words + [And] + clause.words, chain.args + clause.args, row, value && !Covers(item.path, item.kind, row))
  {
    var clause := Clause(item.path, item.kind, false);
    ClauseMeaning(item.path, item.kind, false, row);
    AndAppend(chain.words, chain.args, value, clause.words, clause.args, !Covers(item.path, item.kind, row), row);
  }

  // ---------------------------------------------------------------------------
  // The merged query

  const NEVER := Selection([Atom(Never)], [])

  function Joined(left: Selection, right: Selection): Selection {
    Selection(Both(left.words, right.words), left.args + right.args)
  }

  /** What the rules add to the query, if anything. */
  method RuleSelection(mode: PolicyMode, rules: seq<MediaRule>, folders: seq<MediaFolder>) returns (final: Option<Selection>)
    ensures final == RulesSelection(mode, rules, folders)
  {
    var allow := BuildMediaPositiveSelection(rules, folders);
    var deny := BuildMediaNegativeSelection(rules);
    if mode == Whitelist {
      var selection := if allow.Some? then allow.value else NEVER;
      if deny.Some? {
        selection := Joined(selection, deny.value);
      }
      return Some(selection);
    }
    return deny;
  }

  function FinalSelection(mode: PolicyMode, allow: Option<Selection>, deny: Option<Selection>): Option<Selection> {
    if mode == Blacklist then deny
    else
      var given := if allow.Some? then allow.value else NEVER;
      Some(if deny.Some? then Joined(given, deny.value) else given)
  }

  function RulesSelection(mode: PolicyMode, rules: seq<MediaRule>, folders: seq<MediaFolder>): Option<Selection> {
    FinalSelection(mode, Built(AllowItems(rules) + FolderItems(folders), true), Built(BlockItems(rules), false))
  }

  function MergedQuery(mode: PolicyMode, rules: seq<MediaRule>, folders: seq<MediaFolder>, original: Selection): Option<Selection> {
    Merged(original, RulesSelection(mode, rules, folders))
  }

  method BuildFilteredQueryArgs(mode: PolicyMode, rules: seq<MediaRule>, folders: seq<MediaFolder>, original: Selection)
    returns (merged: Option<Selection>)
    ensures merged == MergedQuery(mode, rules, folders, original)
  {
    var final := RuleSelection(mode, rules, folders);
    if final.None? {
      return None;
    }
    if original.words != [] {
      return Some(Joined(original, final.value));
    }
    return Some(Selection(final.value.words, original.args + final.value.args));
  }

  function Merged(original: Selection, final: Option<Selection>): Option<Selection> {
    if final.None? then None
    else if original.words != [] then Some(Joined(original, final.value))
    else Some(Selection(final.value.words, original.args + final.value.args))
  }

  /** What the rules say about a row: in a whitelist it must be covered by what is allowed, and it must never be covered
    by what is blocked. A list with an unusable path counts as if it allowed, or blocked, nothing. */
  predicate RulesAdmit(mode: PolicyMode, rules: seq<MediaRule>, folders: seq<MediaFolder>, row: Row) {
    var allowed, blocked := AllowItems(rules) + FolderItems(folders), BlockItems(rules);
    && (mode == Whitelist ==> AllUsable(allowed) && CoveredByAny(allowed, row))
    && (AllUsable(blocked) ==> !CoveredByAny(blocked, row))
  }

  lemma FinalMeaning(mode: PolicyMode, rules: seq<MediaRule>, folders: seq<MediaFolder>, row: Row)
    ensures var allowed, blocked := AllowItems(rules) + FolderItems(folders), BlockItems(rules);
            var final := RulesSelection(mode, rules, folders);
      if final.None? then RulesAdmit(mode, rules, folders, row)
      else IsDisjunction(final.value.words, final.value.args, row, RulesAdmit(mode, rules, folders, row))
  {
    var allowed, blocked := AllowItems(rules) + FolderItems(folders), BlockItems(rules);
    var allow, deny := Built(allowed, true), Built(blocked, false);
    var admits := deny.Some? ==> !CoveredByAny(blocked, row);
    if deny.Some? {
      ChainMeaning(blocked, row);
      ConjunctionIsDisjunction(deny.value.words, deny.value.args, row, admits);
    }
    if mode == Whitelist {
      var given := if allow.Some? then allow.value else NEVER;
      var holds := allow.Some? && CoveredByAny(allowed, row);
      if allow.Some? {
        ChainMeaning(allowed, row);
      } else {
        OneTest(Never, [], row);
        FactorIsConjunction(NEVER.words, NEVER.args, row, false);
        ConjunctionIsDisjunction(NEVER.words, NEVER.args, row, false);
      }
      if deny.Some? {
        BothHold(given.words, given.args, holds, deny.value.words, deny.value.args, admits, row);
      }
    }
  }

  /** What the caller's selection says of a row by itself; without one, every row is asked for. */
  function Asked(original: Selection, row: Row): Option<bool> {
    if original.words != [] then Evaluate(original.words, original.args, row)
    else if original.args == [] then Some(true) else None
  }

  /** For any words of the caller. If none of their ORs stands outside their brackets, the merged query keeps only rows that the
    rules admit; if they close no bracket that they have not opened, exactly those that they ask for and the rules admit. */
  lemma FilteredMeaning(mode: PolicyMode, rules: seq<MediaRule>, folders: seq<MediaFolder>, original: Selection, row: Row)
    ensures var admits := RulesAdmit(mode, rules, folders, row);
            var merged := MergedQuery(mode, rules, folders, original);
      if merged.None? then admits
      else
        var kept := Evaluate(merged.value.words, merged.value.args, row);
        && (!OrOutside(original.words) ==> kept == Some(true) ==> admits)
        && (StaysInside(original.words) ==>
              kept == match Asked(original, row) case None => None case Some(asked) => Some(asked && admits))
  {
    hide ReadOr, Built, RulesAdmit, OrOutside, StaysInside, Both, FinalSelection;
    FinalMeaning(mode, rules, folders, row);
    var final := RulesSelection(mode, rules, folders);
    var admits := RulesAdmit(mode, rules, folders, row);
    if final.Some? {
      var right := final.value;
      if original.words != [] {
        if !OrOutside(original.words) {
          RightSideDecides(original.words, original.args, right.words, right.args, admits, row);
        }
        if StaysInside(original.words) {
          BothSidesDecide(original.words, original.args, right.words, right.args, admits, row);
        }
      } else {
        ArgumentsAlone(original.args, right, admits, row);
      }
    }
  }

  lemma ArgumentsAlone(args: seq<string>, right: Selection, admits: bool, row: Row)
    requires IsDisjunction(right.words, right.args, row, admits)
    ensures Evaluate(right.words, args + right.args, row) == if args == [] then Some(admits) else None
  {
    hide ReadOr;
    ArgsMatchPlaces(right.words, right.args, row);
    ArgsMatchPlaces(right.words, args + right.args, row);
    if args == [] {
      assert args + right.args == right.args;
    }
  }

  /** For words that test only what the caller names, joined so that the query can be evaluated, where the rules refuse some
    row: the query keeps nothing but what the rules admit exactly when no OR of the caller stands outside its brackets. */
  lemma RulesHoldExactly(mode: PolicyMode, rules: seq<MediaRule>, folders: seq<MediaFolder>, original: Selection, row: Row)
    requires original.words != [] && CallersOnly(original.words) && !RulesAdmit(mode, rules, folders, row)
    ensures var merged := MergedQuery(mode, rules, folders, original);
      && merged.Some?
      && (Evaluate(merged.value.words, merged.value.args, row).Some? ==>
            (OnlyAdmitted(merged.value, mode, rules, folders) <==> !OrOutside(original.words)))
  {
    hide Evaluate, RulesAdmit, OrOutside, StaysInside, Both, FinalSelection, Built;
    FilteredMeaning(mode, rules, folders, original, row);
    var merged := MergedQuery(mode, rules, folders, original);
    if Evaluate(merged.value.words, merged.value.args, row).Some? {
      if OrOutside(original.words) {
        LeftSideEscapes(original.words, RulesSelection(mode, rules, folders).value.words, merged.value.args, row);
        AdmissionIgnoresCaller(mode, rules, folders, row);
      } else {
        forall other | Evaluate(merged.value.words, merged.value.args, other) == Some(true)
          ensures RulesAdmit(mode, rules, folders, other)
        {
          FilteredMeaning(mode, rules, folders, original, other);
        }
      }
    }
  }

  ghost predicate OnlyAdmitted(query: Selection, mode: PolicyMode, rules: seq<MediaRule>, folders: seq<MediaFolder>) {
    forall row: Row :: Evaluate(query.words, query.args, row) == Some(true) ==> RulesAdmit(mode, rules, folders, row)
  }

  lemma AdmissionIgnoresCaller(mode: PolicyMode, rules: seq<MediaRule>, folders: seq<MediaFolder>, row: Row)
    ensures RulesAdmit(mode, rules, folders, Agreeing(row)) == RulesAdmit(mode, rules, folders, row)
  {
    CoveringIgnoresCaller(AllowItems(rules) + FolderItems(folders), row);
    CoveringIgnoresCaller(BlockItems(rules), row);
  }

  lemma CoveringIgnoresCaller(items: seq<Item>, row: Row)
    ensures CoveredByAny(items, Agreeing(row)) == CoveredByAny(items, row)
  {
    forall i | 0 <= i < |items|
      ensures Covers(items[i].path, items[i].kind, Agreeing(row)) == Covers(items[i].path, items[i].kind, row)
    {
    }
  }

  /** `c) OR (c` */
  function ClosedTooEarly(c: Test): seq<Word> {
    [Atom(c), Close, Or, Open, Atom(c)]
  }

  /** Such a text means nothing by itself, and joined with the rules it keeps every row of which the test holds. */
  lemma ClosedTooEarlyEscapes(mode: PolicyMode, rules: seq<MediaRule>, folders: seq<MediaFolder>, row: Row)
    requires row.caller(0, [])
    ensures var original := Selection(ClosedTooEarly(CallerTest(0, 0)), []);
            var merged := MergedQuery(mode, rules, folders, original);
      && Evaluate(original.words, original.args, row) == None
      && (merged.Some? ==> Evaluate(merged.value.words, merged.value.args, row) == Some(true))
  {
    var c := CallerTest(0, 0);
    var original := Selection(ClosedTooEarly(c), []);
    hide RulesAdmit, Built, FinalSelection;
    FinalMeaning(mode, rules, folders, row);
    FirstWordsOnly(c, row);
    if RulesSelection(mode, rules, folders).Some? {
      var right := RulesSelection(mode, rules, folders).value;
      TwoGroups(c, right, RulesAdmit(mode, rules, folders, row), row);
    }
  }

  lemma FirstWordsOnly(c: Test, row: Row)
    requires Holes(c) == 0
    ensures Evaluate(ClosedTooEarly(c), [], row) == None
  {
    var words := ClosedTooEarly(c);
    var first := ReadFactor(words, [], row);
    assert words[0] == Atom(c) && words[1] == Close;
    assert first.Got? && first.words == words[1..] && first.words[0] == Close;
    assert ReadAnd(words, [], row) == first;
    assert ReadOr(words, [], row) == first;
  }

  lemma TwoGroups(c: Test, right: Selection, admits: bool, row: Row)
    requires Holes(c) == 0 && TestHolds(c, [], row) && IsDisjunction(right.words, right.args, row, admits)
    ensures Evaluate(Both(ClosedTooEarly(c), right.words), [] + right.args, row) == Some(true)
  {
    hide ReadOr, ReadAnd, ReadFactor;
    var none: seq<string> := [];
    var group := [Open] + [Atom(c)] + [Close];
    OneTest(c, none, row);
    FactorIsConjunction([Atom(c)], none, row, true);
    ConjunctionIsDisjunction([Atom(c)], none, row, true);
    Parenthesized([Atom(c)], none, row, true);
    FactorIsConjunction(group, none, row, true);
    ConjunctionIsDisjunction(group, none, row, true);
    Parenthesized(right.words, right.args, row, admits);
    AndAppend(group, none, true, [Open] + right.words + [Close], right.args, admits, row);
    var rest := group + [And] + ([Open] + right.words + [Close]);
    OrAppend(group, none, true, rest, none + right.args, admits, row);
    assert none + (none + right.args) == none + right.args;
    assert group + [Or] + rest == Both(ClosedTooEarly(c), right.words);
  }

  /** A caller that passes arguments without a selection gets a query whose places and arguments no longer match. */
  lemma StrayArgumentsBreakTheQuery(mode: PolicyMode, rules: seq<MediaRule>, folders: seq<MediaFolder>, original: Selection, row: Row)
    requires original.words == []
    ensures var merged := MergedQuery(mode, rules, folders, original);
      merged.Some? ==> (Evaluate(merged.value.words, merged.value.args, row).Some? <==> original.args == [])
  {
    hide Built, RulesAdmit, ReadOr, FinalSelection;
    FinalMeaning(mode, rules, folders, row);
    var final := RulesSelection(mode, rules, folders);
    if final.Some? {
      ArgumentsAlone(original.args, final.value, RulesAdmit(mode, rules, folders, row), row);
    }
  }
}
