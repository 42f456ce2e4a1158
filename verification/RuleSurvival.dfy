/** Exactly which rules survive being written out and read back (native/rule_engine.cpp, lines 75-122 and 1215-1278). */
module RuleSurvival {
  import opened Options
  import opened Text
  import opened Rules
  import opened ParsedRules
  import opened RuleCompiler
  import opened LineSyntax
  import opened RuleParser
  import opened ParserProperties
  import opened RuleRenderer

  /** Written on a line of its own in a package section, the rule is what the parser reads from that line. */
  ghost predicate Survives(rule: ParsedRuleLine, before: ParseState, s: ParsedSection, number: nat) {
    LineStep(Within(before, s), CleanLine(RuleText(rule)), number) ==
      Within(before, s.(rules := s.rules + [rule.(lineNumber := number)]))
  }

  // ---------------------------------------------------------------------------
  // What a type list can read as

  predicate ReadableType(t: string) {
    t != "" && !IsSpace(t[|t| - 1]) && ',' !in t
  }

  lemma LowerKeeps(text: string)
    ensures ',' in Lower(text) <==> ',' in text
    ensures forall i :: 0 <= i < |text| ==> (IsSpace(Lower(text)[i]) <==> IsSpace(text[i]))
  {
    forall i | 0 <= i < |text| ensures Lower(text)[i] == ',' <==> text[i] == ',' {
    }
    if ',' in text {
      var i :| 0 <= i < |text| && text[i] == ',';
      assert Lower(text)[i] == ',';
    }
  }

  lemma ReadTypeIsReadable(piece: string)
    requires ReadType(piece).Some? && ',' !in piece
    ensures ReadableType(ReadType(piece).value) && |ReadType(piece).value| <= |piece|
  {
    hide Trim, Lower;
    var trimmed := Trim(piece);
    var token := if trimmed[0] == '.' then trimmed[1..] else trimmed;
    TrimIsInside(piece);
    TrimIsTrimmed(piece);
    assert forall c :: c in token ==> c in trimmed;
    assert token[|token| - 1] == trimmed[|trimmed| - 1];
    LowerKeeps(token);
  }

  /** A type that reads as itself is plain. */
  lemma FixedTypeIsPlain(t: string)
    requires ReadType(t) == Some(t) && ',' !in t
    ensures PlainType(t)
  {
    hide Trim, Lower;
    TrimIsInside(t);
    TrimIsTrimmed(t);
  }

  lemma {:induction false} TypesAreReadable(text: string)
    requires ReadTypes(text).Some?
    ensures forall i :: 0 <= i < |ReadTypes(text).value| ==> ReadableType(ReadTypes(text).value[i])
    decreases |text|
  {
    hide ReadType, ReadableType;
    if text != "" {
      var comma := FirstIndex(text, ',');
      if comma < 0 {
        ReadTypeIsReadable(text);
      } else {
        assert forall j :: 0 <= j < comma ==> text[..comma][j] == text[j];
        ReadTypeIsReadable(text[..comma]);
        TypesAreReadable(text[comma + 1..]);
      }
    }
  }

  predicate AllReadable(types: seq<string>) {
    forall i :: 0 <= i < |types| ==> ReadableType(types[i])
  }

  lemma CommaFree(types: seq<string>)
    requires types != [] && AllReadable(types)
    ensures ',' !in types[0] && types[0] != ""
  {
    assert ReadableType(types[0]);
  }

  lemma {:induction false} FixedTypesArePlain(types: seq<string>)
    requires types != [] && AllReadable(types) && ReadTypes(Listed(types)) == Some(types)
    ensures PlainTypes(types)
  {
    hide ReadType, ReadableType, PlainType;
    CommaFree(types);
    if |types| == 1 {
      ReadOnePiece(types[0]);
      FixedTypeIsPlain(types[0]);
    } else {
      var rest := Listed(types[1..]);
      assert Listed(types) == types[0] + ("," + rest);
      ReadFirstPiece(types[0], rest);
      FixedTypeIsPlain(types[0]);
      assert types[1..] == ([types[0]] + types[1..])[1..];
      FixedTypesArePlain(types[1..]);
    }
  }

  lemma ReadOnePiece(only: string)
    requires only != "" && ',' !in only
    ensures ReadTypes(only) == PrependType(ReadType(only), Some([]))
  {
  }

  lemma ReadFirstPiece(first: string, rest: string)
    requires ',' !in first
    ensures ReadTypes(first + ("," + rest)) == PrependType(ReadType(first), ReadTypes(rest))
  {
    FirstComma(first, rest);
  }

  // The reader trims the list first; only the front of the first type could be lost by that.

  lemma {:induction false} TrimLeftInFront(front: string, rest: string)
    requires TrimLeft(front) != ""
    ensures TrimLeft(front + rest) == TrimLeft(front) + rest
  {
    if IsSpace(front[0]) {
      assert (front + rest)[1..] == front[1..] + rest;
      TrimLeftInFront(front[1..], rest);
    }
  }

  lemma {:induction false} TrimLeftOfSolid(text: string)
    requires text != "" && !IsSpace(text[|text| - 1])
    ensures TrimLeft(text) != "" && TrimLeft(text)[|TrimLeft(text)| - 1] == text[|text| - 1]
  {
    if IsSpace(text[0]) {
      TrimLeftOfSolid(text[1..]);
    }
  }

  lemma TrimOfSolid(text: string)
    requires text != "" && !IsSpace(text[|text| - 1])
    ensures Trim(text) == TrimLeft(text)
  {
    TrimLeftOfSolid(text);
  }

  lemma {:induction false} ListedEndsSolid(types: seq<string>)
    requires types != [] && AllReadable(types)
    ensures Listed(types) != "" && !IsSpace(Listed(types)[|Listed(types)| - 1])
  {
    assert ReadableType(types[0]);
    if |types| > 1 {
      ListedEndsSolid(types[1..]);
    }
  }

  lemma TrimmedListIsPlain(types: seq<string>)
    requires types != [] && AllReadable(types) && ReadTypes(Trim(Listed(types))) == Some(types)
    ensures PlainTypes(types)
  {
    hide ReadTypes, ReadType, PlainTypes, TrimLeft, Trim;
    var first := types[0];
    assert ReadableType(first);
    ListedEndsSolid(types);
    TrimOfSolid(Listed(types));
    TrimLeftOfSolid(first);
    TrimLeftIsSuffix(first);
    var front := TrimLeft(first);
    assert ',' !in front by {
      assert forall c :: c in front ==> c in first;
    }
    if |types| == 1 {
      ReadOnePiece(front);
    } else {
      assert Listed(types) == first + ("," + Listed(types[1..]));
      TrimLeftInFront(first, "," + Listed(types[1..]));
      ReadFirstPiece(front, Listed(types[1..]));
    }
    FrontIsWhole(types, front);
    FixedTypesArePlain(types);
  }

  lemma FrontIsWhole(types: seq<string>, front: string)
    requires types != [] && ',' !in front && |front| <= |types[0]| && front == types[0][|types[0]| - |front|..]
    requires exists rest :: PrependType(ReadType(front), rest) == Some(types)
    ensures front == types[0]
  {
    hide ReadType;
    var rest :| PrependType(ReadType(front), rest) == Some(types);
    assert ReadType(front) == Some(types[0]);
    ReadTypeIsReadable(front);
  }

  // ---------------------------------------------------------------------------
  // What a surviving rule must look like

  lemma SurvivorIsRead(rule: ParsedRuleLine, before: ParseState, s: ParsedSection, number: nat)
    requires Survives(rule, before, s, number)
    ensures var line := CleanLine(RuleText(rule));
      && line != "" && line[0] != '#' && !IsHeader(line)
      && PolicyLine(s, line, number) == Some(s.(rules := s.rules + [rule.(lineNumber := number)]))
  {
    hide RuleText, CleanLine, PolicyLine, SubSectionName, Trim;
    var line, sections := CleanLine(RuleText(rule)), before.parsed.sections;
    var next := s.(rules := s.rules + [rule.(lineNumber := number)]);
    assert |next.rules| == |s.rules| + 1;
    assert Within(before, next).parsed.sections[|sections|] == next;
    assert Within(before, s).parsed.sections[|sections|] == s;
    assert Within(before, s).parsed.errors == before.parsed.errors;
    if line != "" && line[0] != '#' && !IsHeader(line) && PolicyLine(s, line, number).Some? {
      assert (sections + [s])[..|sections|] == sections;
      assert WithLast(sections + [s], PolicyLine(s, line, number).value)[|sections|] == PolicyLine(s, line, number).value;
    }
  }

  lemma RuleIsReadFromLine(rule: ParsedRuleLine, s: ParsedSection, line: string, number: nat)
    requires PolicyLine(s, line, number) == Some(s.(rules := s.rules + [rule]))
    ensures !BeginsOption(line) && ReadRule(line, number) == Some(rule)
  {
    hide ReadRule, BeginsOption, SetOption;
    var next := s.(rules := s.rules + [rule]);
    assert |next.rules| == |s.rules| + 1;
    if !BeginsOption(line) {
      var found := ReadRule(line, number);
      assert found.Some? ==> (s.rules + [found.value])[|s.rules|] == found.value;
      assert (s.rules + [rule])[|s.rules|] == rule;
    }
  }

  lemma OptionsStayOptions(path: string, rest: string)
    requires !BeginsOption(path + rest)
    ensures !BeginsOption(path)
  {
  }

  /** An arrow in the path would have cut the path short. */
  lemma PathHasNoArrow(path: string, rest: string, rule: ParsedRuleLine, number: nat)
    requires RedirectRule(path + rest, number) == Some(rule) && rule.path == path
    ensures Find(path, ARROW) < 0 && Find(path, DYNAMIC_ARROW) < 0
  {
    hide Find, FindTypes, ParseTypeFilter, Trim;
    var line := path + rest;
    var arrow, alias := Find(line, ARROW), Find(line, DYNAMIC_ARROW);
    var split := if arrow >= 0 && (alias < 0 || arrow < alias) then arrow else alias;
    TrimIsInside(line[..split]);
    ArrowStays(path, rest, ARROW);
    ArrowStays(path, rest, DYNAMIC_ARROW);
  }

  lemma ArrowStays(path: string, rest: string, arrow: string)
    requires arrow != ""
    ensures Find(path, arrow) >= 0 ==> 0 <= Find(path + rest, arrow) <= Find(path, arrow) < |path|
  {
    var i := Find(path, arrow);
    if i >= 0 {
      assert (path + rest)[i..][..|arrow|] == path[i..][..|arrow|];
      assert StartsWith((path + rest)[i..], arrow);
    }
  }

  /** A type marker in the target would have cut the target short. */
  lemma TargetHasNoTypes(target: string, rest: string, types: seq<string>)
    requires ParseTypeFilter(target + rest) == Filter(target, types) && target != ""
    ensures !HasTypes(target)
  {
    hide Trim, ReadTypes;
    var at := FindTypes(target, 0);
    if at >= 0 {
      var text := target + rest;
      assert text[at..][..|TYPES|] == target[at..][..|TYPES|];
      assert TypesAt(text, at);
      TrimIsInside(text[..FindTypes(text, 0)]);
    }
  }

  lemma FilterNeedsPlainTypes(target: string, types: seq<string>)
    requires IsTrimmed(target) && !HasTypes(target) && AllReadable(types)
    requires ParseTypeFilter(target + TypesText(types)) == Filter(target, types)
    ensures PlainTypes(types)
  {
    if types != [] {
      hide PlainTypes, ReadTypes, Trim, IsTrimmed;
      var list := Listed(types);
      var text := target + (" " + TYPES + list);
      TypesAreFound(target, list);
      assert text[|target| + 1 + |TYPES|..] == list;
      TrimmedListIsPlain(types);
    }
  }

  lemma FilterTypesAreReadable(text: string)
    requires ParseTypeFilter(text).Filter?
    ensures AllReadable(ParseTypeFilter(text).types)
  {
    hide FindTypes, Trim, ReadTypes;
    var at := FindTypes(text, 0);
    if at >= 0 {
      hide AllReadable;
      TypesAreReadable(Trim(text[at + |TYPES|..]));
    }
  }

  lemma RedirectTypesAreReadable(line: string, number: nat)
    requires RedirectRule(line, number).Some?
    ensures AllReadable(RedirectRule(line, number).value.extensions)
  {
    hide FindTypes, Trim, ParseTypeFilter, AllReadable;
    var arrow, alias := Find(line, ARROW), Find(line, DYNAMIC_ARROW);
    var split := if arrow >= 0 && (alias < 0 || arrow < alias) then arrow else alias;
    FilterTypesAreReadable(Trim(line[split + 2..]));
  }

  lemma RightIsSolid(target: string, types: seq<string>)
    requires IsTrimmed(target) && AllReadable(types)
    ensures IsTrimmed(target + TypesText(types))
  {
    if types != [] {
      ListedEndsSolid(types);
    }
  }

  /** A redirect that is read as itself is plain. */
  lemma ReadRedirectIsPlain(rule: ParsedRuleLine, number: nat)
    requires NeedsTarget(rule.action) && IsTrimmed(rule.path) && IsTrimmed(rule.redirectTarget)
    requires RedirectRule(RuleText(rule), number) == Some(rule.(lineNumber := number))
    ensures Find(rule.path, ARROW) < 0 && Find(rule.path, DYNAMIC_ARROW) < 0
    ensures !HasTypes(rule.redirectTarget) && PlainTypes(rule.extensions)
  {
    hide RuleText, RedirectRule, Find, ParseTypeFilter, TypesText, PlainTypes, AllReadable, IsTrimmed, HasTypes;
    var arrow, right := ArrowOf(rule.action), rule.redirectTarget + TypesText(rule.extensions);
    var rest := " " + arrow + (" " + right);
    RedirectTextIs(rule);
    PathHasNoArrow(rule.path, rest, rule.(lineNumber := number), number);
    RedirectTypesAreReadable(RuleText(rule), number);
    RightIsSolid(rule.redirectTarget, rule.extensions);
    ReadAtItsArrow(rule.path, arrow, right, rule.(lineNumber := number), number);
    TrimmedIsNotEmpty(rule.redirectTarget);
    TargetHasNoTypes(rule.redirectTarget, TypesText(rule.extensions), rule.extensions);
    FilterNeedsPlainTypes(rule.redirectTarget, rule.extensions);
  }

  lemma TrimmedIsNotEmpty(text: string)
    requires IsTrimmed(text)
    ensures text != ""
  {
  }

  lemma RedirectTextIs(rule: ParsedRuleLine)
    requires NeedsTarget(rule.action)
    ensures RuleText(rule) ==
      rule.path + (" " + ArrowOf(rule.action) + (" " + (rule.redirectTarget + TypesText(rule.extensions))))
  {
    hide TypesText, ArrowOf;
  }

  /** A redirect whose path has no arrow is cut at the arrow that was written. */
  lemma ReadAtItsArrow(path: string, arrow: string, right: string, rule: ParsedRuleLine, number: nat)
    requires arrow == ARROW || arrow == DYNAMIC_ARROW
    requires Find(path, ARROW) < 0 && Find(path, DYNAMIC_ARROW) < 0 && IsTrimmed(path) && IsTrimmed(right)
    requires RedirectRule(path + (" " + arrow + (" " + right)), number) == Some(rule)
    ensures ParseTypeFilter(right) == Filter(rule.redirectTarget, rule.extensions)
  {
    hide Find, FindTypes, Trim, ParseTypeFilter, StartsWith, IsTrimmed;
    OwnArrowIsFound(path, arrow, " " + right);
    OtherArrowIsLater(path, arrow, if arrow == ARROW then DYNAMIC_ARROW else ARROW, " " + right);
    RedirectParts(path, arrow, right);
  }

  /** A redirect cannot be read from a marked line, and its own line has no white space to lose. */
  lemma RedirectLineIsItself(rule: ParsedRuleLine, number: nat)
    requires NeedsTarget(rule.action) && RuleFits(rule)
    requires ReadRule(CleanLine(RuleText(rule)), number) == Some(rule.(lineNumber := number))
    ensures CleanLine(RuleText(rule)) == RuleText(rule) && !IsMarked(RuleText(rule))
    ensures RedirectRule(RuleText(rule), number) == Some(rule.(lineNumber := number))
  {
    hide Trim, RedirectRule, FindTypes, AllReadable, TypesText, HasTypes;
    var text := RuleText(rule);
    RedirectTypesAreReadable(CleanLine(text), number);
    RightIsSolid(rule.redirectTarget, rule.extensions);
    assert text == rule.path + " " + ArrowOf(rule.action) + " " + (rule.redirectTarget + TypesText(rule.extensions));
    TrimDropsReturn(text);
    TrimOfTrimmed(text);
  }

  lemma SurvivorIsPlain(rule: ParsedRuleLine, before: ParseState, s: ParsedSection, number: nat)
    requires Survives(rule, before, s, number)
    ensures RuleIsPlain(rule)
  {
    hide Survives, PolicyLine, ReadRule, CleanLine, BeginsOption, IsTrimmed, Find, HasTypes, PlainTypes, IsHeader;
    var line, read := CleanLine(RuleText(rule)), rule.(lineNumber := number);
    SurvivorIsRead(rule, before, s, number);
    RuleIsReadFromLine(read, s, line, number);
    RulesOfTextFit(read, line, number);
    if NeedsTarget(rule.action) {
      RedirectLineIsItself(rule, number);
      ReadRedirectIsPlain(rule, number);
      SourceIsPlain(rule);
    }
  }

  lemma SourceIsPlain(rule: ParsedRuleLine)
    requires NeedsTarget(rule.action) && IsTrimmed(rule.path)
    requires !BeginsOption(RuleText(rule)) && !IsMarked(RuleText(rule)) && RuleText(rule)[0] != '#'
    requires Find(rule.path, ARROW) < 0 && Find(rule.path, DYNAMIC_ARROW) < 0
    ensures PlainSource(rule.path)
  {
    hide BeginsOption, Find, TypesText;
    var rest := " " + ArrowOf(rule.action) + " " + rule.redirectTarget + TypesText(rule.extensions);
    assert RuleText(rule) == rule.path + rest;
    OptionsStayOptions(rule.path, rest);
  }

  /** A rule survives being written on a line of its own exactly when it is plain: trimmed, without a type marker in its
    paths, and, for a redirect, with a path that has no arrow and cannot be taken for anything else. */
  lemma PlainRulesSurvive(rule: ParsedRuleLine, before: ParseState, s: ParsedSection, number: nat)
    ensures Survives(rule, before, s, number) <==> RuleIsPlain(rule)
  {
    hide PolicyLine, RuleIsPlain, Survives, IsBodyLine, RuleText, Trim;
    if Survives(rule, before, s, number) {
      SurvivorIsPlain(rule, before, s, number);
    }
    if RuleIsPlain(rule) {
      PlainRuleSurvives(rule, before, s, number);
    }
  }

  lemma PlainRuleSurvives(rule: ParsedRuleLine, before: ParseState, s: ParsedSection, number: nat)
    requires RuleIsPlain(rule)
    ensures Survives(rule, before, s, number)
  {
    hide PolicyLine, RuleIsPlain, RuleText, Trim;
    var line, sections := RuleText(rule), before.parsed.sections;
    RuleLineIsRead(rule, s, number);
    RuleTextIsBodyLine(rule);
    TrimDropsReturn(line);
    TrimOfTrimmed(line);
    assert (sections + [s])[..|sections|] == sections;
  }

  // ---------------------------------------------------------------------------
  // Which rules that were read can be written so that they are read again

  lemma TrimIsPrefix(text: string)
    requires text == "" || !IsSpace(text[0])
    ensures |Trim(text)| <= |text| && Trim(text) == text[..|Trim(text)|]
  {
    TrimRightIsPrefix(text);
  }

  lemma ReadRedirectParts(line: string, rule: ParsedRuleLine, number: nat) returns (right: string)
    requires line != "" && !IsSpace(line[0]) && RedirectRule(line, number) == Some(rule)
    ensures |rule.path| <= |line| && rule.path == line[..|rule.path|]
    ensures right == "" || IsTrimmed(right)
    ensures ParseTypeFilter(right) == Filter(rule.redirectTarget, rule.extensions)
    ensures right != "" && (!IsSpace(line[|line| - 1]) ==> right[|right| - 1] == line[|line| - 1])
  {
    hide Find, FindTypes, Trim, ParseTypeFilter;
    var arrow, alias := Find(line, ARROW), Find(line, DYNAMIC_ARROW);
    var split := if arrow >= 0 && (alias < 0 || arrow < alias) then arrow else alias;
    right := Trim(line[split + 2..]);
    TrimIsPrefix(line[..split]);
    TrimIsTrimmed(line[split + 2..]);
    TrimIsInside(line[split + 2..]);
    if !IsSpace(line[|line| - 1]) {
      SameLast(line[split + 2..]);
    }
  }

  lemma SameLast(text: string)
    requires text != "" && !IsSpace(text[|text| - 1])
    ensures Trim(text) != "" && Trim(text)[|Trim(text)| - 1] == text[|text| - 1]
  {
    TrimOfSolid(text);
    TrimLeftOfSolid(text);
  }

  lemma TargetIsPrefix(right: string)
    requires IsTrimmed(right) && ParseTypeFilter(right).Filter?
    ensures var target := ParseTypeFilter(right).path; |target| <= |right| && target == right[..|target|]
    ensures ParseTypeFilter(right).types == [] ==> ParseTypeFilter(right).path == right
  {
    hide FindTypes, Trim, ReadTypes;
    var at := FindTypes(right, 0);
    if at < 0 {
      TrimOfTrimmed(right);
    } else {
      TrimIsPrefix(right[..at]);
    }
  }

  lemma ReadSourceIsPlain(line: string, rule: ParsedRuleLine, number: nat)
    requires IsTrimmed(line) && line[0] != '#' && !BeginsOption(line) && !IsMarked(line)
    requires RedirectRule(line, number) == Some(rule) && |rule.path| <= |line| && rule.path == line[..|rule.path|]
    ensures PlainSource(rule.path)
  {
    hide Find, RedirectRule, BeginsOption;
    var rest := line[|rule.path|..];
    assert line == rule.path + rest;
    RedirectRuleFits(rule, line, number);
    PathHasNoArrow(rule.path, rest, rule, number);
    OptionsStayOptions(rule.path, rest);
  }

  /** What a line of a package section is read as is plain, and survives being written, unless its types are not: a rule
    without a type filter always is. */
  lemma ReadRuleIsPlain(line: string, rule: ParsedRuleLine, number: nat)
    requires IsBodyLine(line) && !BeginsOption(line) && ReadRule(line, number) == Some(rule)
    ensures RuleIsPlain(rule) <==> rule.extensions == [] || (PlainTypes(rule.extensions) && !IsHeader(RuleText(rule)))
  {
    hide RedirectRule, MarkedRule, FindTypes, Trim, ParseTypeFilter, PlainSource, BeginsOption, Find, RuleText, TypesText;
    RulesOfTextFit(rule, line, number);
    if !IsMarked(line) {
      var right := ReadRedirectParts(line, rule, number);
      ReadSourceIsPlain(line, rule, number);
      TargetIsPrefix(right);
      var target := rule.redirectTarget;
      assert right == target + right[|target|..];
      TargetHasNoTypes(target, right[|target|..], rule.extensions);
      RedirectNeedsTarget(line, rule, number);
      if rule.extensions == [] {
        UntypedIsNoHeader(line, rule);
      }
    } else {
      MarkedHasNoTypes(line, rule, number);
    }
  }

  lemma RedirectNeedsTarget(line: string, rule: ParsedRuleLine, number: nat)
    requires RedirectRule(line, number) == Some(rule)
    ensures NeedsTarget(rule.action) && |line| >= 2
  {
    hide Find, FindTypes, Trim, ParseTypeFilter;
  }

  lemma MarkedHasNoTypes(line: string, rule: ParsedRuleLine, number: nat)
    requires line != "" && MarkedRule(line, number) == Some(rule)
    ensures !NeedsTarget(rule.action) && rule.extensions == []
  {
  }

  lemma UntypedIsNoHeader(line: string, rule: ParsedRuleLine)
    requires IsTrimmed(line) && !IsHeader(line) && rule.path != "" && rule.redirectTarget != ""
    requires NeedsTarget(rule.action) && rule.extensions == []
    requires rule.path[0] == line[0] && rule.redirectTarget[|rule.redirectTarget| - 1] == line[|line| - 1] && |line| >= 2
    ensures !IsHeader(RuleText(rule))
  {
  }
}
