/** What the rule file parser makes of comments other than a line that begins with `#`: lines that begin with `;`, and
  notes behind a value (native/rule_engine.cpp, lines 1029-1278). */
module RuleComments {
  import opened Options
  import opened Text
  import opened PathMapper
  import opened Rules
  import opened ParsedRules
  import opened RuleCompiler
  import opened LineSyntax
  import opened RuleParser
  import opened ParserProperties
  import opened RuleRenderer
  import opened RuleSurvival

  // ---------------------------------------------------------------------------
  // One line that begins with a semicolon

  predicate IsSemicolonLine(line: string) {
    line != "" && line[0] == ';'
  }

  lemma SemicolonIsNoOption(line: string)
    requires IsSemicolonLine(line)
    ensures !BeginsOption(line) && !IsMarked(line) && !IsHeader(line)
  {
    NotMode(line);
    NotEnabled(line);
    NotDelete(line);
    NotMediaQuery(line);
    NotTrash(line);
  }

  lemma FirstStays(text: string)
    requires text != "" && !IsSpace(text[0])
    ensures Trim(text) != "" && Trim(text)[0] == text[0]
  {
    TrimRightOfSolid(text);
  }

  lemma {:induction false} TrimRightOfSolid(text: string)
    requires text != "" && !IsSpace(text[0])
    ensures TrimRight(text) != "" && TrimRight(text)[0] == text[0]
  {
    if IsSpace(text[|text| - 1]) {
      TrimRightOfSolid(text[..|text| - 1]);
    }
  }

  lemma SemicolonKey(line: string)
    requires IsSemicolonLine(line) && SplitAssignment(line).Some?
    ensures SplitAssignment(line).value.0 != "" && SplitAssignment(line).value.0[0] == ';'
  {
    var equal := FirstIndex(line, '=');
    FirstStays(line[..equal]);
  }

  /** What can come of such a line: a redirect rule of the package section that is being filled, or an error. */
  lemma SemicolonLineIs(state: ParseState, line: string, number: nat)
    requires WellPlaced(state) && IsSemicolonLine(line)
    ensures var rule := RedirectRule(line, number);
      LineStep(state, line, number) ==
        if state.active.InPolicy? && rule.Some? then
          var section := Last(state.parsed.sections);
          state.(parsed := state.parsed.(sections :=
            WithLast(state.parsed.sections, section.(rules := section.rules + [rule.value]))))
        else Failed(state, number)
  {
    hide RedirectRule, SplitAssignment, BeginsOption, SetOption;
    SemicolonIsNoOption(line);
    if SplitAssignment(line).Some? {
      SemicolonKey(line);
    }
  }

  lemma LongerIsOther(state: ParseState, section: ParsedSection, rule: ParsedRuleLine)
    requires state.parsed.sections != [] && section == Last(state.parsed.sections)
    ensures state.(parsed := state.parsed.(sections :=
      WithLast(state.parsed.sections, section.(rules := section.rules + [rule])))) != state
  {
    var next := WithLast(state.parsed.sections, section.(rules := section.rules + [rule]));
    assert |Last(next).rules| == |section.rules| + 1;
  }

  /** So it is never skipped: it is an error exactly where it is not a live rule. */
  lemma SemicolonLineCounts(state: ParseState, line: string, number: nat)
    requires WellPlaced(state) && IsSemicolonLine(line)
    ensures LineStep(state, line, number) == Failed(state, number) <==>
      !(state.active.InPolicy? && RedirectRule(line, number).Some?)
    ensures LineStep(state, line, number) != state
  {
    hide RedirectRule, LineStep;
    SemicolonLineIs(state, line, number);
    assert |Failed(state, number).parsed.errors| == |state.parsed.errors| + 1;
    if state.active.InPolicy? && RedirectRule(line, number).Some? {
      LongerIsOther(state, Last(state.parsed.sections), RedirectRule(line, number).value);
    }
  }

  lemma {:induction false} FindBehind(front: char, text: string, pattern: string)
    requires pattern != "" && front != pattern[0]
    ensures Find([front] + text, pattern) == if Find(text, pattern) < 0 then -1 else Find(text, pattern) + 1
  {
    DiffersAt([front] + text, pattern, 0);
    assert ([front] + text)[1..] == text;
  }

  lemma TypesBehind(path: string)
    requires HasTypes("; " + path)
    ensures HasTypes(path)
  {
    var text := "; " + path;
    var at := FindTypes(text, 0);
    if at < 2 {
      DiffersAt(text[at..], TYPES, 0);
    }
    assert text[at..] == path[at - 2..];
    assert TypesAt(path, at - 2);
  }

  /** A redirect that has been commented out is a live redirect of another path. */
  lemma CommentedRedirectIsRead(rule: ParsedRuleLine, number: nat)
    requires RuleIsPlain(rule) && NeedsTarget(rule.action)
    ensures RedirectRule("; " + RuleText(rule), number) == Some(rule.(path := "; " + rule.path, lineNumber := number))
  {
    hide Find, HasTypes, PlainTypes, TypesText, RedirectRule, BeginsOption, Trim;
    var other := rule.(path := "; " + rule.path);
    if HasTypes(other.path) {
      TypesBehind(rule.path);
    }
    SemicolonIsNoOption(other.path);
    assert other.path == [';'] + ([' '] + rule.path);
    FindBehind(' ', rule.path, ARROW);
    FindBehind(';', [' '] + rule.path, ARROW);
    FindBehind(' ', rule.path, DYNAMIC_ARROW);
    FindBehind(';', [' '] + rule.path, DYNAMIC_ARROW);
    assert RuleText(other) == "; " + RuleText(rule);
    SemicolonIsNoOption(RuleText(other));
    RedirectRuleIsRead(other, number);
  }

  // ---------------------------------------------------------------------------
  // Whole texts

  /** Where the parser stands before a line. */
  function Before(text: string, i: nat): (state: ParseState)
    requires i <= |Lines(text)|
    ensures WellPlaced(state)
  {
    Fold(START, Lines(text)[..i], 1)
  }

  lemma {:induction false} FoldSplits(state: ParseState, lines: seq<string>, number: nat, i: nat)
    requires WellPlaced(state) && i <= |lines|
    ensures Fold(state, lines, number) == Fold(Fold(state, lines[..i], number), lines[i..], number + i)
    decreases lines
  {
    hide LineStep, Trim, WithoutReturn;
    if i > 0 {
      assert lines[..i][1..] == lines[1..][..i - 1] && lines[1..][i - 1..] == lines[i..];
      assert lines[..i][0] == lines[0];
      FoldSplits(LineStep(state, CleanLine(lines[0]), number), lines[1..], number + 1, i - 1);
    } else {
      assert lines[..0] == [] && lines[0..] == lines;
    }
  }

  /** A step keeps errors and rules, and can only add its own line to the errors. */
  ghost predicate Extends(after: ParseState, before: ParseState, number: nat) {
    && before.parsed.errors <= after.parsed.errors
    && (forall e :: e in after.parsed.errors ==> e in before.parsed.errors || e >= number)
    && RulesStay(after.parsed.sections, before.parsed.sections)
  }

  ghost predicate RulesStay(after: seq<ParsedSection>, before: seq<ParsedSection>) {
    && |after| >= |before|
    && forall k :: 0 <= k < |before| ==> before[k].rules <= after[k].rules
  }

  lemma PolicyLineKeepsRules(section: ParsedSection, line: string, number: nat)
    ensures PolicyLine(section, line, number).Some? ==> section.rules <= PolicyLine(section, line, number).value.rules
  {
    hide SetOption, ReadRule;
  }

  lemma StepExtends(state: ParseState, line: string, number: nat)
    requires WellPlaced(state)
    ensures Extends(LineStep(state, line, number), state, number)
  {
    hide PolicyLine, SubSectionName, Trim, AccessibleField, ExportField, SplitAssignment;
    if state.active.InPolicy? {
      PolicyLineKeepsRules(Last(state.parsed.sections), line, number);
    }
  }

  lemma ExtendsOn(last: ParseState, middle: ParseState, first: ParseState, number: nat)
    requires Extends(last, middle, number + 1) && Extends(middle, first, number)
    ensures Extends(last, first, number)
  {
  }

  lemma {:induction false} FoldExtends(state: ParseState, lines: seq<string>, number: nat)
    requires WellPlaced(state)
    ensures Extends(Fold(state, lines, number), state, number)
    decreases lines
  {
    hide LineStep, Trim, WithoutReturn, Extends;
    if lines != [] {
      var next := LineStep(state, CleanLine(lines[0]), number);
      StepExtends(state, CleanLine(lines[0]), number);
      FoldExtends(next, lines[1..], number + 1);
      ExtendsOn(Fold(state, lines, number), next, state, number);
    } else {
      ExtendsItself(state, number);
    }
  }

  lemma ExtendsItself(state: ParseState, number: nat)
    ensures Extends(state, state, number)
  {
  }

  ghost predicate HoldsRule(parsed: ParsedRules, rule: ParsedRuleLine) {
    exists k :: 0 <= k < |parsed.sections| && rule in parsed.sections[k].rules
  }

  /** Errors are never taken back, and the checks at the end only add to them. */
  lemma ErrorsStay(state: ParseState, lines: seq<string>, number: nat)
    requires WellPlaced(state)
    ensures state.parsed.errors <= Validated(Fold(state, lines, number).parsed).errors
  {
    hide Fold, MissingModes, AccessibleErrors, ExportErrors;
    FoldExtends(state, lines, number);
  }

  /** In any text, a line that begins with `;` is a rule of the parsed policy, if it stands in a package section and
    reads as a redirect, and an error otherwise. */
  lemma SemicolonIsNoComment(text: string, i: nat)
    requires i < |Lines(text)| && IsSemicolonLine(CleanLine(Lines(text)[i]))
    ensures var rule := RedirectRule(CleanLine(Lines(text)[i]), i + 1);
      var live := Before(text, i).active.InPolicy? && rule.Some?;
      && (i + 1 in Fold(START, Lines(text), 1).parsed.errors <==> !live)
      && (live ==> HoldsRule(Parsed(text), rule.value))
      && (Accepted(Parsed(text)) ==> live)
  {
    hide Fold, Lines, LineStep, Trim, WithoutReturn, RedirectRule, Extends;
    var lines := Lines(text);
    var line := CleanLine(lines[i]);
    var before := Before(text, i);
    var next := LineStep(before, line, i + 1);
    FoldSplits(START, lines, 1, i);
    FoldTakesLine(before, lines[i..], i + 1);
    assert lines[i..][0] == lines[i] && lines[i..][1..] == lines[i + 1..];
    FoldExtends(next, lines[i + 1..], i + 2);
    OwnErrorIsNew(text, i);
    SemicolonLineIs(before, line, i + 1);
    SemicolonDecides(before, next, Fold(START, lines, 1), line, i + 1);
    ErrorsStay(next, lines[i + 1..], i + 2);
  }

  lemma FoldTakesLine(state: ParseState, lines: seq<string>, number: nat)
    requires WellPlaced(state) && lines != []
    ensures Fold(state, lines, number) == Fold(LineStep(state, CleanLine(lines[0]), number), lines[1..], number + 1)
  {
    hide LineStep, Trim, WithoutReturn;
  }

  ghost predicate ErrorsBelow(state: ParseState, number: nat) {
    forall e :: e in state.parsed.errors ==> e < number
  }

  lemma StepErrorIsOwn(state: ParseState, line: string, number: nat)
    requires WellPlaced(state) && ErrorsBelow(state, number)
    ensures ErrorsBelow(LineStep(state, line, number), number + 1)
  {
    hide PolicyLine, SubSectionName, Trim, AccessibleField, ExportField, SplitAssignment;
  }

  lemma {:induction false} FoldErrorsBelow(state: ParseState, lines: seq<string>, number: nat)
    requires WellPlaced(state) && ErrorsBelow(state, number)
    ensures ErrorsBelow(Fold(state, lines, number), number + |lines|)
    decreases lines
  {
    hide LineStep, Trim, WithoutReturn, ErrorsBelow;
    if lines != [] {
      StepErrorIsOwn(state, CleanLine(lines[0]), number);
      FoldErrorsBelow(LineStep(state, CleanLine(lines[0]), number), lines[1..], number + 1);
    }
  }

  lemma OwnErrorIsNew(text: string, i: nat)
    requires i < |Lines(text)|
    ensures i + 1 !in Before(text, i).parsed.errors
  {
    hide Fold, Lines;
    FoldErrorsBelow(START, Lines(text)[..i], 1);
  }

  lemma SemicolonDecides(before: ParseState, next: ParseState, end: ParseState, line: string, number: nat)
    requires WellPlaced(before) && IsSemicolonLine(line) && next == LineStep(before, line, number)
    requires number !in before.parsed.errors && Extends(end, next, number + 1)
    ensures var live := before.active.InPolicy? && RedirectRule(line, number).Some?;
      && (number in end.parsed.errors <==> !live)
      && (live ==> HoldsRule(end.parsed, RedirectRule(line, number).value))
  {
    hide RedirectRule, LineStep;
    SemicolonLineIs(before, line, number);
    if before.active.InPolicy? && RedirectRule(line, number).Some? {
      var k := |before.parsed.sections| - 1;
      assert RedirectRule(line, number).value in next.parsed.sections[k].rules;
      assert next.parsed.sections[k].rules <= end.parsed.sections[k].rules;
    } else {
      assert number in next.parsed.errors;
    }
  }

  // ---------------------------------------------------------------------------
  // Notes behind a line that would be accepted without them

  /** What follows the value on its line, white space in front included, up to the last visible character. */
  predicate IsNote(note: string) {
    note != "" && (note[0] == '#' || IsSpace(note[0])) && '#' in note && !IsSpace(note[|note| - 1])
  }

  lemma TrimOfNoted(text: string, note: string)
    requires text != "" && !IsSpace(text[|text| - 1]) && IsNote(note)
    ensures Trim(text + note) == Trim(text) + note
    ensures Trim(text) != "" && !IsSpace(Trim(text)[|Trim(text)| - 1])
  {
    hide TrimLeft, TrimRight, Trim;
    TrimLeftOfSolid(text);
    TrimLeftInFront(text, note);
    TrimOfSolid(text);
    TrimOfSolid(text + note);
  }

  // The beginning of a line is the same with a note.

  /** A word cannot begin the longer line alone if the line itself has a character that the word does not have. */
  lemma SameBeginning(line: string, note: string, word: string, c: char)
    requires c in line && c !in word
    ensures StartsWith(line + note, word) <==> StartsWith(line, word)
  {
    if |word| <= |line| {
      assert (line + note)[..|word|] == line[..|word|];
    } else {
      var i :| 0 <= i < |line| && line[i] == c;
      assert word[i] in word;
      DiffersAt(line + note, word, i);
    }
  }

  lemma SameOption(line: string, note: string, c: char)
    requires c in line && (c == '=' || c == '>')
    ensures BeginsMode(line + note) <==> BeginsMode(line)
    ensures BeginsEnabled(line + note) <==> BeginsEnabled(line)
    ensures BeginsDelete(line + note) <==> BeginsDelete(line)
    ensures BeginsMediaQuery(line + note) <==> BeginsMediaQuery(line)
    ensures BeginsTrash(line + note) <==> BeginsTrash(line)
  {
    hide StartsWith;
    SameBeginning(line, note, "mode", c);
    SameBeginning(line, note, "enabled", c);
    SameBeginning(line, note, "disabled", c);
    SameBeginning(line, note, "delete_existing", c);
    SameBeginning(line, note, "delete_dirs", c);
    SameBeginning(line, note, "media_query", c);
    SameBeginning(line, note, "trash", c);
    SameBeginning(line, note, "min_age_days", c);
    SameBeginning(line, note, "min_size_mb", c);
  }

  // Options

  lemma HashIsNoWord(value: string)
    requires '#' in value
    ensures ReadBool(value).None? && ReadDeleteDirMode(value).None? && ReadMediaQueryMode(value).None?
    ensures value != "whitelist" && value != "blacklist"
  {
  }

  lemma NotedIsNoInteger(value: string, note: string)
    requires value != "" && !IsSpace(value[|value| - 1]) && NUL !in value && IsNote(note)
    ensures ReadInteger(value + note).None?
  {
    hide Trim;
    TrimOfNoted(value, note);
    TrimIsInside(value);
    var front := Trim(value);
    var end := FirstIndex(front + note, NUL);
    assert forall i :: 0 <= i < |front| ==> (front + note)[i] == front[i];
    assert (front + note)[|front|] == note[0] != NUL;
    var whole := CString(front + note);
    assert whole[|front|] == note[0] && !IsDigit(note[0]);
    assert |whole| > 1 ==> whole[1..][|front| - 1] == note[0];
  }

  /** The line sets the trash directory, the only option that takes any text. */
  predicate SetsTrashDir(line: string) {
    !BeginsMode(line) && SplitAssignment(line).Some? && SplitAssignment(line).value.0 == "trash_dir"
  }

  lemma NotedAssignment(line: string, note: string)
    requires IsTrimmed(line) && IsNote(note) && SplitAssignment(line).Some? && SplitAssignment(line).value.1 != ""
    ensures var (key, value) := SplitAssignment(line).value;
      SplitAssignment(line + note) == Some((key, value + note)) && !IsSpace(value[|value| - 1])
      && forall c :: c in value ==> c in line
  {
    hide Trim, FirstIndex;
    var equal := FirstIndex(line, '=');
    NotedEqual(line, note);
    TrimIsInside(line[equal + 1..]);
    NotedRest(line, equal, note);
  }

  /** What stands behind a position of a trimmed line takes the note along. */
  lemma NotedRest(line: string, at: nat, note: string)
    requires at < |line| && !IsSpace(line[|line| - 1]) && IsNote(note) && Trim(line[at + 1..]) != ""
    ensures Trim(line[at + 1..] + note) == Trim(line[at + 1..]) + note
    ensures !IsSpace(Trim(line[at + 1..])[|Trim(line[at + 1..])| - 1])
  {
    hide Trim;
    var rest := line[at + 1..];
    TrimIsInside(rest);
    TrimOfNoted(rest, note);
  }

  lemma NotedEqual(line: string, note: string)
    requires '=' in line
    ensures var equal := FirstIndex(line, '=');
      FirstIndex(line + note, '=') == equal && (line + note)[..equal] == line[..equal]
      && (line + note)[equal + 1..] == line[equal + 1..] + note
  {
    var equal := FirstIndex(line, '=');
    assert forall j :: 0 <= j < |line| ==> (line + note)[j] == line[j];
  }

  lemma NotedMode(section: ParsedSection, line: string, note: string)
    requires IsTrimmed(line) && IsNote(note) && SetMode(section, line).Some?
    ensures SetMode(section, line + note) == None && '=' in line
  {
    hide Trim, FirstIndex;
    var equal := FirstIndex(line, '=');
    NotedEqual(line, note);
    NotedRest(line, equal, note);
    assert '#' in Trim(line[equal + 1..] + note);
  }

  lemma NotedValue(section: ParsedSection, key: string, value: string, note: string)
    requires IsNote(note) && value != "" && !IsSpace(value[|value| - 1]) && NUL !in value
    ensures SetEnabled(section, key, value + note) == None && SetDelete(section, key, value + note) == None
    ensures SetMediaQuery(section, key, value + note) == None
    ensures SetTrash(section, key, value + note) ==
      if key == "trash_dir" then Some(section.(trashDir := value + note)) else None
  {
    hide ReadInteger, ReadBool, ReadDeleteDirMode, ReadMediaQueryMode;
    assert '#' in value + note;
    HashIsNoWord(value + note);
    NotedIsNoInteger(value, note);
  }

  lemma NoValueSetsNothing(section: ParsedSection, key: string)
    ensures SetEnabled(section, key, "").None? && SetDelete(section, key, "").None?
    ensures SetMediaQuery(section, key, "").None? && SetTrash(section, key, "").None?
  {
    hide Trim;
    TrimIsInside("");
  }

  lemma OptionNeedsValue(section: ParsedSection, line: string)
    requires BeginsOption(line) && !BeginsMode(line) && SetOption(section, line).Some?
    ensures SplitAssignment(line).Some? && SplitAssignment(line).value.1 != "" && '=' in line
    ensures SetsTrashDir(line) ==> SetTrash(section, "trash_dir", SplitAssignment(line).value.1) == SetOption(section, line)
    ensures SetsTrashDir(line) ==> !BeginsEnabled(line) && !BeginsDelete(line) && !BeginsMediaQuery(line)
  {
    hide BeginsMode, BeginsEnabled, BeginsDelete, BeginsMediaQuery, BeginsTrash, SetTrash, Trim;
    if SplitAssignment(line).Some? {
      NoValueSetsNothing(section, SplitAssignment(line).value.0);
    }
  }

  /** With a note, an option is an error, except the trash directory, which keeps the note. */
  lemma NotedOption(section: ParsedSection, line: string, note: string, number: nat)
    requires IsTrimmed(line) && IsNote(note) && NUL !in line && BeginsOption(line)
    requires PolicyLine(section, line, number).Some?
    ensures PolicyLine(section, line + note, number) ==
      if SetsTrashDir(line)
      then Some(section.(trashDir := PolicyLine(section, line, number).value.trashDir + note)) else None
  {
    hide BeginsMode, BeginsEnabled, BeginsDelete, BeginsMediaQuery, BeginsTrash, SplitAssignment, SetMode, SetEnabled, SetDelete, SetMediaQuery, SetTrash;
    if BeginsMode(line) {
      NotedMode(section, line, note);
      SameOption(line, note, '=');
    } else {
      OptionNeedsValue(section, line);
      SameOption(line, note, '=');
      NotedAssignment(line, note);
      NotedValue(section, SplitAssignment(line).value.0, SplitAssignment(line).value.1, note);
      if SetsTrashDir(line) {
        TrashDirIs(section, SplitAssignment(line).value.1);
      }
    }
  }

  lemma TrashDirIs(section: ParsedSection, value: string)
    requires value != ""
    ensures SetTrash(section, "trash_dir", value) == Some(section.(trashDir := value))
  {
  }

  // Marked rules

  /** A marked rule takes the note into its path, or fails if the note brings a type marker. */
  lemma NotedMarkedRule(line: string, note: string, number: nat)
    requires IsTrimmed(line) && IsNote(note) && IsMarked(line) && MarkedRule(line, number).Some?
    ensures var rule := MarkedRule(line, number).value;
      MarkedRule(line + note, number) ==
        if HasTypes(rule.path + note) then None else Some(rule.(path := rule.path + note))
  {
    hide Trim, FindTypes;
    var rest := line[1..];
    assert (line + note)[1..] == rest + note;
    assert rest == "" ==> Trim(rest) == "" by {
      TrimIsInside(rest);
    }
    TrimOfNoted(rest, note);
  }

  // Redirect rules

  function FirstArrow(line: string): int {
    var arrow, alias := Find(line, ARROW), Find(line, DYNAMIC_ARROW);
    if arrow >= 0 && (alias < 0 || arrow < alias) then arrow else alias
  }

  /** What stands behind the arrow. */
  function RightOf(line: string): string
    requires 0 <= FirstArrow(line)
  {
    assert FirstArrow(line) + 2 <= |line|;
    Trim(line[FirstArrow(line) + 2..])
  }

  function WithFilter(rule: ParsedRuleLine, filter: TypeFilter): Option<ParsedRuleLine> {
    match filter
    case BadFilter => None
    case Filter(target, types) => Some(rule.(redirectTarget := target, extensions := types))
  }

  /** A note adds no arrow in front of, or across, the end of the line. */
  lemma NotedFind(line: string, note: string, arrow: string)
    requires IsNote(note) && (arrow == ARROW || arrow == DYNAMIC_ARROW)
    ensures Find(line, arrow) >= 0 ==> Find(line + note, arrow) == Find(line, arrow)
    ensures Find(line, arrow) < 0 ==> Find(line + note, arrow) < 0 || Find(line + note, arrow) >= |line|
  {
    hide StartsWith;
    var whole, at := line + note, Find(line, arrow);
    forall j | 0 <= j < |line| && (at < 0 || j < at) ensures !StartsWith(whole[j..], arrow) {
      NoArrowAcross(line, note, arrow, j);
    }
    if at >= 0 {
      ArrowStaysAt(line, note, arrow, at);
    }
  }

  lemma ArrowStaysAt(line: string, note: string, arrow: string, at: nat)
    requires at <= |line| && StartsWith(line[at..], arrow)
    ensures StartsWith((line + note)[at..], arrow)
    ensures arrow != "" ==> at < |line|
  {
    assert (line + note)[at..][..|arrow|] == line[at..][..|arrow|];
  }

  lemma NoArrowAcross(line: string, note: string, arrow: string, j: nat)
    requires IsNote(note) && |arrow| == 2 && arrow[1] != '#' && !IsSpace(arrow[1]) && j < |line|
    requires !StartsWith(line[j..], arrow)
    ensures !StartsWith((line + note)[j..], arrow)
  {
    if j + 2 <= |line| {
      assert (line + note)[j..][..2] == line[j..][..2];
    } else {
      assert (line + note)[j..][1] == note[0];
      DiffersAt((line + note)[j..], arrow, 1);
    }
  }

  lemma NotedArrow(line: string, note: string)
    requires IsNote(note) && 0 <= FirstArrow(line)
    ensures FirstArrow(line + note) == FirstArrow(line) && FirstArrow(line) + 2 <= |line|
    ensures FirstArrow(line + note) == Find(line + note, DYNAMIC_ARROW) <==> FirstArrow(line) == Find(line, DYNAMIC_ARROW)
    ensures '>' in line
  {
    NotedFind(line, note, ARROW);
    NotedFind(line, note, DYNAMIC_ARROW);
    var at := FirstArrow(line);
    assert line[at..][..2][1] == line[at + 1] == '>';
  }

  /** A redirect with a note reads as before up to its arrow; the note goes to the target and its types. */
  lemma NotedRedirect(line: string, note: string, number: nat)
    requires IsTrimmed(line) && IsNote(note) && RedirectRule(line, number).Some?
    ensures 0 <= FirstArrow(line)
    ensures RedirectRule(line + note, number) ==
      WithFilter(RedirectRule(line, number).value, ParseTypeFilter(RightOf(line) + note))
    ensures WithFilter(RedirectRule(line, number).value, ParseTypeFilter(RightOf(line))) == RedirectRule(line, number)
    ensures IsTrimmed(RightOf(line))
  {
    hide Find, FindTypes, Trim, ParseTypeFilter;
    var at := FirstArrow(line);
    NotedArrow(line, note);
    var rest := line[at + 2..];
    assert (line + note)[..at] == line[..at] && (line + note)[at + 2..] == rest + note;
    assert rest == "" ==> Trim(rest) == "" by {
      TrimIsInside(rest);
    }
    TrimOfNoted(rest, note);
    TrimIsTrimmed(rest);
  }

  // Types and targets with a note

  function Hashes(text: string): nat {
    if text == "" then 0 else (if text[0] == '#' then 1 else 0) + Hashes(text[1..])
  }

  function HashesOf(types: seq<string>): nat {
    if types == [] then 0 else Hashes(types[0]) + HashesOf(types[1..])
  }

  lemma {:induction false} HashesOfConcat(left: string, right: string)
    ensures Hashes(left + right) == Hashes(left) + Hashes(right)
  {
    if left == "" {
      assert left + right == right;
    } else {
      assert (left + right)[1..] == left[1..] + right;
      HashesOfConcat(left[1..], right);
    }
  }

  lemma {:induction false} NoHashes(text: string)
    requires '#' !in text
    ensures Hashes(text) == 0
  {
    if text != "" {
      NoHashes(text[1..]);
    }
  }

  lemma {:induction false} SomeHashes(text: string)
    requires '#' in text
    ensures Hashes(text) > 0
  {
    if text[0] != '#' {
      assert text == [text[0]] + text[1..];
      SomeHashes(text[1..]);
    }
  }

  lemma {:induction false} HashesOfLower(text: string)
    ensures Hashes(Lower(text)) == Hashes(text)
  {
    if text != "" {
      assert Lower(text)[1..] == Lower(text[1..]);
      HashesOfLower(text[1..]);
    }
  }

  lemma {:induction false} HashesOfTrimLeft(text: string)
    ensures Hashes(TrimLeft(text)) == Hashes(text)
  {
    if text != "" && IsSpace(text[0]) {
      HashesOfTrimLeft(text[1..]);
    }
  }

  lemma {:induction false} HashesOfTrimRight(text: string)
    ensures Hashes(TrimRight(text)) == Hashes(text)
  {
    if text != "" && IsSpace(text[|text| - 1]) {
      var front := text[..|text| - 1];
      assert text == front + [text[|text| - 1]];
      HashesOfConcat(front, [text[|text| - 1]]);
      NoHashes([text[|text| - 1]]);
      HashesOfTrimRight(front);
    }
  }

  lemma HashesOfType(piece: string)
    requires ReadType(piece).Some?
    ensures Hashes(ReadType(piece).value) == Hashes(piece)
  {
    hide Lower;
    HashesOfTrimLeft(piece);
    HashesOfTrimRight(TrimLeft(piece));
    var trimmed := Trim(piece);
    var token := if trimmed != "" && trimmed[0] == '.' then trimmed[1..] else trimmed;
    HashesOfLower(token);
  }

  lemma HashesAtComma(text: string, comma: nat)
    requires comma < |text| && text[comma] == ','
    ensures Hashes(text) == Hashes(text[..comma]) + Hashes(text[comma + 1..])
  {
    var rest := text[comma + 1..];
    assert text == text[..comma] + ([','] + rest);
    HashesOfConcat(text[..comma], [','] + rest);
    assert ([','] + rest)[1..] == rest;
  }

  lemma HashesOfCons(first: string, rest: seq<string>)
    ensures HashesOf([first] + rest) == Hashes(first) + HashesOf(rest)
  {
    assert ([first] + rest)[1..] == rest;
  }

  lemma HashesOfNone()
    ensures HashesOf([]) == 0
  {
  }

  /** Reading types loses no `#`. */
  lemma {:induction false} HashesOfTypes(text: string)
    requires ReadTypes(text).Some?
    ensures HashesOf(ReadTypes(text).value) == Hashes(text)
    decreases |text|
  {
    hide ReadType, Hashes, HashesOf;
    if text == "" {
      HashesOfNone();
      NoHashes("");
    } else {
      var comma := FirstIndex(text, ',');
      if comma < 0 {
        HashesOfType(text);
        HashesOfCons(ReadType(text).value, []);
        HashesOfNone();
        assert [ReadType(text).value] + [] == [ReadType(text).value];
      } else {
        HashesOfType(text[..comma]);
        HashesOfTypes(text[comma + 1..]);
        HashesAtComma(text, comma);
        HashesOfCons(ReadType(text[..comma]).value, ReadTypes(text[comma + 1..]).value);
      }
    }
  }

  /** A type marker that ends before the note is found where it was. */
  lemma NotedTypes(right: string, note: string)
    requires IsNote(note)
    ensures FindTypes(right, 0) >= 0 ==> FindTypes(right + note, 0) == FindTypes(right, 0)
    ensures FindTypes(right, 0) < 0 ==> FindTypes(right + note, 0) < 0 || FindTypes(right + note, 0) >= |right|
  {
    var whole, at := right + note, FindTypes(right, 0);
    forall j | 0 <= j < |right| && (at < 0 || j < at) ensures !TypesAt(whole, j) {
      NoTypesAcross(right, note, j);
    }
    if at >= 0 {
      assert whole[at..][..|TYPES|] == right[at..][..|TYPES|];
      FindTypesIs(whole, 0, at);
    }
  }

  lemma NoTypesAcross(right: string, note: string, j: nat)
    requires IsNote(note) && j < |right| && !TypesAt(right, j)
    ensures !TypesAt(right + note, j)
  {
    var whole := right + note;
    if j + |TYPES| <= |right| {
      assert whole[j..][..|TYPES|] == right[j..][..|TYPES|];
    } else {
      assert whole[j..][|right| - j] == note[0];
      assert TYPES[|right| - j] != '#' && !IsSpace(TYPES[|right| - j]);
      DiffersAt(whole[j..], TYPES, |right| - j);
    }
  }

  /** Behind a target without types, the note goes to the target, unless it brings a type marker of its own; behind
    types, it goes to the types. The result is never the one without the note. */
  lemma NotedFilter(right: string, note: string)
    requires IsTrimmed(right) && IsNote(note) && ParseTypeFilter(right).Filter?
    ensures ParseTypeFilter(right + note) != ParseTypeFilter(right)
    ensures ParseTypeFilter(right).types == [] && !HasTypes(right + note) ==>
      ParseTypeFilter(right + note) == Filter(ParseTypeFilter(right).path + note, [])
    ensures ParseTypeFilter(right).types != [] && ParseTypeFilter(right + note).Filter? ==>
      ParseTypeFilter(right + note).path == ParseTypeFilter(right).path
  {
    hide ParseTypeFilter, HasTypes;
    if HasTypes(right) {
      NotedTypeList(right, note);
    } else {
      NotedTarget(right, note);
    }
  }

  lemma NotedTarget(right: string, note: string)
    requires IsTrimmed(right) && IsNote(note) && !HasTypes(right)
    ensures ParseTypeFilter(right) == Filter(right, []) && ParseTypeFilter(right + note) != ParseTypeFilter(right)
    ensures !HasTypes(right + note) ==> ParseTypeFilter(right + note) == Filter(right + note, [])
  {
    hide FindTypes, ReadTypes, Trim;
    TrimOfTrimmed(right);
    TrimOfTrimmed(right + note);
    assert |right + note| > |right|;
  }

  lemma NotedTypeList(right: string, note: string)
    requires IsTrimmed(right) && IsNote(note) && HasTypes(right) && ParseTypeFilter(right).Filter?
    ensures ParseTypeFilter(right).types != [] && ParseTypeFilter(right + note) != ParseTypeFilter(right)
    ensures ParseTypeFilter(right + note).Filter? ==> ParseTypeFilter(right + note).path == ParseTypeFilter(right).path
  {
    hide FindTypes, ReadTypes, Trim, StartsWith;
    NotedTypes(right, note);
    var at := FindTypes(right, 0);
    MarkerFits(right, at);
    assert (right + note)[..at] == right[..at];
    NotedList(right, at + |TYPES|, note);
    var list := Trim(right[at + |TYPES|..]);
    if ReadTypes(list + note).Some? {
      NotedListDiffers(list, note);
    }
  }

  lemma NotedList(right: string, from: nat, note: string)
    requires from <= |right| && right != "" && !IsSpace(right[|right| - 1]) && IsNote(note) && Trim(right[from..]) != ""
    ensures (right + note)[from..] == right[from..] + note && Trim(right[from..] + note) == Trim(right[from..]) + note
  {
    hide Trim;
    TrimIsInside(right[from..]);
    TrimOfNoted(right[from..], note);
  }

  lemma MarkerFits(text: string, at: nat)
    requires at <= |text| && TypesAt(text, at)
    ensures at + |TYPES| <= |text|
  {
  }

  lemma NotedListDiffers(list: string, note: string)
    requires ReadTypes(list).Some? && ReadTypes(list + note).Some? && IsNote(note)
    ensures ReadTypes(list + note) != ReadTypes(list)
  {
    hide ReadTypes, Hashes, HashesOf;
    HashesOfTypes(list);
    HashesOfTypes(list + note);
    HashesOfConcat(list, note);
    SomeHashes(note);
  }

  // ---------------------------------------------------------------------------
  // Notes behind any line

  lemma RedirectLineHasArrow(line: string, number: nat)
    requires RedirectRule(line, number).Some?
    ensures '>' in line
  {
    hide FindTypes, Trim, ParseTypeFilter;
    var arrow, alias := Find(line, ARROW), Find(line, DYNAMIC_ARROW);
    var at := if arrow >= 0 && (alias < 0 || arrow < alias) then arrow else alias;
    assert line[at..][..2][1] == line[at + 1] == '>';
  }

  lemma NotedRule(line: string, note: string, number: nat)
    requires IsTrimmed(line) && IsNote(note) && ReadRule(line, number).Some? && !BeginsOption(line)
    ensures !BeginsOption(line + note) && IsMarked(line + note) == IsMarked(line)
    ensures ReadRule(line + note, number) != ReadRule(line, number)
  {
    hide Find, FindTypes, Trim, ParseTypeFilter, RedirectRule, MarkedRule, StartsWith, BeginsOption;
    if IsMarked(line) {
      MarkedLineIsNoOption(line + note);
      NotedMarkedRule(line, note, number);
    } else {
      RedirectLineHasArrow(line, number);
      NoOptionWithNote(line, note);
      NotedRedirect(line, note, number);
      NotedFilter(RightOf(line), note);
      FilterTells(RedirectRule(line, number).value, ParseTypeFilter(RightOf(line)), ParseTypeFilter(RightOf(line) + note));
    }
  }

  lemma FilterTells(rule: ParsedRuleLine, one: TypeFilter, two: TypeFilter)
    requires one != two
    ensures WithFilter(rule, one) != WithFilter(rule, two)
  {
  }

  lemma NoOptionWithNote(line: string, note: string)
    requires '>' in line && !BeginsOption(line)
    ensures !BeginsOption(line + note)
  {
    hide BeginsMode, BeginsEnabled, BeginsDelete, BeginsMediaQuery, BeginsTrash;
    SameOption(line, note, '>');
  }

  /** Whatever line of a package section is accepted, with a note behind it it is not read as without the note. */
  lemma NoteIsNoComment(section: ParsedSection, line: string, note: string, number: nat)
    requires IsTrimmed(line) && IsNote(note) && NUL !in line && PolicyLine(section, line, number).Some?
    ensures PolicyLine(section, line + note, number) != PolicyLine(section, line, number)
  {
    hide BeginsOption, SetOption, ReadRule, SetsTrashDir;
    if BeginsOption(line) {
      NotedOption(section, line, note, number);
      var dir := PolicyLine(section, line, number).value.trashDir;
      assert |dir + note| > |dir|;
    } else {
      NotedRule(line, note, number);
      RuleTells(section, ReadRule(line, number).value, ReadRule(line + note, number));
    }
  }

  lemma RuleTells(section: ParsedSection, rule: ParsedRuleLine, other: Option<ParsedRuleLine>)
    requires other != Some(rule)
    ensures other.Some? ==> section.(rules := section.rules + [other.value]) != section.(rules := section.rules + [rule])
  {
    if other.Some? {
      assert (section.rules + [other.value])[|section.rules|] == other.value;
      assert (section.rules + [rule])[|section.rules|] == rule;
    }
  }
}
