/** Rule files written out again, line by line, and read back by the parser (native/rule_engine.cpp, lines 997-1309). */
module RuleRenderer {
  import opened Options
  import opened Text
  import opened Rules
  import opened PathMapper
  import opened ParsedRules
  import opened RuleCompiler
  import opened LineSyntax
  import opened RuleParser
  import opened ParserProperties

  // ---------------------------------------------------------------------------
  // Numbers

  function Digit(n: nat): char
    requires n < 10
  {
    ('0' as int + n) as char
  }

  function Natural(n: int): nat {
    if n < 0 then 0 else n
  }

  function Digits(n: nat): (digits: string)
    ensures digits != "" && AllDigits(digits)
  {
    if n < 10 then [Digit(n)] else Digits(n / 10) + [Digit(n % 10)]
  }

  lemma {:induction false} ValueOfDigits(n: nat)
    ensures DigitsValue(Digits(n)) == n
  {
    if n < 10 {
      assert [Digit(n)][..0] == "";
      assert DigitsValue("") == 0;
    } else {
      ValueOfDigits(n / 10);
      assert Digits(n)[..|Digits(n)| - 1] == Digits(n / 10);
    }
  }

  lemma IntegerOfDigits(n: nat)
    requires n <= MAX_LONG
    ensures ReadInteger(Digits(n)) == Some(n)
  {
    TrimOfTrimmed(Digits(n));
    ValueOfDigits(n);
  }

  // ---------------------------------------------------------------------------
  // Assignments

  function Assignment(key: string, value: string): string {
    key + " = " + value
  }

  lemma EqualOfAssignment(key: string, value: string)
    requires IsTrimmed(key) && '=' !in key && IsTrimmed(value)
    ensures FirstIndex(Assignment(key, value), '=') == |key| + 1
    ensures Trim(Assignment(key, value)[..|key| + 1]) == key
    ensures Trim(Assignment(key, value)[|key| + 2..]) == value
  {
    var line := Assignment(key, value);
    assert forall j :: 0 <= j < |key| ==> line[j] == key[j];
    assert line[|key|] == ' ' && line[|key| + 1] == '=';
    assert line[..|key| + 1] == "" + key + " ";
    assert line[|key| + 2..] == " " + value + "";
    TrimOfPadded("", key, " ");
    TrimOfPadded(" ", value, "");
  }

  lemma SplitOfAssignment(key: string, value: string)
    requires IsTrimmed(key) && '=' !in key && IsTrimmed(value)
    ensures SplitAssignment(Assignment(key, value)) == Some((key, value))
  {
    EqualOfAssignment(key, value);
  }

  // ---------------------------------------------------------------------------
  // The beginnings of option lines

  lemma BeginsWith(key: string, rest: string)
    ensures StartsWith(key + rest, key)
  {
    assert (key + rest)[..|key|] == key;
  }

  lemma NotMode(line: string)
    requires line == "" || line[0] != 'm' || (|line| > 1 && line[1] != 'o')
    ensures !BeginsMode(line)
  {
    DiffersAt(line, "mode", if line == "" || line[0] != 'm' then 0 else 1);
  }

  lemma NotEnabled(line: string)
    requires line == "" || (line[0] != 'e' && (line[0] != 'd' || (|line| > 1 && line[1] != 'i')))
    ensures !BeginsEnabled(line)
  {
    DiffersAt(line, "enabled", 0);
    DiffersAt(line, "disabled", if line == "" || line[0] != 'd' then 0 else 1);
  }

  lemma NotDelete(line: string)
    requires line == "" || line[0] != 'd'
    ensures !BeginsDelete(line)
  {
    DiffersAt(line, "delete_existing", 0);
    DiffersAt(line, "delete_dirs", 0);
  }

  lemma NotMediaQuery(line: string)
    requires line == "" || line[0] != 'm' || (|line| > 1 && line[1] != 'e')
    ensures !BeginsMediaQuery(line)
  {
    DiffersAt(line, "media_query", if line == "" || line[0] != 'm' then 0 else 1);
  }

  lemma NotTrash(line: string)
    requires line == "" || (line[0] != 't' && line[0] != 'm')
    ensures !BeginsTrash(line)
  {
    DiffersAt(line, "trash", 0);
    DiffersAt(line, "min_age_days", 0);
    DiffersAt(line, "min_size_mb", 0);
  }

  lemma ModeLine(section: ParsedSection, value: string, number: nat)
    requires value == "whitelist" || value == "blacklist"
    ensures PolicyLine(section, Assignment("mode", value), number) ==
      Some(section.(mode := if value == "whitelist" then Whitelist else Blacklist, hasMode := true))
  {
    var line := Assignment("mode", value);
    assert line == "mode" + (" = " + value);
    BeginsWith("mode", " = " + value);
    EqualOfAssignment("mode", value);
  }

  lemma EnabledLine(section: ParsedSection, value: string, number: nat)
    requires IsTrimmed(value)
    ensures PolicyLine(section, Assignment("enabled", value), number) == SetEnabled(section, "enabled", value)
  {
    var line := Assignment("enabled", value);
    assert line == "enabled" + (" = " + value);
    BeginsWith("enabled", " = " + value);
    NotMode(line);
    SplitOfAssignment("enabled", value);
  }

  lemma DeleteLine(section: ParsedSection, key: string, value: string, number: nat)
    requires key == "delete_existing" || key == "delete_dirs"
    requires IsTrimmed(value)
    ensures PolicyLine(section, Assignment(key, value), number) == SetDelete(section, key, value)
  {
    var line := Assignment(key, value);
    assert line == key + (" = " + value);
    BeginsWith(key, " = " + value);
    NotMode(line);
    NotEnabled(line);
    SplitOfAssignment(key, value);
  }

  lemma MediaQueryLine(section: ParsedSection, value: string, number: nat)
    requires IsTrimmed(value)
    ensures PolicyLine(section, Assignment("media_query", value), number) == SetMediaQuery(section, "media_query", value)
  {
    var line := Assignment("media_query", value);
    assert line == "media_query" + (" = " + value);
    BeginsWith("media_query", " = " + value);
    NotMode(line);
    NotEnabled(line);
    NotDelete(line);
    SplitOfAssignment("media_query", value);
  }

  predicate IsTrashKey(key: string) {
    key == "trash" || key == "trash_redirect" || key == "trash_dir" || key == "min_age_days" || key == "min_size_mb"
  }

  lemma TrashLine(section: ParsedSection, key: string, value: string, number: nat)
    requires IsTrashKey(key) && IsTrimmed(value)
    ensures PolicyLine(section, Assignment(key, value), number) == SetTrash(section, key, value)
  {
    OnlyTrash(key, value);
    SplitOfAssignment(key, value);
  }

  lemma OnlyTrash(key: string, value: string)
    requires IsTrashKey(key)
    ensures BeginsTrash(Assignment(key, value)) && !BeginsMode(Assignment(key, value))
    ensures !BeginsEnabled(Assignment(key, value)) && !BeginsDelete(Assignment(key, value))
    ensures !BeginsMediaQuery(Assignment(key, value))
  {
    hide StartsWith;
    var line := Assignment(key, value);
    assert line == key + (" = " + value);
    TrashKeyBegins(key, " = " + value);
    NotMode(line);
    NotEnabled(line);
    NotDelete(line);
    NotMediaQuery(line);
  }

  lemma TrashKeyBegins(key: string, rest: string)
    requires IsTrashKey(key)
    ensures BeginsTrash(key + rest)
  {
    if key == "min_age_days" || key == "min_size_mb" {
      BeginsWith(key, rest);
    } else {
      assert key == "trash" + key[5..];
      assert key + rest == "trash" + (key[5..] + rest);
      BeginsWith("trash", key[5..] + rest);
    }
  }

  // ---------------------------------------------------------------------------
  // Runs of lines

  /** After the lines, the parser goes on from the end state as it would have gone on from the start. */
  ghost predicate Leads(start: ParseState, lines: seq<string>, number: nat, end: ParseState) {
    && WellPlaced(start) && WellPlaced(end)
    && forall more :: GoesOn(start, lines, number, end, more)
  }

  ghost predicate GoesOn(start: ParseState, lines: seq<string>, number: nat, end: ParseState, more: seq<string>)
    requires WellPlaced(start) && WellPlaced(end)
  {
    Fold(start, lines + more, number) == Fold(end, more, number + |lines|)
  }

  lemma LeadsOn(start: ParseState, first: seq<string>, number: nat, middle: ParseState, second: seq<string>, end: ParseState)
    requires Leads(start, first, number, middle) && Leads(middle, second, number + |first|, end)
    ensures Leads(start, first + second, number, end)
  {
    hide Fold;
    forall more ensures GoesOn(start, first + second, number, end, more) {
      assert (first + second) + more == first + (second + more);
      assert GoesOn(start, first, number, middle, second + more);
      assert GoesOn(middle, second, number + |first|, end, more);
    }
  }

  lemma LeadsNowhere(start: ParseState, number: nat)
    requires WellPlaced(start)
    ensures Leads(start, [], number, start)
  {
    forall more: seq<string> ensures GoesOn(start, [], number, start, more) {
      assert [] + more == more;
    }
  }

  lemma EndOfLeads(start: ParseState, lines: seq<string>, number: nat, end: ParseState)
    requires Leads(start, lines, number, end)
    ensures Fold(start, lines, number) == end
  {
    assert lines + [] == lines;
    assert GoesOn(start, lines, number, end, []);
  }

  /** A line that is neither blank nor a comment nor a section header. */
  predicate IsBodyLine(line: string) {
    IsTrimmed(line) && line[0] != '#' && !IsHeader(line)
  }

  lemma BodyLineLeads(start: ParseState, line: string, number: nat)
    requires WellPlaced(start) && IsBodyLine(line)
    ensures Leads(start, [line], number, BodyStep(start, line, number))
  {
    TrimDropsReturn(line);
    TrimOfTrimmed(line);
  }

  // ---------------------------------------------------------------------------
  // Package sections

  function BoolText(b: bool): string {
    if b then "true" else "false"
  }

  function ModeText(mode: PolicyMode): string {
    match mode case Whitelist => "whitelist" case Blacklist => "blacklist"
  }

  function DeleteDirText(mode: DeleteDirMode): string {
    match mode case KeepDirs => "none" case EmptyDirs => "empty" case Recursive => "recursive"
  }

  function MediaQueryText(mode: MediaQueryMode): string {
    match mode case AutoQuery => "auto" case EnableQuery => "true" case DisableQuery => "false"
  }

  function ModeLines(s: ParsedSection): seq<string> {
    [Assignment("enabled", BoolText(s.enabled))] + if s.hasMode then [Assignment("mode", ModeText(s.mode))] else []
  }

  function DeleteLines(s: ParsedSection): seq<string> {
    [Assignment("delete_existing", BoolText(s.deleteExisting)), Assignment("delete_dirs", DeleteDirText(s.deleteDirMode)),
     Assignment("media_query", MediaQueryText(s.mediaQuery))]
  }

  /** The state inside a package section that follows what was parsed before. */
  function Within(before: ParseState, s: ParsedSection): (state: ParseState)
    ensures WellPlaced(state)
  {
    before.(active := InPolicy, parsed := before.parsed.(sections := before.parsed.sections + [s]))
  }

  lemma PolicyLineLeads(before: ParseState, s: ParsedSection, line: string, number: nat, next: ParsedSection)
    requires IsBodyLine(line) && PolicyLine(s, line, number) == Some(next)
    ensures Leads(Within(before, s), [line], number, Within(before, next))
  {
    var sections := before.parsed.sections;
    assert (sections + [s])[..|sections|] == sections;
    BodyLineLeads(Within(before, s), line, number);
  }

  lemma OptionLeads(before: ParseState, s: ParsedSection, key: string, value: string, number: nat, next: ParsedSection)
    requires IsTrimmed(key) && IsTrimmed(value) && key[0] != '#' && key[0] != '['
    requires PolicyLine(s, Assignment(key, value), number) == Some(next)
    ensures Leads(Within(before, s), [Assignment(key, value)], number, Within(before, next))
  {
    PolicyLineLeads(before, s, Assignment(key, value), number, next);
  }

  // One lemma for every option.

  lemma EnabledLeads(before: ParseState, s: ParsedSection, enabled: bool, number: nat)
    ensures Leads(Within(before, s), [Assignment("enabled", BoolText(enabled))], number, Within(before, s.(enabled := enabled)))
  {
    EnabledLine(s, BoolText(enabled), number);
    OptionLeads(before, s, "enabled", BoolText(enabled), number, s.(enabled := enabled));
  }

  lemma ModeLeads(before: ParseState, s: ParsedSection, mode: PolicyMode, number: nat)
    ensures Leads(Within(before, s), [Assignment("mode", ModeText(mode))], number,
                  Within(before, s.(hasMode := true, mode := mode)))
  {
    ModeLine(s, ModeText(mode), number);
    OptionLeads(before, s, "mode", ModeText(mode), number, s.(hasMode := true, mode := mode));
  }

  lemma DeleteExistingLeads(before: ParseState, s: ParsedSection, flag: bool, number: nat)
    ensures Leads(Within(before, s), [Assignment("delete_existing", BoolText(flag))], number,
                  Within(before, s.(deleteExisting := flag)))
  {
    DeleteLine(s, "delete_existing", BoolText(flag), number);
    OptionLeads(before, s, "delete_existing", BoolText(flag), number, s.(deleteExisting := flag));
  }

  lemma DirModeIsRead(mode: DeleteDirMode)
    ensures ReadDeleteDirMode(DeleteDirText(mode)) == Some(mode) && IsTrimmed(DeleteDirText(mode))
  {
  }

  lemma DeleteDirsLeads(before: ParseState, s: ParsedSection, mode: DeleteDirMode, number: nat)
    ensures Leads(Within(before, s), [Assignment("delete_dirs", DeleteDirText(mode))], number,
                  Within(before, s.(deleteDirMode := mode)))
  {
    DirModeIsRead(mode);
    hide ReadDeleteDirMode, DeleteDirText, Leads;
    DeleteLine(s, "delete_dirs", DeleteDirText(mode), number);
    OptionLeads(before, s, "delete_dirs", DeleteDirText(mode), number, s.(deleteDirMode := mode));
  }

  lemma MediaModeIsRead(mode: MediaQueryMode)
    ensures ReadMediaQueryMode(MediaQueryText(mode)) == Some(mode) && IsTrimmed(MediaQueryText(mode))
  {
  }

  lemma MediaQueryLeads(before: ParseState, s: ParsedSection, mode: MediaQueryMode, number: nat)
    ensures Leads(Within(before, s), [Assignment("media_query", MediaQueryText(mode))], number,
                  Within(before, s.(mediaQuery := mode)))
  {
    MediaModeIsRead(mode);
    hide ReadMediaQueryMode, MediaQueryText, Leads;
    MediaQueryLine(s, MediaQueryText(mode), number);
    OptionLeads(before, s, "media_query", MediaQueryText(mode), number, s.(mediaQuery := mode));
  }

  lemma TrashSwitchLeads(before: ParseState, s: ParsedSection, flag: bool, number: nat)
    ensures Leads(Within(before, s), [Assignment("trash", BoolText(flag))], number, Within(before, s.(trashEnabled := flag)))
  {
    TrashLine(s, "trash", BoolText(flag), number);
    OptionLeads(before, s, "trash", BoolText(flag), number, s.(trashEnabled := flag));
  }

  lemma TrashRedirectLeads(before: ParseState, s: ParsedSection, flag: bool, number: nat)
    ensures Leads(Within(before, s), [Assignment("trash_redirect", BoolText(flag))], number,
                  Within(before, s.(trashOnRedirect := flag)))
  {
    TrashLine(s, "trash_redirect", BoolText(flag), number);
    OptionLeads(before, s, "trash_redirect", BoolText(flag), number, s.(trashOnRedirect := flag));
  }

  lemma TrashDirLeads(before: ParseState, s: ParsedSection, dir: string, number: nat)
    requires IsTrimmed(dir)
    ensures Leads(Within(before, s), [Assignment("trash_dir", dir)], number, Within(before, s.(trashDir := dir)))
  {
    TrashLine(s, "trash_dir", dir, number);
    OptionLeads(before, s, "trash_dir", dir, number, s.(trashDir := dir));
  }

  lemma SetMinAge(s: ParsedSection, value: string, days: nat)
    requires days < 0x8000_0000 && ReadInteger(value) == Some(days)
    ensures SetTrash(s, "min_age_days", value) == Some(s.(minAgeDays := days))
  {
  }

  lemma MinAgeLeads(before: ParseState, s: ParsedSection, days: nat, number: nat)
    requires days < 0x8000_0000
    ensures Leads(Within(before, s), [Assignment("min_age_days", Digits(days))], number, Within(before, s.(minAgeDays := days)))
  {
    var value := Digits(days);
    IntegerOfDigits(days);
    SetMinAge(s, value, days);
    TrashLine(s, "min_age_days", value, number);
    OptionLeads(before, s, "min_age_days", value, number, s.(minAgeDays := days));
  }

  lemma MinSizeLeads(before: ParseState, s: ParsedSection, mb: nat, number: nat)
    requires mb <= MAX_LONG
    ensures Leads(Within(before, s), [Assignment("min_size_mb", Digits(mb))], number, Within(before, s.(minSizeMb := mb)))
  {
    var value := Digits(mb);
    IntegerOfDigits(mb);
    TrashLine(s, "min_size_mb", value, number);
    OptionLeads(before, s, "min_size_mb", value, number, s.(minSizeMb := mb));
  }

  // The options of a section, group by group.

  lemma ModeLinesLead(before: ParseState, now: ParsedSection, s: ParsedSection, number: nat)
    requires s.hasMode || (!now.hasMode && s.mode == now.mode)
    ensures Leads(Within(before, now), ModeLines(s), number,
                  Within(before, now.(enabled := s.enabled, hasMode := s.hasMode, mode := s.mode)))
  {
    hide GoesOn;
    var next := now.(enabled := s.enabled);
    EnabledLeads(before, now, s.enabled, number);
    if s.hasMode {
      ModeLeads(before, next, s.mode, number + 1);
      LeadsOn(Within(before, now), [Assignment("enabled", BoolText(s.enabled))], number, Within(before, next),
              [Assignment("mode", ModeText(s.mode))], Within(before, next.(hasMode := true, mode := s.mode)));
    } else {
      assert ModeLines(s) == [Assignment("enabled", BoolText(s.enabled))];
    }
  }

  lemma DeleteLinesLead(before: ParseState, now: ParsedSection, s: ParsedSection, number: nat)
    ensures Leads(Within(before, now), DeleteLines(s), number,
                  Within(before, now.(deleteExisting := s.deleteExisting, deleteDirMode := s.deleteDirMode,
                                      mediaQuery := s.mediaQuery)))
  {
    hide GoesOn;
    var one := now.(deleteExisting := s.deleteExisting);
    var two := one.(deleteDirMode := s.deleteDirMode);
    var three := two.(mediaQuery := s.mediaQuery);
    DeleteExistingLeads(before, now, s.deleteExisting, number);
    DeleteDirsLeads(before, one, s.deleteDirMode, number + 1);
    MediaQueryLeads(before, two, s.mediaQuery, number + 2);
    ThreeLines(Within(before, now), Assignment("delete_existing", BoolText(s.deleteExisting)), number, Within(before, one),
               Assignment("delete_dirs", DeleteDirText(s.deleteDirMode)), Within(before, two),
               Assignment("media_query", MediaQueryText(s.mediaQuery)), Within(before, three));
  }

  lemma ThreeLines(start: ParseState, first: string, number: nat, one: ParseState, second: string, two: ParseState,
                   third: string, three: ParseState)
    requires Leads(start, [first], number, one) && Leads(one, [second], number + 1, two) && Leads(two, [third], number + 2, three)
    ensures Leads(start, [first, second, third], number, three)
  {
    hide GoesOn;
    LeadsOn(start, [first], number, one, [second], two);
    LeadsOn(start, [first] + [second], number, two, [third], three);
    assert [first, second, third] == [first] + [second] + [third];
  }

  lemma FourLines(start: ParseState, first: string, number: nat, one: ParseState, second: string, two: ParseState,
                  third: string, three: ParseState, fourth: string, four: ParseState)
    requires Leads(start, [first], number, one) && Leads(one, [second], number + 1, two) && Leads(two, [third], number + 2, three)
    requires Leads(three, [fourth], number + 3, four)
    ensures Leads(start, [first, second, third, fourth], number, four)
  {
    hide GoesOn;
    ThreeLines(start, first, number, one, second, two, third, three);
    LeadsOn(start, [first, second, third], number, three, [fourth], four);
    assert [first, second, third, fourth] == [first, second, third] + [fourth];
  }

  lemma FourGroups(start: ParseState, first: seq<string>, number: nat, one: ParseState, second: seq<string>, two: ParseState,
                   third: seq<string>, three: ParseState, fourth: seq<string>, four: ParseState)
    requires Leads(start, first, number, one) && Leads(one, second, number + |first|, two)
    requires Leads(two, third, number + |first| + |second|, three)
    requires Leads(three, fourth, number + |first| + |second| + |third|, four)
    ensures Leads(start, first + second + third + fourth, number, four)
  {
    hide GoesOn;
    LeadsOn(start, first, number, one, second, two);
    LeadsOn(start, first + second, number, two, third, three);
    LeadsOn(start, first + second + third, number, three, fourth, four);
  }

  function SwitchLines(s: ParsedSection): seq<string> {
    [Assignment("trash", BoolText(s.trashEnabled)), Assignment("trash_redirect", BoolText(s.trashOnRedirect)),
     Assignment("min_age_days", Digits(Natural(s.minAgeDays))), Assignment("min_size_mb", Digits(s.minSizeMb))]
  }

  lemma SwitchLinesLead(before: ParseState, now: ParsedSection, s: ParsedSection, number: nat)
    requires 0 <= s.minAgeDays < 0x8000_0000 && s.minSizeMb <= MAX_LONG
    ensures Leads(Within(before, now), SwitchLines(s), number,
                  Within(before, now.(trashEnabled := s.trashEnabled, trashOnRedirect := s.trashOnRedirect,
                                      minAgeDays := s.minAgeDays, minSizeMb := s.minSizeMb)))
  {
    hide GoesOn;
    var one := now.(trashEnabled := s.trashEnabled);
    var two := one.(trashOnRedirect := s.trashOnRedirect);
    var three := two.(minAgeDays := s.minAgeDays);
    var four := three.(minSizeMb := s.minSizeMb);
    TrashSwitchLeads(before, now, s.trashEnabled, number);
    TrashRedirectLeads(before, one, s.trashOnRedirect, number + 1);
    MinAgeLeads(before, two, Natural(s.minAgeDays), number + 2);
    MinSizeLeads(before, three, s.minSizeMb, number + 3);
    FourLines(Within(before, now), Assignment("trash", BoolText(s.trashEnabled)), number, Within(before, one),
              Assignment("trash_redirect", BoolText(s.trashOnRedirect)), Within(before, two),
              Assignment("min_age_days", Digits(Natural(s.minAgeDays))), Within(before, three),
              Assignment("min_size_mb", Digits(s.minSizeMb)), Within(before, four));
  }

  function DirLines(s: ParsedSection): seq<string> {
    if s.trashDir == "" then [] else [Assignment("trash_dir", s.trashDir)]
  }

  lemma DirLinesLead(before: ParseState, now: ParsedSection, s: ParsedSection, number: nat)
    requires s.trashDir == "" || IsTrimmed(s.trashDir)
    requires now.trashDir == ""
    ensures Leads(Within(before, now), DirLines(s), number, Within(before, now.(trashDir := s.trashDir)))
  {
    hide GoesOn;
    if s.trashDir == "" {
      LeadsNowhere(Within(before, now), number);
    } else {
      TrashDirLeads(before, now, s.trashDir, number);
    }
  }

  function OptionLines(s: ParsedSection): seq<string> {
    ModeLines(s) + DeleteLines(s) + SwitchLines(s) + DirLines(s)
  }

  /** What an option can hold, for the text to hold it too. */
  predicate OptionsCanBeWritten(s: ParsedSection) {
    && (s.hasMode || s.mode == Blacklist)
    && 0 <= s.minAgeDays < 0x8000_0000 && s.minSizeMb <= MAX_LONG
    && (s.trashDir == "" || IsTrimmed(s.trashDir))
  }

  lemma OptionLinesLead(before: ParseState, s: ParsedSection, number: nat)
    requires OptionsCanBeWritten(s)
    ensures Leads(Within(before, NewSection(s.packageName)), OptionLines(s), number, Within(before, s.(rules := [])))
  {
    hide GoesOn;
    var start, half, end := Within(before, NewSection(s.packageName)), Within(before, HalfSet(s)), Within(before, s.(rules := []));
    var first, second := ModeLines(s) + DeleteLines(s), SwitchLines(s) + DirLines(s);
    FirstOptionsLead(before, s, number);
    LastOptionsLead(before, s, number + |first|);
    LeadsOn(start, first, number, half, second, end);
    assert OptionLines(s) == first + second;
  }

  /** The section after the first half of its options. */
  function HalfSet(s: ParsedSection): ParsedSection {
    NewSection(s.packageName).(enabled := s.enabled, hasMode := s.hasMode, mode := s.mode,
      deleteExisting := s.deleteExisting, deleteDirMode := s.deleteDirMode, mediaQuery := s.mediaQuery)
  }

  lemma FirstOptionsLead(before: ParseState, s: ParsedSection, number: nat)
    requires s.hasMode || s.mode == Blacklist
    ensures Leads(Within(before, NewSection(s.packageName)), ModeLines(s) + DeleteLines(s), number, Within(before, HalfSet(s)))
  {
    hide GoesOn;
    var start := NewSection(s.packageName);
    var one := start.(enabled := s.enabled, hasMode := s.hasMode, mode := s.mode);
    ModeLinesLead(before, start, s, number);
    DeleteLinesLead(before, one, s, number + |ModeLines(s)|);
    LeadsOn(Within(before, start), ModeLines(s), number, Within(before, one), DeleteLines(s), Within(before, HalfSet(s)));
  }

  lemma LastOptionsLead(before: ParseState, s: ParsedSection, number: nat)
    requires OptionsCanBeWritten(s)
    ensures Leads(Within(before, HalfSet(s)), SwitchLines(s) + DirLines(s), number, Within(before, s.(rules := [])))
  {
    hide GoesOn;
    var start := HalfSet(s);
    var one := start.(trashEnabled := s.trashEnabled, trashOnRedirect := s.trashOnRedirect,
                      minAgeDays := s.minAgeDays, minSizeMb := s.minSizeMb);
    SwitchLinesLead(before, start, s, number);
    DirLinesLead(before, one, s, number + |SwitchLines(s)|);
    LeadsOn(Within(before, start), SwitchLines(s), number, Within(before, one), DirLines(s), Within(before, s.(rules := [])));
  }

  // ---------------------------------------------------------------------------
  // Rules

  function MarkOf(action: RuleAction): string
    requires !NeedsTarget(action)
  {
    match action case Allow => "+ " case Deny => "- " case Delete => "! "
  }

  function ArrowOf(action: RuleAction): string
    requires NeedsTarget(action)
  {
    if action == RedirectDynamic then DYNAMIC_ARROW else ARROW
  }

  function Listed(types: seq<string>): string
    requires types != []
  {
    if |types| == 1 then types[0] else types[0] + "," + Listed(types[1..])
  }

  function TypesText(types: seq<string>): string {
    if types == [] then "" else " " + TYPES + Listed(types)
  }

  function RuleText(rule: ParsedRuleLine): string {
    if NeedsTarget(rule.action)
    then rule.path + " " + ArrowOf(rule.action) + " " + rule.redirectTarget + TypesText(rule.extensions)
    else MarkOf(rule.action) + rule.path
  }

  /** A file type as the parser keeps it. */
  predicate PlainType(t: string) {
    IsTrimmed(t) && ',' !in t && t[0] != '.' && Lower(t) == t
  }

  predicate PlainTypes(types: seq<string>) {
    forall i :: 0 <= i < |types| ==> PlainType(types[i])
  }

  /** A redirected path that cannot be taken for an option, a marked rule or a comment, and has no arrow. */
  predicate PlainSource(path: string) {
    && IsTrimmed(path) && !BeginsOption(path) && path[0] !in {'+', '-', '!', '#'}
    && Find(path, ARROW) < 0 && Find(path, DYNAMIC_ARROW) < 0
  }

  /** Nothing in the rule can be taken for something else. */
  predicate RuleIsPlain(rule: ParsedRuleLine) {
    && RuleFits(rule)
    && (NeedsTarget(rule.action) ==>
          PlainSource(rule.path) && !HasTypes(rule.redirectTarget) && PlainTypes(rule.extensions)
          && !IsHeader(RuleText(rule)))
  }

  predicate RuleCanBeWritten(rule: ParsedRuleLine) {
    RuleIsPlain(rule) && '\n' !in RuleText(rule)
  }

  lemma {:induction false} TypesOfListed(types: seq<string>)
    requires types != [] && PlainTypes(types)
    ensures ReadTypes(Listed(types)) == Some(types)
  {
    hide ReadTypes, PlainType;
    assert PlainType(types[0]);
    if |types| > 1 {
      TypesOfListed(types[1..]);
      ReadFirstType(types[0], Listed(types[1..]), types[1..]);
      assert Listed(types) == types[0] + ("," + Listed(types[1..]));
      assert types == [types[0]] + types[1..];
    } else {
      ReadOneType(types[0]);
      assert types == [types[0]];
    }
  }

  lemma ReadOneType(only: string)
    requires PlainType(only)
    ensures ReadTypes(only) == Some([only])
  {
    assert [only] + [] == [only];
  }

  lemma FirstComma(first: string, rest: string)
    requires ',' !in first
    ensures FirstIndex(first + ("," + rest), ',') == |first|
    ensures (first + ("," + rest))[..|first|] == first && (first + ("," + rest))[|first| + 1..] == rest
  {
    var text := first + ("," + rest);
    assert forall j :: 0 <= j < |first| ==> text[j] == first[j];
    assert text[|first|] == ',';
  }

  lemma ReadFirstType(first: string, rest: string, types: seq<string>)
    requires PlainType(first) && ReadTypes(rest) == Some(types)
    ensures ReadTypes(first + ("," + rest)) == Some([first] + types)
  {
    FirstComma(first, rest);
  }

  lemma {:induction false} ListedIsTrimmed(types: seq<string>)
    requires types != [] && PlainTypes(types)
    ensures IsTrimmed(Listed(types))
  {
    assert PlainType(types[0]);
    if |types| > 1 {
      ListedIsTrimmed(types[1..]);
    }
  }

  /** The marker is found where it was written. */
  lemma TypesAreFound(target: string, rest: string)
    requires IsTrimmed(target) && !HasTypes(target)
    ensures FindTypes(target + (" " + TYPES + rest), 0) == |target| + 1
  {
    var text := target + (" " + TYPES + rest);
    forall j | 0 <= j < |target| + 1 ensures !TypesAt(text, j) {
      NoTypesBefore(target, " " + TYPES + rest, j);
    }
    assert text[|target| + 1..][..|TYPES|] == TYPES;
    FindTypesIs(text, 0, |target| + 1);
  }

  lemma NoTypesBefore(target: string, rest: string, j: nat)
    requires !HasTypes(target) && rest != "" && rest[0] == ' ' && j <= |target|
    ensures !TypesAt(target + rest, j)
  {
    var text := target + rest;
    if j + |TYPES| <= |target| {
      assert text[j..][..|TYPES|] == target[j..][..|TYPES|];
      assert !TypesAt(target, j);
    } else {
      assert text[j..][|target| - j] == ' ';
      DiffersAt(text[j..], TYPES, |target| - j);
    }
  }

  lemma FilterParts(target: string, list: string)
    requires IsTrimmed(target) && !HasTypes(target) && IsTrimmed(list)
    ensures var text := target + (" " + TYPES + list);
      FindTypes(text, 0) == |target| + 1 && Trim(text[..|target| + 1]) == target && Trim(text[|target| + 1 + |TYPES|..]) == list
  {
    var text := target + (" " + TYPES + list);
    TypesAreFound(target, list);
    assert text[..|target| + 1] == "" + target + " ";
    assert text[|target| + 1 + |TYPES|..] == list;
    TrimOfPadded("", target, " ");
    TrimOfTrimmed(list);
  }

  lemma FilterIsRead(target: string, types: seq<string>)
    requires IsTrimmed(target) && !HasTypes(target) && PlainTypes(types)
    ensures ParseTypeFilter(target + TypesText(types)) == Filter(target, types)
  {
    if types == [] {
      TrimOfTrimmed(target);
      assert target + TypesText(types) == target;
    } else {
      ListedIsTrimmed(types);
      FilterParts(target, Listed(types));
      TypesOfListed(types);
    }
  }

  // ---------------------------------------------------------------------------
  // Reading a rule back

  lemma MarkedRuleIsRead(rule: ParsedRuleLine, number: nat)
    requires RuleIsPlain(rule) && !NeedsTarget(rule.action)
    ensures IsMarked(RuleText(rule)) && MarkedRule(RuleText(rule), number) == Some(rule.(lineNumber := number))
  {
    var line := RuleText(rule);
    assert line[1..] == " " + rule.path + "";
    TrimOfPadded(" ", rule.path, "");
  }

  lemma MarkedLineIsNoOption(line: string)
    requires IsMarked(line)
    ensures !BeginsOption(line)
  {
    NotMode(line);
    NotEnabled(line);
    NotDelete(line);
    NotMediaQuery(line);
    NotTrash(line);
  }

  /** A word without white space that does not begin the path does not begin the path and a space either. */
  lemma NotBegun(path: string, rest: string, word: string)
    requires !StartsWith(path, word) && rest != "" && rest[0] == ' ' && ' ' !in word
    ensures !StartsWith(path + rest, word)
  {
    if |word| <= |path| {
      assert (path + rest)[..|word|] == path[..|word|];
    } else {
      assert word[|path|] in word;
      DiffersAt(path + rest, word, |path|);
    }
  }

  lemma PlainSourceIsNoOption(path: string, rest: string)
    requires !BeginsOption(path) && rest != "" && rest[0] == ' '
    ensures !BeginsOption(path + rest)
  {
    NotBegun(path, rest, "mode");
    NotBegun(path, rest, "enabled");
    NotBegun(path, rest, "disabled");
    NotBegun(path, rest, "delete_existing");
    NotBegun(path, rest, "delete_dirs");
    NotBegun(path, rest, "media_query");
    NotBegun(path, rest, "trash");
    NotBegun(path, rest, "min_age_days");
    NotBegun(path, rest, "min_size_mb");
  }

  /** An arrow that is not in the path is first found, if at all, after the space that follows the path. */
  lemma ArrowNotBefore(path: string, rest: string, arrow: string, j: nat)
    requires |arrow| == 2 && arrow[1] != ' ' && arrow[0] != ' '
    requires Find(path, arrow) < 0 && rest != "" && rest[0] == ' ' && j <= |path|
    ensures !StartsWith((path + rest)[j..], arrow)
  {
    var text := path + rest;
    if j + 2 <= |path| {
      assert text[j..][..2] == path[j..][..2];
      assert !StartsWith(path[j..], arrow);
    } else {
      assert text[j..][|path| - j] == ' ';
      DiffersAt(text[j..], arrow, |path| - j);
    }
  }

  lemma OwnArrowIsFound(path: string, arrow: string, rest: string)
    requires (arrow == ARROW || arrow == DYNAMIC_ARROW) && Find(path, arrow) < 0
    ensures Find(path + (" " + arrow + rest), arrow) == |path| + 1
  {
    hide StartsWith;
    var more := " " + arrow + rest;
    var text := path + more;
    forall j | 0 <= j < |path| + 1 ensures !StartsWith(text[j..], arrow) {
      ArrowNotBefore(path, more, arrow, j);
    }
    ArrowAfter(path, arrow, rest);
  }

  lemma ArrowAfter(path: string, arrow: string, rest: string)
    ensures StartsWith((path + (" " + arrow + rest))[|path| + 1..], arrow)
  {
    assert (path + (" " + arrow + rest))[|path| + 1..] == arrow + rest;
    BeginsWith(arrow, rest);
  }

  lemma OtherArrowIsLater(path: string, arrow: string, other: string, rest: string)
    requires (arrow == ARROW && other == DYNAMIC_ARROW) || (arrow == DYNAMIC_ARROW && other == ARROW)
    requires Find(path, other) < 0
    ensures Find(path + (" " + arrow + rest), other) < 0 || Find(path + (" " + arrow + rest), other) > |path| + 1
  {
    var text := path + (" " + arrow + rest);
    forall j | 0 <= j < |path| + 2 ensures !StartsWith(text[j..], other) {
      if j <= |path| {
        ArrowNotBefore(path, " " + arrow + rest, other, j);
      } else {
        assert text[j..][0] == arrow[0] != other[0];
        DiffersAt(text[j..], other, 0);
      }
    }
  }

  lemma RedirectParts(path: string, arrow: string, right: string)
    requires (arrow == ARROW || arrow == DYNAMIC_ARROW) && IsTrimmed(path) && IsTrimmed(right)
    ensures var line := path + (" " + arrow + (" " + right));
      Trim(line[..|path| + 1]) == path && Trim(line[|path| + 3..]) == right
  {
    var line := path + (" " + arrow + (" " + right));
    assert line[..|path| + 1] == "" + path + " ";
    assert line[|path| + 3..] == " " + right + "";
    TrimOfPadded("", path, " ");
    TrimOfPadded(" ", right, "");
  }

  lemma RightIsTrimmed(target: string, types: seq<string>)
    requires IsTrimmed(target) && PlainTypes(types)
    ensures IsTrimmed(target + TypesText(types))
  {
    if types != [] {
      ListedIsTrimmed(types);
    }
  }

  /** What is read from a line whose first arrow stands at a given place. */
  lemma RedirectAt(line: string, split: nat, action: RuleAction, path: string, right: string, number: nat)
    requires NeedsTarget(action) && Find(line, ArrowOf(action)) == split
    requires var other := Find(line, if action == Redirect then DYNAMIC_ARROW else ARROW); other < 0 || other > split
    requires split + 2 <= |line| && Trim(line[..split]) == path && Trim(line[split + 2..]) == right
    requires path != "" && right != "" && !HasTypes(path) && ParseTypeFilter(right).Filter?
    ensures RedirectRule(line, number) ==
      Some(ParsedRuleLine(action, path, ParseTypeFilter(right).path, ParseTypeFilter(right).types, number))
  {
    hide Find, FindTypes, Trim, ParseTypeFilter, StartsWith, TypesAt;
  }

  lemma RedirectText(rule: ParsedRuleLine)
    requires NeedsTarget(rule.action)
    ensures RuleText(rule) ==
      rule.path + (" " + ArrowOf(rule.action) + (" " + (rule.redirectTarget + TypesText(rule.extensions))))
  {
    hide TypesText;
  }

  lemma RedirectRuleIsRead(rule: ParsedRuleLine, number: nat)
    requires RuleIsPlain(rule) && NeedsTarget(rule.action)
    ensures RedirectRule(RuleText(rule), number) == Some(rule.(lineNumber := number))
  {
    hide Find, Trim, ParseTypeFilter, TypesText, PlainTypes, StartsWith, BeginsOption, IsHeader, RedirectRule, HasTypes;
    hide RuleText;
    var arrow, right := ArrowOf(rule.action), rule.redirectTarget + TypesText(rule.extensions);
    var line := rule.path + (" " + arrow + (" " + right));
    RedirectText(rule);
    OwnArrowIsFound(rule.path, arrow, " " + right);
    OtherArrowIsLater(rule.path, arrow, if arrow == ARROW then DYNAMIC_ARROW else ARROW, " " + right);
    RightIsTrimmed(rule.redirectTarget, rule.extensions);
    RedirectParts(rule.path, arrow, right);
    FilterIsRead(rule.redirectTarget, rule.extensions);
    RedirectAt(line, |rule.path| + 1, rule.action, rule.path, right, number);
  }

  lemma RuleLineIsRead(rule: ParsedRuleLine, section: ParsedSection, number: nat)
    requires RuleIsPlain(rule)
    ensures PolicyLine(section, RuleText(rule), number) ==
      Some(section.(rules := section.rules + [rule.(lineNumber := number)]))
  {
    hide PlainTypes, HasTypes, Find, IsHeader, BeginsOption, RedirectRule, MarkedRule, TypesText;
    var line := RuleText(rule);
    if NeedsTarget(rule.action) {
      var rest := " " + ArrowOf(rule.action) + " " + rule.redirectTarget + TypesText(rule.extensions);
      assert line == rule.path + rest;
      PlainSourceIsNoOption(rule.path, rest);
      assert line[0] == rule.path[0];
      RedirectRuleIsRead(rule, number);
    } else {
      MarkedRuleIsRead(rule, number);
      MarkedLineIsNoOption(line);
    }
  }

  lemma RuleTextIsBodyLine(rule: ParsedRuleLine)
    requires RuleIsPlain(rule)
    ensures IsBodyLine(RuleText(rule))
  {
    if NeedsTarget(rule.action) {
      RightIsTrimmed(rule.redirectTarget, rule.extensions);
    }
  }

  function RuleTexts(rules: seq<ParsedRuleLine>): seq<string> {
    seq(|rules|, i requires 0 <= i < |rules| => RuleText(rules[i]))
  }

  /** The rules with the numbers of their lines, when the first of them stands on the given one. */
  function NumberedRules(rules: seq<ParsedRuleLine>, number: nat): seq<ParsedRuleLine> {
    seq(|rules|, i requires 0 <= i < |rules| => rules[i].(lineNumber := number + i))
  }

  lemma RuleLeads(before: ParseState, now: ParsedSection, rule: ParsedRuleLine, number: nat)
    requires RuleIsPlain(rule)
    ensures Leads(Within(before, now), [RuleText(rule)], number,
                  Within(before, now.(rules := now.rules + [rule.(lineNumber := number)])))
  {
    hide GoesOn;
    RuleLineIsRead(rule, now, number);
    RuleTextIsBodyLine(rule);
    PolicyLineLeads(before, now, RuleText(rule), number, now.(rules := now.rules + [rule.(lineNumber := number)]));
  }

  lemma {:induction false} RulesLead(before: ParseState, now: ParsedSection, rules: seq<ParsedRuleLine>, number: nat)
    requires forall i :: 0 <= i < |rules| ==> RuleIsPlain(rules[i])
    ensures Leads(Within(before, now), RuleTexts(rules), number,
                  Within(before, now.(rules := now.rules + NumberedRules(rules, number))))
    decreases |rules|
  {
    hide GoesOn, RuleIsPlain, RuleText, WellPlaced;
    if rules == [] {
      assert now.rules + NumberedRules(rules, number) == now.rules;
      LeadsNowhere(Within(before, now), number);
    } else {
      var rule, rest := rules[0], rules[1..];
      var next := now.(rules := now.rules + [rule.(lineNumber := number)]);
      RuleLeads(before, now, rule, number);
      RulesLead(before, next, rest, number + 1);
      assert RuleTexts(rules) == [RuleText(rule)] + RuleTexts(rest);
      assert next.rules + NumberedRules(rest, number + 1) == now.rules + NumberedRules(rules, number);
      LeadsOn(Within(before, now), [RuleText(rule)], number, Within(before, next), RuleTexts(rest),
              Within(before, next.(rules := next.rules + NumberedRules(rest, number + 1))));
    }
  }

  // ---------------------------------------------------------------------------
  // Headers

  function HeaderText(name: string): string {
    "[" + name + "]"
  }

  lemma HeaderLeads(start: ParseState, name: string, number: nat)
    requires WellPlaced(start) && IsTrimmed(name)
    ensures Leads(start, [HeaderText(name)], number, Enter(start, name, number))
  {
    hide Enter, Trim, WithoutReturn;
    var line := HeaderText(name);
    TrimDropsReturn(line);
    TrimOfTrimmed(line);
    assert line[1..|line| - 1] == name;
    TrimOfTrimmed(name);
  }

  /** A name that is not read as that of a shared or an exported section. */
  predicate IsPackageName(name: string) {
    IsTrimmed(name) && SubSectionName(name, ACCESSIBLE).None? && SubSectionName(name, EXPORT).None?
  }

  // ---------------------------------------------------------------------------
  // Whole sections

  function SectionLines(s: ParsedSection): seq<string> {
    [HeaderText(s.packageName)] + OptionLines(s) + RuleTexts(s.rules)
  }

  function NumberedSection(s: ParsedSection, number: nat): ParsedSection {
    s.(rules := NumberedRules(s.rules, number + 1 + |OptionLines(s)|))
  }

  predicate SectionCanBeWritten(s: ParsedSection) {
    && IsPackageName(s.packageName) && OptionsCanBeWritten(s)
    && '\n' !in s.packageName && '\n' !in s.trashDir
    && forall i :: 0 <= i < |s.rules| ==> RuleCanBeWritten(s.rules[i])
  }

  /** What the parser remembers besides the sections once it has seen the name. */
  function Named(before: ParseState, name: string): ParseState {
    before.(sectionNames := before.sectionNames + {name}, packages := before.packages + {name})
  }

  lemma EnterPackage(start: ParseState, name: string, number: nat)
    requires IsPackageName(name) && name !in start.sectionNames && name !in start.packages
    ensures Enter(start, name, number) == Within(Named(start, name), NewSection(name))
  {
  }

  lemma SectionLeads(start: ParseState, s: ParsedSection, number: nat)
    requires WellPlaced(start) && SectionCanBeWritten(s)
    requires s.packageName !in start.sectionNames && s.packageName !in start.packages
    ensures Leads(start, SectionLines(s), number, Within(Named(start, s.packageName), NumberedSection(s, number)))
  {
    hide GoesOn, Leads, Enter, OptionLines, RuleTexts, WellPlaced, RuleIsPlain;
    var before, name, first := Named(start, s.packageName), s.packageName, [HeaderText(s.packageName)];
    var named, options := Within(before, NewSection(name)), Within(before, s.(rules := []));
    var end := Within(before, NumberedSection(s, number));
    HeaderLeads(start, name, number);
    EnterPackage(start, name, number);
    OptionLinesLead(before, s, number + 1);
    LeadsOn(start, first, number, named, OptionLines(s), options);
    RulesLead(before, s.(rules := []), s.rules, number + 1 + |OptionLines(s)|);
    assert [] + NumberedRules(s.rules, number + 1 + |OptionLines(s)|) == NumberedSection(s, number).rules;
    LeadsOn(start, first + OptionLines(s), number, options, RuleTexts(s.rules), end);
  }
}
