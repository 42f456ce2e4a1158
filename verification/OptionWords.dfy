/** What every option of a rule file sets, word by word (native/rule_engine.cpp, lines 784-939 and 1074-1214). */
module OptionWords {
  import opened Options
  import opened Text
  import opened PathMapper
  import opened Rules
  import opened ParsedRules
  import opened LineSyntax
  import opened RuleParser
  import opened RuleRenderer

  // ---------------------------------------------------------------------------
  // Package sections

  /** The words are taken as they stand, in small letters. */
  lemma ModeWords(s: ParsedSection, value: string, number: nat)
    requires IsTrimmed(value)
    ensures var changed := PolicyLine(s, "mode = " + value, number);
      && (value == "whitelist" ==> changed == Some(s.(hasMode := true, mode := Whitelist)))
      && (value == "blacklist" ==> changed == Some(s.(hasMode := true, mode := Blacklist)))
      && (value != "whitelist" && value != "blacklist" ==> changed == None)
  {
    hide Trim;
    var line := Assignment("mode", value);
    assert line == "mode" + (" = " + value);
    assert line == "mode = " + value;
    BeginsWith("mode", " = " + value);
    EqualOfAssignment("mode", value);
  }

  lemma SwitchWords(s: ParsedSection, value: string, number: nat)
    requires IsTrimmed(value)
    ensures var on, off := PolicyLine(s, "enabled = " + value, number), PolicyLine(s, "disabled = " + value, number);
      && (value == "true" ==> on == Some(s.(enabled := true)) && off == Some(s.(enabled := false)))
      && (value == "false" ==> on == Some(s.(enabled := false)) && off == Some(s.(enabled := true)))
      && (value != "true" && value != "false" ==> on == None && off == None)
  {
    hide PolicyLine, IsTrimmed;
    assert Assignment("enabled", value) == "enabled = " + value && Assignment("disabled", value) == "disabled = " + value;
    EnabledLine(s, value, number);
    DisabledLine(s, value, number);
  }

  lemma DisabledLine(section: ParsedSection, value: string, number: nat)
    requires IsTrimmed(value)
    ensures PolicyLine(section, Assignment("disabled", value), number) == SetEnabled(section, "disabled", value)
  {
    var line := Assignment("disabled", value);
    assert line == "disabled" + (" = " + value);
    BeginsWith("disabled", " = " + value);
    NotMode(line);
    SplitOfAssignment("disabled", value);
  }

  lemma DeleteWords(s: ParsedSection, value: string, number: nat)
    requires IsTrimmed(value)
    ensures var existing, dirs := PolicyLine(s, "delete_existing = " + value, number), PolicyLine(s, "delete_dirs = " + value, number);
      && (value == "true" ==> existing == Some(s.(deleteExisting := true)) && dirs == Some(s.(deleteDirMode := Recursive)))
      && (value == "false" ==> existing == Some(s.(deleteExisting := false)) && dirs == Some(s.(deleteDirMode := KeepDirs)))
      && (value == "none" ==> existing == None && dirs == Some(s.(deleteDirMode := KeepDirs)))
      && (value == "empty" ==> existing == None && dirs == Some(s.(deleteDirMode := EmptyDirs)))
      && (value == "recursive" ==> existing == None && dirs == Some(s.(deleteDirMode := Recursive)))
      && (value !in {"true", "false", "none", "empty", "recursive"} ==> existing == None && dirs == None)
  {
    hide PolicyLine, IsTrimmed;
    assert Assignment("delete_existing", value) == "delete_existing = " + value;
    assert Assignment("delete_dirs", value) == "delete_dirs = " + value;
    DeleteLine(s, "delete_existing", value, number);
    DeleteLine(s, "delete_dirs", value, number);
  }

  lemma MediaQueryWords(s: ParsedSection, value: string, number: nat)
    requires IsTrimmed(value)
    ensures var changed := PolicyLine(s, "media_query = " + value, number);
      && (value == "auto" ==> changed == Some(s.(mediaQuery := AutoQuery)))
      && (value == "true" ==> changed == Some(s.(mediaQuery := EnableQuery)))
      && (value == "false" ==> changed == Some(s.(mediaQuery := DisableQuery)))
      && (value !in {"auto", "true", "false"} ==> changed == None)
  {
    hide PolicyLine, IsTrimmed;
    assert Assignment("media_query", value) == "media_query = " + value;
    MediaQueryLine(s, value, number);
  }

  lemma TrashWords(s: ParsedSection, value: string, number: nat)
    requires IsTrimmed(value)
    ensures var trash, redirect := PolicyLine(s, "trash = " + value, number), PolicyLine(s, "trash_redirect = " + value, number);
      && (value == "true" ==> trash == Some(s.(trashEnabled := true)) && redirect == Some(s.(trashOnRedirect := true)))
      && (value == "false" ==> trash == Some(s.(trashEnabled := false)) && redirect == Some(s.(trashOnRedirect := false)))
      && (value != "true" && value != "false" ==> trash == None && redirect == None)
    ensures PolicyLine(s, "trash_dir = " + value, number) == Some(s.(trashDir := value))
  {
    hide PolicyLine, IsTrimmed;
    assert Assignment("trash", value) == "trash = " + value;
    assert Assignment("trash_redirect", value) == "trash_redirect = " + value;
    assert Assignment("trash_dir", value) == "trash_dir = " + value;
    assert value != "" by { TrimmedIsSomething(value); }
    TrashLine(s, "trash", value, number);
    TrashLine(s, "trash_redirect", value, number);
    TrashLine(s, "trash_dir", value, number);
  }

  lemma TrimmedIsSomething(value: string)
    requires IsTrimmed(value)
    ensures value != ""
  {
  }

  // ---------------------------------------------------------------------------
  // Numbers

  /** Digits, perhaps behind a plus, are the number that they write; behind a minus only zero is accepted. */
  lemma SignedDigits(digits: string)
    requires digits != "" && AllDigits(digits)
    ensures var number := if DigitsValue(digits) <= 0x7fff_ffff_ffff_ffff then Some(DigitsValue(digits)) else None;
      && ReadInteger(digits) == number && ReadInteger("+" + digits) == number
      && ReadInteger("-" + digits) == if DigitsValue(digits) == 0 then Some(0) else None
  {
    hide ReadInteger, AllDigits, DigitsValue;
    ReadSigned("", digits);
    ReadSigned("+", digits);
    ReadSigned("-", digits);
    assert "" + digits == digits;
  }

  lemma ReadSigned(sign: string, digits: string)
    requires digits != "" && AllDigits(digits) && sign in {"", "+", "-"}
    ensures var n := DigitsValue(digits);
      ReadInteger(sign + digits) == if n > MAX_LONG || (sign == "-" && n > 0) then None else Some(n)
  {
    hide DigitsValue, Trim, CString;
    NumberIsWhole(sign, digits);
    var text := sign + digits;
    assert IsDigit(digits[0]);
    assert text[0] == if sign == "" then digits[0] else sign[0];
    assert text[|sign|..] == digits && text[0..] == text;
  }

  lemma NumberIsWhole(sign: string, digits: string)
    requires digits != "" && AllDigits(digits) && sign in {"", "+", "-"}
    ensures Trim(sign + digits) == sign + digits == CString(sign + digits)
  {
    hide Trim;
    assert IsDigit(digits[|digits| - 1]) && IsDigit(digits[0]);
    TrimOfTrimmed(sign + digits);
    assert forall i :: |sign| <= i < |sign + digits| ==> (sign + digits)[i] == digits[i - |sign|];
  }

  /** Anything else without a NUL is refused. */
  lemma NoNumber(value: string)
    requires IsTrimmed(value) && NUL !in value
    requires !AllDigits(value) && (value[0] in {'+', '-'} ==> !AllDigits(value[1..]) || value[1..] == "")
    ensures ReadInteger(value) == None
  {
    hide Trim, DigitsValue;
    TrimOfTrimmed(value);
    assert CString(value) == value;
  }

  /** A NUL ends the number, and nothing in front of it is zero. */
  lemma NulEndsNumber(digits: string, rest: string)
    requires AllDigits(digits) && (rest == "" || !IsSpace(rest[|rest| - 1]))
    ensures ReadInteger(digits + [NUL] + rest) ==
      if DigitsValue(digits) <= 0x7fff_ffff_ffff_ffff then Some(DigitsValue(digits)) else None
  {
    hide DigitsValue, Trim, CString, AllDigits;
    var value := digits + [NUL] + rest;
    NulStays(digits, rest);
    if digits == "" {
      assert DigitsValue("") == 0 by { NothingIsZero(); }
    } else {
      assert IsDigit(digits[0]) by { FirstIsDigit(digits); }
    }
  }

  lemma NothingIsZero()
    ensures DigitsValue("") == 0
  {
  }

  lemma FirstIsDigit(digits: string)
    requires AllDigits(digits) && digits != ""
    ensures IsDigit(digits[0])
  {
  }

  lemma NulStays(digits: string, rest: string)
    requires AllDigits(digits) && (rest == "" || !IsSpace(rest[|rest| - 1]))
    ensures var value := digits + [NUL] + rest; Trim(value) == value && CString(value) == digits && value != ""
  {
    hide Trim;
    var value := digits + [NUL] + rest;
    assert value[|value| - 1] == if rest == "" then NUL else rest[|rest| - 1];
    assert digits != "" ==> IsDigit(digits[0]);
    TrimOfTrimmed(value);
    assert value[|digits|] == NUL && forall i :: 0 <= i < |digits| ==> value[i] == digits[i];
    assert FirstIndex(value, NUL) == |digits|;
    assert value[..|digits|] == digits;
  }

  /** The 32-bit number that differs from a number by a multiple of 2^32. */
  predicate IsWrapped(wrapped: int, n: nat) {
    -0x8000_0000 <= wrapped < 0x8000_0000 && (n - wrapped) % 0x1_0000_0000 == 0
  }

  lemma Narrowed(n: nat)
    ensures IsWrapped(ToInt32(n), n)
  {
  }

  lemma MinimumWords(s: ParsedSection, value: string, number: nat)
    requires IsTrimmed(value)
    ensures var days, size := PolicyLine(s, "min_age_days = " + value, number), PolicyLine(s, "min_size_mb = " + value, number);
      match ReadInteger(value)
      case None => days == None && size == None
      case Some(n) =>
        && (n < 0x8000_0000 ==> days == Some(s.(minAgeDays := n)))
        && days.Some? && IsWrapped(days.value.minAgeDays, n) && days == Some(s.(minAgeDays := days.value.minAgeDays))
        && size == Some(s.(minSizeMb := n))
  {
    hide PolicyLine, IsTrimmed, ReadInteger;
    assert Assignment("min_age_days", value) == "min_age_days = " + value;
    assert Assignment("min_size_mb", value) == "min_size_mb = " + value;
    TrashLine(s, "min_age_days", value, number);
    TrashLine(s, "min_size_mb", value, number);
    if ReadInteger(value).Some? {
      var n := ReadInteger(value).value;
      Narrowed(n);
    }
  }

  // ---------------------------------------------------------------------------
  // Which lines are options

  predicate IsOptionKey(key: string) {
    key in {"enabled", "disabled", "delete_existing", "delete_dirs", "media_query", "trash", "trash_redirect", "trash_dir",
            "min_age_days", "min_size_mb"}
  }

  predicate LooksLikeOption(line: string) {
    || StartsWith(line, "mode") || StartsWith(line, "enabled") || StartsWith(line, "disabled")
    || StartsWith(line, "delete_existing") || StartsWith(line, "delete_dirs") || StartsWith(line, "media_query")
    || StartsWith(line, "trash") || StartsWith(line, "min_age_days") || StartsWith(line, "min_size_mb")
  }

  /** A line that does not begin like an option only ever adds a rule. */
  lemma OtherLinesAddRules(s: ParsedSection, line: string, number: nat)
    requires !LooksLikeOption(line) && PolicyLine(s, line, number).Some?
    ensures exists rule :: PolicyLine(s, line, number) == Some(s.(rules := s.rules + [rule]))
  {
    hide StartsWith, ReadRule;
    var rule := ReadRule(line, number).value;
    assert PolicyLine(s, line, number) == Some(s.(rules := s.rules + [rule]));
  }

  /** A line that begins like an option is one, or an error: with a key of its own it is refused, but for `mode`, where
    only the beginning and the value count. */
  lemma OptionLinesAddNothing(s: ParsedSection, line: string, number: nat)
    requires LooksLikeOption(line) && PolicyLine(s, line, number).Some?
    ensures PolicyLine(s, line, number).value.rules == s.rules
    ensures StartsWith(line, "mode") || (SplitAssignment(line).Some? && IsOptionKey(SplitAssignment(line).value.0))
  {
    hide StartsWith, SplitAssignment, ReadBool, ReadInteger, ReadDeleteDirMode, ReadMediaQueryMode;
  }

  lemma ModeByItsBeginning(s: ParsedSection, more: string, value: string, number: nat)
    requires '=' !in more && value in {"whitelist", "blacklist"}
    ensures PolicyLine(s, "mode" + more + "=" + value, number) ==
      Some(s.(hasMode := true, mode := if value == "whitelist" then Whitelist else Blacklist))
  {
    hide Trim;
    var line := "mode" + more + "=" + value;
    var equal := |"mode" + more|;
    assert line == "mode" + (more + "=" + value);
    BeginsWith("mode", more + "=" + value);
    assert line[equal] == '=' && line[equal + 1..] == value;
    forall i | 0 <= i < equal ensures line[i] != '=' {
      assert i >= 4 ==> line[i] == more[i - 4];
    }
    TrimOfTrimmed(value);
  }

  // ---------------------------------------------------------------------------
  // Shared and exported sections

  lemma SharedWords(s: ParsedAccessibleSection, key: string, value: string)
    ensures var changed := AccessibleField(s, key, value);
      && (key == "from" ==> changed == Some(s.(fromPackage := value)))
      && (key == "to" ==> changed == Some(s.(toPackage := value)))
      && (key == "path" ==> changed == Some(s.(path := value)))
      && (key == "description" ==> changed == Some(s.(description := value)))
      && (key !in {"from", "to", "path", "description"} ==> changed == None)
  {
  }

  lemma ExportWords(s: ParsedExportSection, key: string, value: string)
    ensures var changed := ExportField(s, key, value);
      && (key == "source" ==> changed == Some(s.(sourcePath := value)))
      && (key == "target" ==> changed == Some(s.(targetPath := value)))
      && (key == "title" ==> changed == Some(s.(title := value)))
      && (key == "description" ==> changed == Some(s.(description := value)))
      && (key == "media_scan" && value == "true" ==> changed == Some(s.(mediaScan := true)))
      && (key == "media_scan" && value == "false" ==> changed == Some(s.(mediaScan := false)))
      && (key == "add_to_downloads" && value == "true" ==> changed == Some(s.(addToDownloads := true)))
      && (key == "add_to_downloads" && value == "false" ==> changed == Some(s.(addToDownloads := false)))
      && (key == "allow_child" && value == "true" ==> changed == Some(s.(allowChild := true)))
      && (key == "allow_child" && value == "false" ==> changed == Some(s.(allowChild := false)))
      && (key in {"media_scan", "add_to_downloads", "allow_child"} && value !in {"true", "false"} ==> changed == None)
      && (key !in {"source", "target", "title", "description", "media_scan", "add_to_downloads", "allow_child"} ==> changed == None)
  {
  }

  /** Nothing is set in a section that has just been opened, but that it is on. */
  lemma NewSectionIs(name: string)
    ensures NewSection(name) ==
      ParsedSection(name, true, false, Blacklist, false, KeepDirs, AutoQuery, false, false, "", 0, 0, [])
  {
  }
}
