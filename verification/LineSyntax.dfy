/** The text searches and value readers of the rule file parser (native/rule_engine.cpp, lines 37-122 and 759-880). */
module LineSyntax {
  import opened Options
  import opened Text
  import opened ParsedRules
  import opened PathMapper

  /** The first place where the pattern occurs, or -1. */
  function Find(text: string, pattern: string): (at: int)
    ensures -1 <= at <= |text|
    ensures at >= 0 ==> StartsWith(text[at..], pattern)
    ensures forall j :: 0 <= j < (if at < 0 then |text| + 1 else at) ==> !StartsWith(text[j..], pattern)
    decreases |text|
  {
    if StartsWith(text, pattern) then
      assert text[0..] == text;
      0
    else if text == "" then
      assert text[0..] == text;
      -1
    else
      var rest := Find(text[1..], pattern);
      assert forall j :: 0 < j <= |text| ==> text[j..] == text[1..][j - 1..];
      assert text[0..] == text;
      if rest < 0 then -1 else rest + 1
  }

  const TYPES := "@types="

  /** A type filter starts at the beginning or after white space. */
  predicate TypesAt(text: string, at: nat)
    requires at <= |text|
  {
    StartsWith(text[at..], TYPES) && (at == 0 || IsSpace(text[at - 1]))
  }

  function FindTypes(text: string, from: nat): (at: int)
    requires from <= |text|
    ensures -1 <= at <= |text|
    ensures at >= 0 ==> from <= at && TypesAt(text, at)
    ensures forall j :: from <= j < (if at < 0 then |text| + 1 else at) ==> !TypesAt(text, j)
    decreases |text| - from
  {
    if TypesAt(text, from) then from
    else if from == |text| then -1
    else FindTypes(text, from + 1)
  }

  /** No two occurrences of the marker overlap, so skipping a whole one that does not count loses nothing. */
  lemma MarkersDoNotOverlap(text: string, at: nat, other: nat)
    requires at < other < at + |TYPES| && other <= |text|
    requires StartsWith(text[at..], TYPES)
    ensures !StartsWith(text[other..], TYPES)
  {
    assert text[at..][..|TYPES|][other - at] == TYPES[other - at] != '@';
    assert text[at..][other - at] == text[other];
    DiffersAt(text[other..], TYPES, 0);
  }

  lemma {:induction false} FindTypesIs(text: string, from: nat, at: nat)
    requires from <= at <= |text| && TypesAt(text, at)
    requires forall j :: from <= j < at ==> !TypesAt(text, j)
    ensures FindTypes(text, from) == at
    decreases at - from
  {
    if from < at {
      FindTypesIs(text, from + 1, at);
    }
  }

  lemma FindTypesIsNone(text: string)
    requires forall j :: 0 <= j <= |text| ==> !TypesAt(text, j)
    ensures FindTypes(text, 0) == -1
  {
  }

  method FindTypeFilterToken(text: string) returns (at: int)
    ensures at == FindTypes(text, 0)
  {
    hide Find, StartsWith;
    var offset := 0;
    while offset < |text|
      invariant 0 <= offset <= |text|
      invariant forall j :: 0 <= j < offset ==> !TypesAt(text, j)
      decreases |text| - offset
    {
      var found := Find(text[offset..], TYPES);
      if found < 0 {
        NoMarkerUpTo(text, offset, |text| + 1);
        FindTypesIsNone(text);
        return -1;
      }
      var pos := offset + found;
      NoMarkerUpTo(text, offset, pos);
      MarkerIsWhole(text, offset, found);
      if pos == 0 || IsSpace(text[pos - 1]) {
        FindTypesIs(text, 0, pos);
        return pos;
      }
      forall j | pos < j < pos + |TYPES| && j <= |text| ensures !TypesAt(text, j) {
        MarkersDoNotOverlap(text, pos, j);
      }
      offset := pos + |TYPES|;
    }
    NothingAtEnd(text);
    FindTypesIsNone(text);
    return -1;
  }

  /** What is not found from an offset on begins nowhere from there to the place found. */
  lemma NoMarkerUpTo(text: string, offset: nat, end: nat)
    requires offset <= end <= |text| + 1 && offset <= |text|
    requires forall j :: 0 <= j < end - offset ==> !StartsWith(text[offset..][j..], TYPES)
    ensures forall j :: offset <= j < end ==> !TypesAt(text, j)
  {
    hide StartsWith;
    forall j | offset <= j < end ensures !TypesAt(text, j) {
      assert text[offset..][j - offset..] == text[j..];
      assert !StartsWith(text[offset..][j - offset..], TYPES);
    }
  }

  lemma MarkerIsWhole(text: string, offset: nat, found: nat)
    requires offset + found <= |text| && StartsWith(text[offset..][found..], TYPES)
    ensures offset + found + |TYPES| <= |text| && StartsWith(text[offset + found..], TYPES)
  {
    assert text[offset..][found..] == text[offset + found..];
  }

  lemma NothingAtEnd(text: string)
    ensures !TypesAt(text, |text|)
  {
  }

  // ---------------------------------------------------------------------------
  // Type filters

  datatype TypeFilter = BadFilter | Filter(path: string, types: seq<string>)

  /** One type as it is written: a leading dot is dropped, and nothing may be left empty. */
  function ReadType(piece: string): Option<string> {
    var trimmed := Trim(piece);
    var token := if trimmed != "" && trimmed[0] == '.' then trimmed[1..] else trimmed;
    if token == "" then None else Some(Lower(token))
  }

  /** The comma-separated types; a comma at the very end is forgiven. */
  function ReadTypes(text: string): Option<seq<string>>
    decreases |text|
  {
    if text == "" then Some([])
    else
      var comma := FirstIndex(text, ',');
      if comma < 0 then PrependType(ReadType(text), Some([]))
      else PrependType(ReadType(text[..comma]), ReadTypes(text[comma + 1..]))
  }

  function PrependType(first: Option<string>, rest: Option<seq<string>>): Option<seq<string>> {
    if first.None? || rest.None? then None else Some([first.value] + rest.value)
  }

  function ParseTypeFilter(text: string): TypeFilter {
    var at := FindTypes(text, 0);
    if at < 0 then Filter(Trim(text), [])
    else
      var path, rest := Trim(text[..at]), Trim(text[at + |TYPES|..]);
      if path == "" || rest == "" then BadFilter
      else
        match ReadTypes(rest)
        case None => BadFilter
        case Some(types) => if types == [] then BadFilter else Filter(path, types)
  }

  // ---------------------------------------------------------------------------
  // Assignments and values

  /** The key and the value around the first `=`; none without one, or with an empty key. */
  function SplitAssignment(line: string): Option<(string, string)> {
    var equal := FirstIndex(line, '=');
    if equal < 0 || Trim(line[..equal]) == "" then None
    else Some((Trim(line[..equal]), Trim(line[equal + 1..])))
  }

  function ReadBool(value: string): Option<bool> {
    if value == "true" then Some(true) else if value == "false" then Some(false) else None
  }

  function ReadDeleteDirMode(value: string): Option<DeleteDirMode> {
    if value == "none" || value == "false" then Some(KeepDirs)
    else if value == "empty" then Some(EmptyDirs)
    else if value == "recursive" || value == "true" then Some(Recursive)
    else None
  }

  function ReadMediaQueryMode(value: string): Option<MediaQueryMode> {
    if value == "auto" then Some(AutoQuery)
    else if value == "true" then Some(EnableQuery)
    else if value == "false" then Some(DisableQuery)
    else None
  }

  predicate IsDigit(c: char) {
    '0' <= c <= '9'
  }

  predicate AllDigits(text: string) {
    forall i :: 0 <= i < |text| ==> IsDigit(text[i])
  }

  function DigitValue(c: char): nat
    requires IsDigit(c)
  {
    c as int - '0' as int
  }

  function DigitsValue(digits: string): nat
    requires AllDigits(digits)
  {
    if digits == "" then 0
    else 10 * DigitsValue(digits[..|digits| - 1]) + DigitValue(digits[|digits| - 1])
  }

  const MAX_LONG: nat := 0x7fff_ffff_ffff_ffff

  /** A whole number from 0 to the largest 64-bit one, with an optional sign; minus zero is zero. The C conversion stops
    at a NUL, and reads nothing at all as zero. */
  function ReadInteger(value: string): Option<nat> {
    var trimmed := CString(Trim(value));
    if Trim(value) == "" then None
    else if trimmed == "" then Some(0)
    else
      var signed := trimmed[0] == '+' || trimmed[0] == '-';
      var digits := if signed then trimmed[1..] else trimmed;
      if digits == "" || !AllDigits(digits) then None
      else
        var magnitude := DigitsValue(digits);
        if magnitude > MAX_LONG || (trimmed[0] == '-' && magnitude > 0) then None else Some(magnitude)
  }

  /** The narrowing of a 64-bit value to 32 bits. */
  function ToInt32(n: nat): int {
    var low := n % 0x1_0000_0000;
    if low >= 0x8000_0000 then low - 0x1_0000_0000 else low
  }

  /** The two parts around a marker in a section name, if both are there. */
  function SubSectionName(name: string, marker: string): Option<(string, string)> {
    var at := Find(name, marker);
    if at < 0 || Trim(name[..at]) == "" || |name| < at + |marker| || Trim(name[at + |marker|..]) == "" then None
    else Some((Trim(name[..at]), Trim(name[at + |marker|..])))
  }

  // ---------------------------------------------------------------------------
  // Trimming

  predicate AllSpace(text: string) {
    forall i :: 0 <= i < |text| ==> IsSpace(text[i])
  }

  predicate IsTrimmed(text: string) {
    text != "" && !IsSpace(text[0]) && !IsSpace(text[|text| - 1])
  }

  lemma {:induction false} TrimLeftOfPadded(pad: string, text: string)
    requires AllSpace(pad) && (text == "" || !IsSpace(text[0]))
    ensures TrimLeft(pad + text) == text
  {
    if pad == "" {
      assert pad + text == text;
    } else {
      assert (pad + text)[1..] == pad[1..] + text;
      TrimLeftOfPadded(pad[1..], text);
    }
  }

  lemma {:induction false} TrimRightOfPadded(text: string, pad: string)
    requires AllSpace(pad) && (text == "" || !IsSpace(text[|text| - 1]))
    ensures TrimRight(text + pad) == text
  {
    if pad == "" {
      assert text + pad == text;
    } else {
      assert (text + pad)[..|text + pad| - 1] == text + pad[..|pad| - 1];
      TrimRightOfPadded(text, pad[..|pad| - 1]);
    }
  }

  lemma TrimOfPadded(left: string, text: string, right: string)
    requires AllSpace(left) && AllSpace(right) && IsTrimmed(text)
    ensures Trim(left + text + right) == text
  {
    assert left + text + right == left + (text + right);
    TrimLeftOfPadded(left, text + right);
    TrimRightOfPadded(text, right);
  }

  lemma TrimOfTrimmed(text: string)
    requires IsTrimmed(text)
    ensures Trim(text) == text
  {
    TrimOfPadded("", text, "");
    assert "" + text + "" == text;
  }

  /** A trimmed text is empty or has no white space at either end. */
  lemma TrimIsTrimmed(text: string)
    ensures Trim(text) == "" || IsTrimmed(Trim(text))
  {
    TrimLeftEnds(text);
    TrimRightEnds(TrimLeft(text));
  }

  lemma {:induction false} TrimLeftEnds(text: string)
    ensures TrimLeft(text) == "" || !IsSpace(TrimLeft(text)[0])
  {
    if text != "" && IsSpace(text[0]) {
      TrimLeftEnds(text[1..]);
    }
  }

  lemma {:induction false} TrimRightEnds(text: string)
    ensures TrimRight(text) == "" || !IsSpace(TrimRight(text)[|TrimRight(text)| - 1])
    ensures TrimRight(text) != "" ==> TrimRight(text)[0] == text[0]
  {
    if text != "" && IsSpace(text[|text| - 1]) {
      TrimRightEnds(text[..|text| - 1]);
    }
  }
}
