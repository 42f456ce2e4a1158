/** Strings as the native code uses them: searches, `/`-separated segments, and the byte order of std::string. */
module Text {

  predicate StartsWith(text: string, prefix: string) {
    |text| >= |prefix| && text[..|prefix|] == prefix
  }

  lemma DiffersAt(text: string, prefix: string, at: nat)
    requires at < |prefix| && (at >= |text| || text[at] != prefix[at])
    ensures !StartsWith(text, prefix)
  {
    if |text| >= |prefix| {
      assert text[..|prefix|][at] == text[at];
    }
  }

  /** The first position of `c`, or -1 where std::string would answer npos. */
  function FirstIndex(text: string, c: char): (i: int)
    ensures -1 <= i < |text|
    ensures i >= 0 ==> text[i] == c && forall j :: 0 <= j < i ==> text[j] != c
    ensures i < 0 <==> c !in text
  {
    if text == "" then -1
    else if text[0] == c then 0
    else
      var rest := FirstIndex(text[1..], c);
      assert text == [text[0]] + text[1..];
      assert forall j :: 0 < j < |text| ==> text[j] == text[1..][j - 1];
      if rest < 0 then -1 else rest + 1
  }

  /** The last position of `c`, or -1. */
  function LastIndex(text: string, c: char): (i: int)
    ensures -1 <= i < |text|
    ensures i >= 0 ==> text[i] == c && forall j :: i < j < |text| ==> text[j] != c
    ensures i < 0 <==> c !in text
  {
    if text == "" then -1
    else if text[|text| - 1] == c then |text| - 1
    else
      assert text == text[..|text| - 1] + [text[|text| - 1]];
      LastIndex(text[..|text| - 1], c)
  }

  /** The path is the directory itself or lies below it. */
  predicate IsDirectoryMatch(path: string, directory: string) {
    || path == directory
    || (|path| > |directory| && StartsWith(path, directory) && path[|directory|] == '/')
  }

  // ---------------------------------------------------------------------------
  // Segments

  predicate SlashFree(segment: string) {
    '/' !in segment
  }

  predicate AllSlashFree(segments: seq<string>) {
    forall i :: 0 <= i < |segments| ==> SlashFree(segments[i])
  }

  /** All the pieces between slashes, empty ones included. */
  function Split(path: string): (segments: seq<string>)
    ensures |segments| > 0 && AllSlashFree(segments)
    decreases |path|
  {
    var slash := FirstIndex(path, '/');
    if slash < 0 then [path] else [path[..slash]] + Split(path[slash + 1..])
  }

  function Join(segments: seq<string>): string
    requires |segments| > 0
  {
    if |segments| == 1 then segments[0] else segments[0] + "/" + Join(segments[1..])
  }

  /** The pieces around a given first slash. */
  lemma SplitAt(path: string, slash: nat)
    requires slash < |path| && path[slash] == '/' && SlashFree(path[..slash])
    ensures Split(path) == [path[..slash]] + Split(path[slash + 1..])
  {
    assert forall j :: 0 <= j < slash ==> path[j] == path[..slash][j];
    assert FirstIndex(path, '/') == slash;
  }

  lemma SplitOfSlashFree(segment: string)
    requires SlashFree(segment)
    ensures Split(segment) == [segment]
  {
  }

  lemma {:induction false} JoinOfSplit(path: string)
    ensures Join(Split(path)) == path
    decreases |path|
  {
    var slash := FirstIndex(path, '/');
    if slash >= 0 {
      var rest := Split(path[slash + 1..]);
      JoinOfSplit(path[slash + 1..]);
      assert path == path[..slash] + "/" + path[slash + 1..];
    }
  }

  lemma {:induction false} SplitOfConcat(left: string, right: string)
    ensures Split(left + "/" + right) == Split(left) + Split(right)
    decreases |left|
  {
    hide Split;
    var slash := FirstIndex(left, '/');
    var whole := left + "/" + right;
    if slash < 0 {
      assert whole[..|left|] == left && whole[|left| + 1..] == right;
      SplitAt(whole, |left|);
      SplitOfSlashFree(left);
    } else {
      var first, tail := left[..slash], left[slash + 1..];
      SplitOfConcat(tail, right);
      SplitAt(left, slash);
      SplitAtOfConcat(left, right, slash);
      assert [first] + (Split(tail) + Split(right)) == ([first] + Split(tail)) + Split(right);
    }
  }

  lemma SplitAtOfConcat(left: string, right: string, slash: nat)
    requires slash < |left| && left[slash] == '/' && SlashFree(left[..slash])
    ensures Split(left + "/" + right) == [left[..slash]] + Split(left[slash + 1..] + "/" + right)
  {
    var whole := left + "/" + right;
    assert whole[..slash] == left[..slash];
    assert whole[slash + 1..] == left[slash + 1..] + "/" + right;
    SplitAt(whole, slash);
  }

  lemma {:induction false} SplitOfJoin(segments: seq<string>)
    requires |segments| > 0 && AllSlashFree(segments)
    ensures Split(Join(segments)) == segments
  {
    hide Split;
    SplitOfSlashFree(segments[0]);
    if |segments| > 1 {
      SplitOfJoin(segments[1..]);
      SplitOfConcat(segments[0], Join(segments[1..]));
      assert segments == [segments[0]] + segments[1..];
    } else {
      assert segments == [segments[0]];
    }
  }

  lemma JoinOfOne(segment: string)
    ensures Join([segment]) == segment
  {
  }

  lemma {:induction false} JoinAppend(left: seq<string>, right: seq<string>)
    requires |left| > 0 && |right| > 0
    ensures Join(left + right) == Join(left) + "/" + Join(right)
  {
    if |left| > 1 {
      JoinAppend(left[1..], right);
      assert (left + right)[1..] == left[1..] + right;
    } else {
      assert (left + right)[1..] == right;
    }
  }

  predicate SomeSegmentHas(segments: seq<string>, c: char) {
    exists i :: 0 <= i < |segments| && c in segments[i]
  }

  lemma {:induction false} SegmentCharacters(path: string, c: char)
    requires c != '/'
    ensures c in path <==> SomeSegmentHas(Split(path), c)
    decreases |path|
  {
    hide FirstIndex, SomeSegmentHas;
    var slash := FirstIndex(path, '/');
    if slash < 0 {
      assert [path] + [] == [path];
      SomeSegmentOfCons(path, [], c);
      NoSegmentHas(c);
    } else {
      var first, rest := path[..slash], Split(path[slash + 1..]);
      SegmentCharacters(path[slash + 1..], c);
      assert path == first + ['/'] + path[slash + 1..];
      SomeSegmentOfCons(first, rest, c);
    }
  }

  lemma NoSegmentHas(c: char)
    ensures !SomeSegmentHas([], c)
  {
  }

  lemma SomeSegmentOfCons(first: string, rest: seq<string>, c: char)
    ensures SomeSegmentHas([first] + rest, c) <==> c in first || SomeSegmentHas(rest, c)
  {
    var all := [first] + rest;
    assert all[0] == first;
    assert forall i :: 0 <= i < |rest| ==> all[i + 1] == rest[i];
    assert forall i :: 0 < i < |all| ==> all[i] == rest[i - 1];
  }

  // ---------------------------------------------------------------------------
  // The order of std::string

  predicate Less(a: string, b: string) {
    if b == "" then false
    else if a == "" then true
    else a[0] < b[0] || (a[0] == b[0] && Less(a[1..], b[1..]))
  }

  lemma {:induction false} LessIsIrreflexive(a: string)
    ensures !Less(a, a)
  {
    if a != "" {
      LessIsIrreflexive(a[1..]);
    }
  }

  lemma {:induction false} LessIsTransitive(a: string, b: string, c: string)
    requires Less(a, b) && Less(b, c)
    ensures Less(a, c)
  {
    if a != "" && a[0] == b[0] == c[0] {
      LessIsTransitive(a[1..], b[1..], c[1..]);
    }
  }

  lemma {:induction false} LessIsTotal(a: string, b: string)
    ensures Less(a, b) || a == b || Less(b, a)
  {
    if a != "" && b != "" && a[0] == b[0] {
      LessIsTotal(a[1..], b[1..]);
      assert a == [a[0]] + a[1..] && b == [b[0]] + b[1..];
    }
  }

  // ---------------------------------------------------------------------------
  // White space and case

  predicate IsSpace(c: char) {
    c == ' ' || 9 <= c as int <= 13
  }

  function TrimLeft(text: string): string {
    if text != "" && IsSpace(text[0]) then TrimLeft(text[1..]) else text
  }

  function TrimRight(text: string): string {
    if text != "" && IsSpace(text[|text| - 1]) then TrimRight(text[..|text| - 1]) else text
  }

  function Trim(text: string): string {
    TrimRight(TrimLeft(text))
  }

  lemma {:induction false} TrimRightIsPrefix(text: string)
    ensures |TrimRight(text)| <= |text| && TrimRight(text) == text[..|TrimRight(text)|]
  {
    if text != "" && IsSpace(text[|text| - 1]) {
      TrimRightIsPrefix(text[..|text| - 1]);
    }
  }

  lemma {:induction false} TrimLeftIsSuffix(text: string)
    ensures |TrimLeft(text)| <= |text| && TrimLeft(text) == text[|text| - |TrimLeft(text)|..]
  {
    if text != "" && IsSpace(text[0]) {
      TrimLeftIsSuffix(text[1..]);
    }
  }

  /** Trimming only takes away from the ends. */
  lemma TrimIsInside(text: string)
    ensures |Trim(text)| <= |text| && (|Trim(text)| == |text| ==> Trim(text) == text)
    ensures forall c :: c in Trim(text) ==> c in text
  {
    TrimLeftIsSuffix(text);
    TrimRightIsPrefix(TrimLeft(text));
    forall c | c in Trim(text) ensures c in text {
      assert c in TrimLeft(text);
    }
  }

  function LowerChar(c: char): char {
    if 'A' <= c <= 'Z' then (c as int + 32) as char else c
  }

  function Lower(text: string): (lower: string)
    ensures |lower| == |text|
  {
    seq(|text|, i requires 0 <= i < |text| => LowerChar(text[i]))
  }

  const CAPITALS := "ABCDEFGHIJKLMNOPQRSTUVWXYZ"
  const SMALL := "abcdefghijklmnopqrstuvwxyz"

  /** The 26 capital letters are made small, and no other character is touched. */
  lemma LowerIs(text: string, at: nat)
    requires at < |text|
    ensures forall i :: 0 <= i < 26 && text[at] == CAPITALS[i] ==> Lower(text)[at] == SMALL[i]
    ensures text[at] !in CAPITALS ==> Lower(text)[at] == text[at]
  {
    forall i | 0 <= i < 26 ensures CAPITALS[i] as int == 65 + i && SMALL[i] as int == 97 + i {
      LetterNumbers(i);
    }
    if 'A' <= text[at] <= 'Z' {
      assert text[at] == CAPITALS[text[at] as int - 65];
    }
  }

  lemma LetterNumbers(i: nat)
    requires i < 26
    ensures CAPITALS[i] as int == 65 + i && SMALL[i] as int == 97 + i
  {
  }

  /** White space is the blank and the five control characters from tab to carriage return. */
  lemma SpaceIs(c: char)
    ensures IsSpace(c) <==> c in {' ', '\t', '\n', '\U{0B}', '\U{0C}', '\r'}
  {
  }
}
