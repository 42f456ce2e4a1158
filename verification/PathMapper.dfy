/** native/path_mapper.cpp: collapsing `.` and `..` in a fixed-size character buffer, and mapping storage aliases.

  A C string is the part of a buffer before its first NUL. Input and output are distinct buffers, but for
  NormalizeInPlace.
*/
module PathMapper {
  import opened Options
  import opened Text

  const NUL: char := '\0'
  const EXTERNAL_ROOT := "/storage/emulated/0"
  const MAX_PATH: nat := 1024

  function CString(buffer: seq<char>): string {
    var end := FirstIndex(buffer, NUL);
    if end < 0 then buffer else buffer[..end]
  }

  // ---------------------------------------------------------------------------
  // What collapsing means: a walk over the words of the path

  function WordLength(path: string): (n: nat)
    ensures n <= |path|
    ensures forall i :: 0 <= i < n ==> path[i] != '/'
    ensures n < |path| ==> path[n] == '/'
  {
    var slash := FirstIndex(path, '/');
    if slash < 0 then |path| else slash
  }

  /** The nonempty pieces between slashes. */
  function Words(path: string): (words: seq<string>)
    ensures forall i :: 0 <= i < |words| ==> words[i] != "" && SlashFree(words[i])
    decreases |path|
  {
    if path == "" then []
    else if path[0] == '/' then Words(path[1..])
    else
      var n := WordLength(path);
      assert path[0] != '/' ==> n > 0;
      [path[..n]] + Words(path[n..])
  }

  predicate IsName(word: string) {
    word != "" && SlashFree(word) && word != "." && word != ".."
  }

  /** Where the walk stands: the names entered, and whether the last step up left a slash behind. */
  datatype Place = Place(names: seq<string>, slashed: bool) {
    predicate Valid() {
      && (forall i :: 0 <= i < |names| ==> IsName(names[i]))
      && (slashed ==> names != [])
    }

    function Up(): Place {
      if names == [] then this else Place(names[..|names| - 1], |names| > 1)
    }

    function Down(name: string): Place {
      Place(names + [name], false)
    }

    function Render(): string {
      if names == [] then "/" else "/" + Join(names) + (if slashed then "/" else "")
    }
  }

  const ROOT := Place([], false)

  /** The walk fails as soon as the text of the place, with its NUL, does not fit. */
  function Walk(words: seq<string>, at: Place, capacity: nat): Option<Place> {
    if words == [] then Some(at)
    else if words[0] == "." then Walk(words[1..], at, capacity)
    else if words[0] == ".." then Walk(words[1..], at.Up(), capacity)
    else if |at.Down(words[0]).Render()| >= capacity then None
    else Walk(words[1..], at.Down(words[0]), capacity)
  }

  function Collapsed(input: string, capacity: nat): Option<string> {
    if capacity < 2 || input == "" || input[0] != '/' then None
    else
      match Walk(Words(input), ROOT, capacity)
      case None => None
      case Some(place) => Some(place.Render())
  }

  // ---------------------------------------------------------------------------
  // The buffer

  lemma RenderDown(at: Place, name: string)
    ensures at.Down(name).Render() ==
            at.Render() + (if at.names != [] && !at.slashed then "/" else "") + name
  {
    hide Join;
    JoinOfOne(name);
    if at.names != [] {
      JoinAppend(at.names, [name]);
    } else {
      assert [] + [name] == [name];
    }
  }

  lemma RenderEndsInSlash(at: Place)
    requires at.Valid()
    ensures |at.Render()| >= 1
    ensures at.names != [] ==> |at.Render()| > 1
    ensures at.Render()[|at.Render()| - 1] == '/' <==> at.slashed || at.names == []
  {
    if at.names != [] {
      var n := |at.names| - 1;
      assert at.names == at.names[..n] + [at.names[n]];
      RenderDown(Place(at.names[..n], n > 0), at.names[n]);
      var last := at.names[n];
      assert IsName(last);
      assert last[|last| - 1] in last;
    }
  }

  /** Taking away the last name takes away the characters after the last slash. */
  lemma RenderUp(at: Place)
    requires at.Valid() && at.names != []
    ensures var last := at.names[|at.names| - 1];
      at.Render() == at.Up().Render() + last + (if at.slashed then "/" else "")
  {
    var n := |at.names| - 1;
    assert at.names == at.names[..n] + [at.names[n]];
    RenderDown(at.Up(), at.names[n]);
    assert at.Up().Down(at.names[n]) == Place(at.names, false);
    assert at.Render() == Place(at.names, false).Render() + (if at.slashed then "/" else "");
  }

  ghost predicate BufferHolds(output: array<char>, outLen: nat, at: Place)
    reads output
  {
    && at.Valid() && NUL !in at.Render()
    && outLen < output.Length && output[outLen] == NUL
    && output[..outLen] == at.Render()
  }

  method CollapseAbsolutePath(input: string, output: array<char>) returns (ok: bool)
    requires NUL !in input
    modifies output
    ensures ok <==> Collapsed(input, output.Length).Some?
    ensures ok ==> CString(output[..]) == Collapsed(input, output.Length).value
  {
    if output.Length < 2 || input == "" || input[0] != '/' {
      return false;
    }
    var outLen: nat := 1;
    output[0], output[1] := '/', NUL;
    var index: nat := 0;
    ghost var at := ROOT;
    ghost var whole := Walk(Words(input), ROOT, output.Length);
    while index < |input|
      invariant index <= |input|
      invariant BufferHolds(output, outLen, at)
      invariant Walk(Words(input[index..]), at, output.Length) == whole
      decreases |input| - index
    {
      index := SkipSlashes(input, index);
      if index == |input| {
        break;
      }
      var segStart := index;
      index := SkipWord(input, index);
      var segment := input[segStart..index];
      WordIsName(input, segStart, index);

      if segment == "." {
        continue;
      }
      if segment == ".." {
        outLen := StepUp(output, outLen, at);
        at := at.Up();
        continue;
      }
      var fits;
      fits, outLen := AppendName(output, outLen, segment, at);
      if !fits {
        return false;
      }
      at := at.Down(segment);
    }
    assert output[..][..outLen] == output[..outLen];
    return true;
  }

  method AppendName(output: array<char>, outLen: nat, name: string, ghost at: Place) returns (fits: bool, newLen: nat)
    requires BufferHolds(output, outLen, at) && IsName(name) && NUL !in name
    modifies output
    ensures fits <==> |at.Down(name).Render()| < output.Length
    ensures fits ==> BufferHolds(output, newLen, at.Down(name))
  {
    RenderDown(at, name);
    RenderEndsInSlash(at);
    newLen := outLen;
    if newLen > 1 && output[newLen - 1] != '/' {
      if newLen + 1 >= output.Length {
        return false, newLen;
      }
      output[newLen] := '/';
      newLen := newLen + 1;
    }
    if newLen + |name| + 1 > output.Length {
      return false, newLen;
    }
    forall k | 0 <= k < |name| {
      output[newLen + k] := name[k];
    }
    newLen := newLen + |name|;
    output[newLen] := NUL;
    assert output[..newLen] == at.Down(name).Render();
    return true, newLen;
  }

  method StepUp(output: array<char>, outLen: nat, ghost at: Place) returns (newLen: nat)
    requires BufferHolds(output, outLen, at)
    modifies output
    ensures BufferHolds(output, newLen, at.Up())
  {
    RenderEndsInSlash(at);
    newLen := outLen;
    if outLen > 1 {
      newLen := DropLastName(output, outLen, at);
      RenderUp(at);
      output[newLen] := NUL;
    }
  }

  lemma WordsSkipSlash(path: string)
    requires path != "" && path[0] == '/'
    ensures Words(path) == Words(path[1..])
  {
  }

  method SkipSlashes(input: string, from: nat) returns (index: nat)
    requires from <= |input|
    ensures from <= index <= |input|
    ensures index < |input| ==> input[index] != '/'
    ensures Words(input[from..]) == Words(input[index..])
  {
    hide Words;
    index := from;
    while index < |input| && input[index] == '/'
      invariant from <= index <= |input|
      invariant Words(input[from..]) == Words(input[index..])
    {
      WordsSkipSlash(input[index..]);
      assert input[index..][1..] == input[index + 1..];
      index := index + 1;
    }
  }

  method SkipWord(input: string, from: nat) returns (index: nat)
    requires from < |input| && input[from] != '/'
    ensures from < index <= |input|
    ensures Words(input[from..]) == [input[from..index]] + Words(input[index..])
  {
    index := from;
    while index < |input| && input[index] != '/'
      invariant from <= index <= |input|
      invariant forall i :: from <= i < index ==> input[i] != '/'
    {
      index := index + 1;
    }
    var n := WordLength(input[from..]);
    assert n < |input| - from ==> input[from + n] == input[from..][n];
    assert forall i :: 0 <= i < n ==> input[from..][i] == input[from + i];
    assert n == index - from;
    assert input[from..][..n] == input[from..index] && input[from..][n..] == input[index..];
  }

  lemma WordIsName(input: string, start: nat, end: nat)
    requires start < end <= |input|
    requires Words(input[start..]) == [input[start..end]] + Words(input[end..])
    ensures var word := input[start..end]; word == "." || word == ".." || IsName(word)
    ensures NUL !in input ==> NUL !in input[start..end]
    ensures (Words(input[start..]))[1..] == Words(input[end..])
  {
    assert Words(input[start..])[0] == input[start..end];
  }

  /** The two backward loops for `..`: over the slash left behind, then over the last name. */
  method DropLastName(output: array<char>, outLen: nat, ghost at: Place) returns (newLen: nat)
    requires 1 < outLen <= output.Length
    requires at.Valid() && output[..outLen] == at.Render()
    ensures 1 <= newLen < outLen
    ensures output[..newLen] == at.Up().Render()
  {
    hide at.Render, at.Valid, at.Up, IsName;
    ghost var base, last := LastNameOf(at);
    newLen := outLen;
    if output[newLen - 1] == '/' {
      newLen := newLen - 1;
    }
    assert output[..newLen] == base + last;
    newLen := BackToSlash(output, newLen, base, last);
  }

  lemma LastNameOf(at: Place) returns (base: string, last: string)
    requires at.Valid() && |at.Render()| > 1
    ensures base == at.Up().Render() && base != "" && base[|base| - 1] == '/'
    ensures last != "" && SlashFree(last) && last[|last| - 1] != '/'
    ensures at.Render() == base + last + (if at.Render()[|at.Render()| - 1] == '/' then "/" else "")
  {
    assert at.names != [];
    hide at.Render;
    base, last := at.Up().Render(), at.names[|at.names| - 1];
    RenderUp(at);
    RenderEndsInSlash(at);
    RenderEndsInSlash(at.Up());
    assert IsName(last);
    assert last[|last| - 1] in last;
  }

  method BackToSlash(output: array<char>, end: nat, ghost base: string, ghost last: string) returns (newLen: nat)
    requires end <= output.Length && output[..end] == base + last
    requires base != "" && base[|base| - 1] == '/' && SlashFree(last)
    ensures newLen == |base| && output[..newLen] == base
  {
    newLen := end;
    assert output[..end][|base| - 1] == '/';
    forall i | |base| <= i < end ensures output[i] != '/' {
      assert output[i] == output[..end][i] == last[i - |base|];
    }
    ghost var content := output[..end];
    while newLen > 1 && output[newLen - 1] != '/'
      invariant |base| <= newLen <= end
    {
      newLen := newLen - 1;
    }
    assert output[..newLen] == content[..newLen];
  }

  // ---------------------------------------------------------------------------
  // The words of a rendered place

  lemma FirstWord(path: string)
    requires path != "" && path[0] != '/'
    ensures Words(path) == [path[..WordLength(path)]] + Words(path[WordLength(path)..])
  {
  }

  lemma WordsOfNothing()
    ensures Words("") == []
  {
  }

  lemma {:induction false} WordsOfConcat(left: string, right: string)
    requires right == "" || right[0] == '/' || left == "" || left[|left| - 1] == '/'
    ensures Words(left + right) == Words(left) + Words(right)
    decreases |left|
  {
    hide Words, WordLength;
    WordsOfNothing();
    if left == "" {
      assert left + right == right;
    } else if right == "" {
      assert left + right == left;
    } else if left[0] == '/' {
      assert (left + right)[1..] == left[1..] + right;
      WordsSkipSlash(left);
      WordsSkipSlash(left + right);
      WordsOfConcat(left[1..], right);
    } else {
      var n := WordLength(left);
      assert n < |left| ==> left[n] == '/';
      WordLengthIs(left + right, n);
      FirstWord(left);
      FirstWord(left + right);
      assert (left + right)[..n] == left[..n];
      assert (left + right)[n..] == left[n..] + right;
      WordsOfConcat(left[n..], right);
      assert [left[..n]] + (Words(left[n..]) + Words(right)) == ([left[..n]] + Words(left[n..])) + Words(right);
    }
  }

  lemma WordLengthIs(path: string, n: nat)
    requires n <= |path| && (forall i :: 0 <= i < n ==> path[i] != '/')
    requires n < |path| ==> path[n] == '/'
    ensures WordLength(path) == n
  {
  }

  lemma WordsOfWord(word: string)
    requires word != "" && SlashFree(word)
    ensures Words(word) == [word]
  {
    WordLengthIs(word, |word|);
    assert word[..|word|] == word && word[|word|..] == "";
    assert word[0] in word;
  }

  lemma {:induction false} WordsOfJoin(names: seq<string>)
    requires names != [] && forall i :: 0 <= i < |names| ==> names[i] != "" && SlashFree(names[i])
    ensures Words(Join(names)) == names
  {
    hide Words, WordLength;
    WordsOfWord(names[0]);
    if |names| > 1 {
      var tail := "/" + Join(names[1..]);
      WordsOfJoin(names[1..]);
      WordsOfConcat(names[0], tail);
      WordsSkipSlash(tail);
      assert tail[1..] == Join(names[1..]);
      assert Join(names) == names[0] + tail;
    } else {
      assert Join(names) == names[0];
    }
  }

  lemma WordsOfRender(at: Place)
    requires at.Valid()
    ensures Words(at.Render()) == at.names
  {
    if at.names != [] {
      WordsOfJoin(at.names);
      var text := "/" + Join(at.names);
      assert text[1..] == Join(at.names);
      if at.slashed {
        WordsOfConcat(text, "/");
      } else {
        assert at.Render() == text;
      }
    }
  }

  lemma {:induction false} WalkKeepsValid(words: seq<string>, at: Place, capacity: nat)
    requires at.Valid() && forall i :: 0 <= i < |words| ==> words[i] != "" && SlashFree(words[i])
    ensures Walk(words, at, capacity).Some? ==> Walk(words, at, capacity).value.Valid()
  {
    if words != [] {
      if words[0] == "." {
        WalkKeepsValid(words[1..], at, capacity);
      } else if words[0] == ".." {
        WalkKeepsValid(words[1..], at.Up(), capacity);
      } else {
        WalkKeepsValid(words[1..], at.Down(words[0]), capacity);
      }
    }
  }

  // ---------------------------------------------------------------------------
  // An independent reading of the walk: a name survives unless a later `..` cancels it

  /** The names that survive, read from the right, and the number of `..` left to cancel names further left. */
  function Survivors(words: seq<string>): (seq<string>, nat) {
    if words == [] then ([], 0)
    else
      var (kept, ups) := Survivors(words[1..]);
      if words[0] == "." then (kept, ups)
      else if words[0] == ".." then (kept, ups + 1)
      else if ups > 0 then (kept, ups - 1)
      else ([words[0]] + kept, 0)
  }

  /** The names left when the last few are cancelled. */
  function Cancelled(names: seq<string>, ups: nat): seq<string> {
    if ups <= |names| then names[..|names| - ups] else []
  }

  lemma CancelNothing(names: seq<string>)
    ensures Cancelled(names, 0) == names && names + [] == names
  {
  }

  lemma CancelUp(at: Place, ups: nat)
    ensures Cancelled(at.Up().names, ups) == Cancelled(at.names, ups + 1)
  {
  }

  lemma CancelDown(names: seq<string>, word: string, ups: nat)
    ensures Cancelled(names + [word], ups) == if ups > 0 then Cancelled(names, ups - 1) else names + [word]
    ensures Cancelled(names, 0) == names
  {
  }

  lemma {:induction false} WalkLeavesSurvivors(words: seq<string>, at: Place, capacity: nat)
    requires Walk(words, at, capacity).Some?
    ensures Walk(words, at, capacity).value.names == Cancelled(at.names, Survivors(words).1) + Survivors(words).0
  {
    hide Cancelled, at.Render, Join;
    if words == [] {
      CancelNothing(at.names);
    } else {
      var (kept, ups) := Survivors(words[1..]);
      if words[0] == "." {
        WalkLeavesSurvivors(words[1..], at, capacity);
      } else if words[0] == ".." {
        CancelUp(at, ups);
        WalkLeavesSurvivors(words[1..], at.Up(), capacity);
      } else {
        CancelDown(at.names, words[0], ups);
        WalkLeavesSurvivors(words[1..], at.Down(words[0]), capacity);
        assert (at.names + [words[0]]) + kept == at.names + ([words[0]] + kept);
      }
    }
  }

  /** Whether the last word other than `.` is a `..`. */
  predicate EndsGoingUp(words: seq<string>) {
    words != [] && (words[|words| - 1] == ".." || (words[|words| - 1] == "." && EndsGoingUp(words[..|words| - 1])))
  }

  lemma {:induction false} WalkAppend(words: seq<string>, word: string, at: Place, capacity: nat)
    ensures Walk(words + [word], at, capacity) ==
      match Walk(words, at, capacity)
      case None => None
      case Some(place) => Walk([word], place, capacity)
  {
    if words == [] {
      assert words + [word] == [word];
    } else {
      assert (words + [word])[1..] == words[1..] + [word];
      if words[0] == "." {
        WalkAppend(words[1..], word, at, capacity);
      } else if words[0] == ".." {
        WalkAppend(words[1..], word, at.Up(), capacity);
      } else {
        WalkAppend(words[1..], word, at.Down(words[0]), capacity);
      }
    }
  }

  lemma WalkOne(word: string, at: Place, capacity: nat)
    ensures Walk([word], at, capacity) ==
      if word == "." then Some(at)
      else if word == ".." then Some(at.Up())
      else if |at.Down(word).Render()| >= capacity then None
      else Some(at.Down(word))
  {
    assert [word][1..] == [];
  }

  lemma {:induction false} SlashIsLeftByGoingUp(words: seq<string>, capacity: nat)
    requires Walk(words, ROOT, capacity).Some?
    ensures var place := Walk(words, ROOT, capacity).value;
      place.slashed <==> place.names != [] && EndsGoingUp(words)
    decreases |words|
  {
    hide Join;
    if words != [] {
      var n := |words| - 1;
      assert words == words[..n] + [words[n]];
      WalkAppend(words[..n], words[n], ROOT, capacity);
      SlashIsLeftByGoingUp(words[..n], capacity);
      WalkOne(words[n], Walk(words[..n], ROOT, capacity).value, capacity);
    }
  }

  /** What a successful collapse returns. */
  lemma CollapsedMeaning(input: string, capacity: nat)
    requires Collapsed(input, capacity).Some?
    ensures var output := Collapsed(input, capacity).value;
            var names := Survivors(Words(input)).0;
      && |output| < capacity
      && Words(output) == names
      && (forall i :: 0 <= i < |names| ==> IsName(names[i]))
      && output == if names == [] then "/"
                   else "/" + Join(names) + (if EndsGoingUp(Words(input)) then "/" else "")
  {
    var words := Words(input);
    var place := Walk(words, ROOT, capacity).value;
    WalkKeepsValid(words, ROOT, capacity);
    WalkLeavesSurvivors(words, ROOT, capacity);
    SlashIsLeftByGoingUp(words, capacity);
    WordsOfRender(place);
    WalkFits(words, ROOT, capacity);
    assert place.names == [] + Survivors(words).0;
  }

  lemma {:induction false} WalkFits(words: seq<string>, at: Place, capacity: nat)
    requires at.Valid() && |at.Render()| < capacity && Walk(words, at, capacity).Some?
    requires forall i :: 0 <= i < |words| ==> words[i] != "" && SlashFree(words[i])
    ensures |Walk(words, at, capacity).value.Render()| < capacity
  {
    if words != [] {
      if words[0] == "." {
        WalkFits(words[1..], at, capacity);
      } else if words[0] == ".." {
        if at.names != [] {
          RenderUp(at);
        }
        WalkFits(words[1..], at.Up(), capacity);
      } else {
        WalkFits(words[1..], at.Down(words[0]), capacity);
      }
    }
  }

  /** Collapsing never needs more room than its input. */
  lemma CollapseFits(input: string, capacity: nat)
    requires input != "" && input[0] == '/'
    requires |input| < capacity
    ensures Collapsed(input, capacity).Some?
  {
    assert Words(input) == Words(input[1..]);
    WalkHasRoom(input[1..], ROOT, capacity);
  }

  lemma {:induction false} WalkHasRoom(rest: string, at: Place, capacity: nat)
    requires at.Valid() && |at.Render()| + |rest| < capacity
    requires at.names != [] && !at.slashed && rest != "" ==> rest[0] == '/'
    ensures Walk(Words(rest), at, capacity).Some?
    decreases |rest|
  {
    if rest == "" {
    } else if rest[0] == '/' {
      WordsSkipSlash(rest);
      WalkHasRoomAfterSlash(rest[1..], at, capacity);
    } else {
      WalkHasRoomAfterSlash(rest, at, capacity);
    }
  }

  lemma UpIsShorter(at: Place)
    requires at.Valid()
    ensures at.Up().Valid() && |at.Up().Render()| + (if at.Up().names != [] && !at.Up().slashed then 1 else 0) <= |at.Render()|
  {
    if at.names != [] {
      RenderUp(at);
      assert IsName(at.names[|at.names| - 1]);
    }
  }

  lemma {:induction false} WalkHasRoomAfterSlash(rest: string, at: Place, capacity: nat)
    requires at.Valid()
    requires |at.Render()| + |rest| + (if at.names != [] && !at.slashed then 1 else 0) < capacity
    ensures Walk(Words(rest), at, capacity).Some?
    decreases |rest|, 1
  {
    if rest == "" {
    } else if rest[0] == '/' {
      WordsSkipSlash(rest);
      WalkHasRoomAfterSlash(rest[1..], at, capacity);
    } else {
      var n := WordLength(rest);
      var word, tail := rest[..n], rest[n..];
      assert Words(rest) == [word] + Words(tail) && Words(rest)[1..] == Words(tail);
      assert Words(rest)[0] == word;
      hide Words, at.Render;
      if word == "." {
        WalkHasRoomAfterSlash(tail, at, capacity);
      } else if word == ".." {
        UpIsShorter(at);
        WalkHasRoomAfterSlash(tail, at.Up(), capacity);
      } else {
        RenderDown(at, word);
        assert IsName(word);
        WalkHasRoom(tail, at.Down(word), capacity);
      }
    }
  }

  lemma {:induction false} JoinLengthGrows(done: seq<string>, more: seq<string>)
    ensures |Place(done, false).Render()| <= |Place(done + more, false).Render()|
  {
    if done == [] {
    } else if more == [] {
      assert done + more == done;
    } else {
      JoinAppend(done, more);
    }
  }

  lemma {:induction false} WalkOverNames(names: seq<string>, done: seq<string>, capacity: nat)
    requires forall i :: 0 <= i < |names| ==> IsName(names[i])
    requires |Place(done + names, false).Render()| < capacity
    ensures Walk(names, Place(done, false), capacity) == Some(Place(done + names, false))
  {
    if names == [] {
      assert done + names == done;
    } else {
      assert (done + [names[0]]) + names[1..] == done + names;
      JoinLengthGrows(done + [names[0]], names[1..]);
      WalkOverNames(names[1..], done + [names[0]], capacity);
    }
  }

  predicate LeavesSlash(input: string) {
    Survivors(Words(input)).0 != [] && EndsGoingUp(Words(input))
  }

  /** Collapsing its own output changes it just when a final `..` left a slash behind; a third time changes nothing. */
  lemma CollapseTwice(input: string, capacity: nat)
    requires Collapsed(input, capacity).Some?
    ensures var once := Collapsed(input, capacity).value;
            var twice := Collapsed(once, capacity);
      && twice.Some?
      && (twice.value == once <==> !LeavesSlash(input))
      && Collapsed(twice.value, capacity) == twice
  {
    CollapsedMeaning(input, capacity);
    var once := Collapsed(input, capacity).value;
    var names := Survivors(Words(input)).0;
    var clean := Place(names, false);
    assert [] + names == names;
    assert |clean.Render()| <= |once| < capacity;
    WalkOverNames(names, [], capacity);
    WordsOfRender(clean);
    assert Collapsed(once, capacity) == Some(clean.Render());
  }

  // ---------------------------------------------------------------------------
  // Storage aliases

  const ALIASES: seq<string> := [
    "/storage/emulated/0",
    "/storage/self/primary",
    "/storage/emulated/legacy",
    "/sdcard",
    "/mnt/sdcard"
  ]

  /** The path with the first alias it starts with replaced; none if the replacement does not fit. */
  function MapAlias(input: string, from: nat): Option<string>
    requires from <= |ALIASES|
    decreases |ALIASES| - from
  {
    if from == |ALIASES| then Some(input)
    else if IsDirectoryMatch(input, ALIASES[from]) then
      var mapped := EXTERNAL_ROOT + input[|ALIASES[from]|..];
      if |mapped| >= MAX_PATH then None else Some(mapped)
    else MapAlias(input, from + 1)
  }

  function TrimSlashes(path: string): string {
    if |path| > 1 && path[|path| - 1] == '/' then TrimSlashes(path[..|path| - 1]) else path
  }

  function Normalized(input: string, capacity: nat): Option<string> {
    if capacity == 0 || input == "" then None
    else
      match MapAlias(input, 0)
      case None => None
      case Some(source) =>
        if source != "" && source[0] == '/' then Collapsed(source, capacity)
        else if |source| + 1 > capacity then None
        else Some(TrimSlashes(source))
  }

  method CopyTrimmedPath(input: string, output: array<char>) returns (ok: bool)
    requires NUL !in input
    modifies output
    ensures ok <==> |input| + 1 <= output.Length
    ensures ok ==> CString(output[..]) == TrimSlashes(input)
  {
    if |input| + 1 > output.Length {
      return false;
    }
    forall k | 0 <= k < |input| {
      output[k] := input[k];
    }
    output[|input|] := NUL;
    DropSlashes(output, input);
    return true;
  }

  /** Cuts the slashes off the end of the text in the buffer. */
  method DropSlashes(output: array<char>, input: string)
    requires NUL !in input && |input| < output.Length && output[..|input|] == input && output[|input|] == NUL
    modifies output
    ensures CString(output[..]) == TrimSlashes(input)
  {
    var length := |input|;
    assert input[..length] == input;
    while length > 1 && output[length - 1] == '/'
      invariant length <= |input|
      invariant output[..length] == input[..length] && output[length] == NUL
      invariant TrimSlashes(input[..length]) == TrimSlashes(input)
    {
      assert input[..length][..length - 1] == input[..length - 1];
      output[length - 1] := NUL;
      length := length - 1;
    }
    assert output[..][..length] == input[..length];
  }

  predicate HasAlias(input: string, from: nat)
    requires from <= |ALIASES|
    decreases |ALIASES| - from
  {
    from < |ALIASES| && (IsDirectoryMatch(input, ALIASES[from]) || HasAlias(input, from + 1))
  }

  /** The loop over the aliases. */
  method FindAlias(input: string) returns (found: bool, mapped: Option<string>)
    ensures found <==> HasAlias(input, 0)
    ensures MapAlias(input, 0) == if found then mapped else Some(input)
    ensures found && mapped.Some? ==> StartsWith(mapped.value, EXTERNAL_ROOT)
  {
    var index := 0;
    while index < |ALIASES|
      invariant 0 <= index <= |ALIASES|
      invariant MapAlias(input, index) == MapAlias(input, 0) && HasAlias(input, index) == HasAlias(input, 0)
    {
      if IsDirectoryMatch(input, ALIASES[index]) {
        var source := EXTERNAL_ROOT + input[|ALIASES[index]|..];
        return true, if |source| >= MAX_PATH then None else Some(source);
      }
      index := index + 1;
    }
    return false, None;
  }

  method NormalizePath(input: string, output: array<char>) returns (ok: bool)
    requires NUL !in input
    modifies output
    ensures ok <==> Normalized(input, output.Length).Some?
    ensures ok ==> CString(output[..]) == Normalized(input, output.Length).value
  {
    if output.Length == 0 || input == "" {
      return false;
    }
    var found, mapped := FindAlias(input);
    if found && mapped.None? {
      return false;
    }
    var source := if found then mapped.value else input;
    MappedIsClean(input, source);
    if source[0] == '/' {
      ok := CollapseAbsolutePath(source, output);
    } else {
      ok := CopyTrimmedPath(source, output);
    }
  }

  lemma MappedIsClean(input: string, source: string)
    requires NUL !in input && input != "" && MapAlias(input, 0) == Some(source)
    ensures NUL !in source && source != ""
  {
    MapAliasIsClean(input, 0);
  }

  lemma {:induction false} MapAliasIsClean(input: string, from: nat)
    requires NUL !in input && input != "" && from <= |ALIASES|
    ensures MapAlias(input, from).Some? ==> NUL !in MapAlias(input, from).value && MapAlias(input, from).value != ""
    decreases |ALIASES| - from
  {
    hide IsDirectoryMatch;
    if from < |ALIASES| {
      MapAliasIsClean(input, from + 1);
      if |input| >= |ALIASES[from]| {
        RootIsClean(input[|ALIASES[from]|..]);
      }
    }
  }

  lemma RootIsClean(suffix: string)
    requires NUL !in suffix
    ensures NUL !in EXTERNAL_ROOT + suffix
  {
  }

  // ---------------------------------------------------------------------------
  // One buffer as input and output

  /** What the same call yields when it reads its input from the buffer that it writes. Only a path under an alias is
    copied first; collapsing any other absolute path begins by overwriting it. */
  function NormalizedInPlace(input: string, capacity: nat): Option<string> {
    if HasAlias(input, 0) then Normalized(input, capacity)
    else if input == "" then None
    else if input[0] == '/' then Some("/")
    else Some(TrimSlashes(input))
  }

  lemma CStringEnds(buffer: seq<char>)
    requires NUL in buffer
    ensures var text := CString(buffer);
      NUL !in text && |text| < |buffer| && buffer[..|text|] == text && buffer[|text|] == NUL
  {
  }

  method NormalizeInPlace(buffer: array<char>) returns (ok: bool)
    requires NUL in buffer[..]
    modifies buffer
    ensures var result := NormalizedInPlace(old(CString(buffer[..])), buffer.Length);
      (ok <==> result.Some?) && (ok ==> CString(buffer[..]) == result.value)
  {
    hide MapAlias, HasAlias, Normalized, Collapsed, TrimSlashes;
    CStringEnds(buffer[..]);
    var input := CString(buffer[..]);
    if input == "" {
      NothingHasNoAlias();
      return false;
    }
    var found, mapped := FindAlias(input);
    if found {
      ok := NormalizePath(input, buffer);
    } else if buffer[0] == '/' {
      CollapseInPlace(buffer);
      return true;
    } else {
      DropSlashes(buffer, input);
      return true;
    }
  }

  lemma NothingHasNoAlias()
    ensures !HasAlias("", 0)
  {
    assert !HasAlias("", 4) && !HasAlias("", 3) && !HasAlias("", 2) && !HasAlias("", 1);
  }

  /** The collapsing loop finds the end of its input at once, behind the slash it has just written. */
  method CollapseInPlace(buffer: array<char>)
    requires buffer.Length >= 2
    modifies buffer
    ensures CString(buffer[..]) == "/"
  {
    buffer[0], buffer[1] := '/', NUL;
    var index := 0;
    while buffer[index] != NUL
      invariant 0 <= index <= 1 && buffer[0] == '/' && buffer[1] == NUL
      decreases 1 - index
    {
      while buffer[index] == '/'
        invariant 0 <= index <= 1 && buffer[0] == '/' && buffer[1] == NUL
        decreases 1 - index
      {
        index := index + 1;
      }
      if buffer[index] == NUL {
        break;
      }
    }
    assert buffer[..][..1] == "/";
  }

  // ---------------------------------------------------------------------------
  // Joining

  /** The text that fm_join_path puts together for a relative entry name. */
  function JoinText(base: string, entry: string): Option<string> {
    match Normalized(base, MAX_PATH)
    case None => None
    case Some(normal) => Some(if normal == "/" then "/" + entry else normal + "/" + entry)
  }

  function JoinedPath(base: string, entry: string, capacity: nat): Option<string> {
    if entry == "" || capacity == 0 then None
    else if entry[0] == '/' then Normalized(entry, capacity)
    else if JoinText(base, entry).None? || |JoinText(base, entry).value| >= capacity then None
    else NormalizedInPlace(JoinText(base, entry).value, capacity)
  }

  method JoinPath(base: string, entry: string, output: array<char>) returns (ok: bool)
    requires NUL !in base && NUL !in entry
    modifies output
    ensures var result := JoinedPath(base, entry, output.Length);
      (ok <==> result.Some?) && (ok ==> CString(output[..]) == result.value)
  {
    hide Normalized, NormalizedInPlace;
    if output.Length == 0 || entry == "" {
      return false;
    }
    if entry[0] == '/' {
      ok := NormalizePath(entry, output);
      return;
    }
    var normalBase := new char[MAX_PATH];
    ok := NormalizePath(base, normalBase);
    if !ok {
      return;
    }
    var normal := CString(normalBase[..]);
    var text := if normal == "/" then "/" + entry else normal + "/" + entry;
    if |text| >= output.Length {
      return false;
    }
    CStringIsClean(normalBase[..]);
    WriteText(output, text);
    ok := NormalizeInPlace(output);
  }

  lemma CStringIsClean(buffer: seq<char>)
    ensures NUL !in CString(buffer)
  {
  }

  method WriteText(output: array<char>, text: string)
    requires NUL !in text && |text| < output.Length
    modifies output
    ensures NUL in output[..] && CString(output[..]) == text
  {
    forall k | 0 <= k < |text| {
      output[k] := text[k];
    }
    output[|text|] := NUL;
    assert output[..][..|text|] == text;
    assert output[..][|text|] == NUL;
  }

  /** Joining with a relative entry name yields the normal form of the joined text exactly when that text lies under an
    alias of shared storage, is not absolute, or has nothing left after collapsing. Everywhere else it yields the root. */
  lemma JoinIsNormal(base: string, entry: string, capacity: nat)
    requires entry != "" && entry[0] != '/' && JoinText(base, entry).Some? && |JoinText(base, entry).value| < capacity
    ensures var text := JoinText(base, entry).value;
      JoinedPath(base, entry, capacity) == Normalized(text, capacity) <==>
        HasAlias(text, 0) || text[0] != '/' || Survivors(Words(text)).0 == []
  {
    hide Words, Survivors, Collapsed, HasAlias, TrimSlashes, Normalized;
    var text := JoinText(base, entry).value;
    if !HasAlias(text, 0) {
      NormalWithoutAlias(text, capacity);
      if text[0] == '/' {
        CollapseFits(text, capacity);
        CollapsedMeaning(text, capacity);
        SlashIsRoot(Survivors(Words(text)).0, EndsGoingUp(Words(text)));
      }
    }
  }

  lemma SlashIsRoot(names: seq<string>, slashed: bool)
    requires forall i :: 0 <= i < |names| ==> IsName(names[i])
    ensures (if names == [] then "/" else "/" + Join(names) + (if slashed then "/" else "")) == "/" <==> names == []
  {
    if names != [] {
      assert IsName(names[0]);
      assert |Join(names)| >= |names[0]|;
    }
  }

  lemma {:induction false} NormalWithoutAlias(input: string, capacity: nat)
    requires input != "" && !HasAlias(input, 0) && |input| < capacity
    ensures Normalized(input, capacity) == if input[0] == '/' then Collapsed(input, capacity) else Some(TrimSlashes(input))
  {
    hide Collapsed, TrimSlashes;
    NotMapped(input, 0);
  }

  lemma {:induction false} NotMapped(input: string, from: nat)
    requires from <= |ALIASES| && !HasAlias(input, from)
    ensures MapAlias(input, from) == Some(input)
    decreases |ALIASES| - from
  {
    if from < |ALIASES| {
      NotMapped(input, from + 1);
    }
  }

  lemma AliasesAreApart(i: nat, j: nat, suffix: string)
    requires i < |ALIASES| && j < |ALIASES| && i != j
    ensures !IsDirectoryMatch(ALIASES[i] + suffix, ALIASES[j])
  {
    var path := ALIASES[i] + suffix;
    var at := if i == 4 || j == 4 then 1 else if i == 3 || j == 3 then 2 else if i == 1 || j == 1 then 9 else 18;
    assert ALIASES[i][at] != ALIASES[j][at] && path[at] == ALIASES[i][at];
    DiffersAt(path, ALIASES[j], at);
  }

  lemma {:induction false} MapAliasFinds(i: nat, suffix: string, from: nat)
    requires from <= i < |ALIASES|
    requires suffix == "" || suffix[0] == '/'
    ensures MapAlias(ALIASES[i] + suffix, from) ==
            if |EXTERNAL_ROOT + suffix| >= MAX_PATH then None else Some(EXTERNAL_ROOT + suffix)
    decreases |ALIASES| - from
  {
    var path := ALIASES[i] + suffix;
    if from < i {
      AliasesAreApart(i, from, suffix);
      MapAliasFinds(i, suffix, from + 1);
    } else {
      assert path[..|ALIASES[i]|] == ALIASES[i];
      assert path[|ALIASES[i]|..] == suffix;
    }
  }

  /** One file has one normal form, whichever alias of shared storage names it. */
  lemma AliasesAgree(i: nat, j: nat, suffix: string, capacity: nat)
    requires i < |ALIASES| && j < |ALIASES|
    requires suffix == "" || suffix[0] == '/'
    ensures Normalized(ALIASES[i] + suffix, capacity) == Normalized(ALIASES[j] + suffix, capacity)
  {
    hide MapAlias, Collapsed, TrimSlashes;
    MapAliasFinds(i, suffix, 0);
    MapAliasFinds(j, suffix, 0);
  }

  predicate IsExternal(path: string) {
    IsDirectoryMatch(path, EXTERNAL_ROOT)
  }

  /** The path below shared storage, as fm_get_relative_external_path returns it. */
  function RelativeExternal(input: string, capacity: nat): Option<string> {
    match Normalized(input, MAX_PATH)
    case None => None
    case Some(path) =>
      if !IsExternal(path) then None
      else
        var rest := path[|EXTERNAL_ROOT|..];
        var relative := if rest != "" && rest[0] == '/' then rest[1..] else rest;
        if relative == "" || |relative| + 1 > capacity then None else Some(TrimSlashes(relative))
  }
}
