/** The single-segment wildcard matcher of native/rule_engine.cpp (lines 195-223), which the daemon repeats.

  `Matches` says declaratively what `*` and `?` mean. `Run` is the state of the greedy matcher: the matcher
  remembers one star only and tests a character for literal equality before it asks whether the pattern
  character is a star. `Accepts` is the answer it gives.
*/
module Glob {

  predicate IsLiteral(pattern: string) {
    '*' !in pattern && '?' !in pattern
  }

  predicate AllStars(pattern: string) {
    forall i :: 0 <= i < |pattern| ==> pattern[i] == '*'
  }

  /** The meaning of a pattern: `*` stands for any run of characters, `?` for exactly one. */
  ghost predicate Matches(pattern: string, text: string)
    decreases |pattern|
  {
    if pattern == "" then text == ""
    else if pattern[0] == '*' then exists k :: 0 <= k <= |text| && Matches(pattern[1..], text[k..])
    else text != "" && (pattern[0] == '?' || pattern[0] == text[0]) && Matches(pattern[1..], text[1..])
  }

  /** The star the matcher falls back to, and the text position from which that star was last tried. */
  datatype Mark = NoMark | Mark(star: nat, start: nat)

  ghost predicate ValidState(pattern: string, text: string, p: nat, t: nat, mark: Mark) {
    && p <= |pattern|
    && t <= |text|
    && (mark.Mark? ==> mark.star < p && mark.start <= t)
  }

  function Run(pattern: string, text: string, p: nat, t: nat, mark: Mark): bool
    requires ValidState(pattern, text, p, t, mark)
    decreases if mark.Mark? then |text| - mark.start else |text| + 1, |pattern| - p
  {
    if t == |text| then
      AllStars(pattern[p..])
    else if p < |pattern| && (pattern[p] == '?' || pattern[p] == text[t]) then
      Run(pattern, text, p + 1, t + 1, mark)
    else if p < |pattern| && pattern[p] == '*' then
      Run(pattern, text, p + 1, t, Mark(p, t))
    else if mark.Mark? then
      Run(pattern, text, mark.star + 1, mark.start + 1, Mark(mark.star, mark.start + 1))
    else
      false
  }

  /** The answer of the greedy matcher, for any pattern and any text. */
  predicate Accepts(pattern: string, text: string) {
    Run(pattern, text, 0, 0, NoMark)
  }

  /** The loop of the matcher. `steps` counts the turns of the main loop. */
  method MatchGlob(pattern: string, text: string) returns (matched: bool, ghost steps: nat)
    ensures matched == Accepts(pattern, text)
    ensures matched ==> Matches(pattern, text)
    ensures '*' !in text ==> (matched <==> Matches(pattern, text))
    ensures steps <= (|text| + 1) * (|pattern| + 1)
  {
    AcceptsIsSound(pattern, text);
    if '*' !in text {
      AcceptsIsComplete(pattern, text);
    }
    hide Matches, AllStars, Turns;
    NoTurns(|pattern|);
    var p: nat, t: nat := 0, 0;
    var star, start := -1, 0;
    ghost var backtracks: nat := 0;
    steps := 0;
    while t < |text|
      invariant p <= |pattern| && t <= |text|
      invariant -1 <= star < p && 0 <= start <= t
      invariant backtracks <= start
      invariant steps <= Turns(backtracks, |pattern|) + p
      invariant Run(pattern, text, p, t, ToMark(star, start)) == Accepts(pattern, text)
      decreases |text| - start, |pattern| - p
    {
      steps := steps + 1;
      if p < |pattern| && (pattern[p] == '?' || pattern[p] == text[t]) {
        p, t := p + 1, t + 1;
      } else if p < |pattern| && pattern[p] == '*' {
        star, p, start := p, p + 1, t;
      } else if star != -1 {
        OneMoreRound(backtracks, |pattern|);
        p, start, t := star + 1, start + 1, start + 1;
        backtracks := backtracks + 1;
      } else {
        StepBound(backtracks, p + 1, |text|, |pattern|);
        return false, steps;
      }
    }
    StepBound(backtracks, p, |text|, |pattern|);
    p := SkipStars(pattern, p);
    return p == |pattern|, steps;
  }

  method SkipStars(pattern: string, from: nat) returns (p: nat)
    requires from <= |pattern|
    ensures p <= |pattern|
    ensures p == |pattern| <==> AllStars(pattern[from..])
  {
    p := from;
    while p < |pattern| && pattern[p] == '*'
      invariant from <= p <= |pattern|
      invariant forall i :: from <= i < p ==> pattern[i] == '*'
    {
      p := p + 1;
    }
    assert p < |pattern| ==> pattern[from..][p - from] != '*';
  }

  function ToMark(star: int, start: nat): Mark {
    if star < 0 then NoMark else Mark(star, start)
  }

  /** The turns that so many rounds through the pattern can take. */
  function Turns(rounds: nat, patternLen: nat): nat {
    rounds * (patternLen + 1)
  }

  lemma NoTurns(patternLen: nat)
    ensures Turns(0, patternLen) == 0
  {
  }

  lemma OneMoreRound(rounds: nat, patternLen: nat)
    ensures Turns(rounds + 1, patternLen) == Turns(rounds, patternLen) + patternLen + 1
  {
  }

  lemma StepBound(backtracks: nat, inEpoch: nat, textLen: nat, patternLen: nat)
    requires backtracks <= textLen && inEpoch <= patternLen + 1
    ensures Turns(backtracks, patternLen) + inEpoch <= (textLen + 1) * (patternLen + 1)
  {
    assert backtracks * (patternLen + 1) <= textLen * (patternLen + 1);
  }

  // ---------------------------------------------------------------------------
  // Soundness: whatever the text, an accepted text has the shape the pattern describes.

  ghost predicate LaterStart(pattern: string, text: string, mark: Mark)
    requires mark.Mark? ==> mark.star < |pattern| && mark.start <= |text|
  {
    mark.Mark? && exists k :: mark.start < k <= |text| && Matches(pattern[mark.star + 1..], text[k..])
  }

  lemma StarAbsorbs(pattern: string, text: string, p: nat, t: nat, k: nat)
    requires p < |pattern| && pattern[p] == '*'
    requires t <= k <= |text|
    requires Matches(pattern[p + 1..], text[k..])
    ensures Matches(pattern[p..], text[t..])
  {
    assert pattern[p..][1..] == pattern[p + 1..];
    assert text[t..][k - t..] == text[k..];
  }

  lemma {:induction false} RunIsSound(pattern: string, text: string, p: nat, t: nat, mark: Mark)
    requires ValidState(pattern, text, p, t, mark)
    requires Run(pattern, text, p, t, mark)
    ensures Matches(pattern[p..], text[t..]) || LaterStart(pattern, text, mark)
    decreases if mark.Mark? then |text| - mark.start else |text| + 1, |pattern| - p
  {
    if t == |text| {
      StarsMatchNothing(pattern[p..]);
      assert text[t..] == "";
    } else if p < |pattern| && (pattern[p] == '?' || pattern[p] == text[t]) {
      RunIsSound(pattern, text, p + 1, t + 1, mark);
      if Matches(pattern[p + 1..], text[t + 1..]) {
        if pattern[p] == '*' {
          StarAbsorbs(pattern, text, p, t, t + 1);
        } else {
          assert pattern[p..][1..] == pattern[p + 1..] && text[t..][1..] == text[t + 1..];
        }
      }
    } else if p < |pattern| && pattern[p] == '*' {
      RunIsSound(pattern, text, p + 1, t, Mark(p, t));
      var k :| t <= k <= |text| && Matches(pattern[p + 1..], text[k..]);
      StarAbsorbs(pattern, text, p, t, k);
    } else {
      RunIsSound(pattern, text, mark.star + 1, mark.start + 1, Mark(mark.star, mark.start + 1));
    }
  }

  lemma {:induction false} StarsMatchNothing(pattern: string)
    requires AllStars(pattern)
    ensures Matches(pattern, "")
  {
    if pattern != "" {
      StarsMatchNothing(pattern[1..]);
      assert ""[0..] == "";
    }
  }

  lemma AcceptsIsSound(pattern: string, text: string)
    ensures Accepts(pattern, text) ==> Matches(pattern, text)
  {
    if Accepts(pattern, text) {
      RunIsSound(pattern, text, 0, 0, NoMark);
      assert pattern[0..] == pattern && text[0..] == text;
    }
  }

  // ---------------------------------------------------------------------------
  // Completeness on texts without a star: forgetting every star but the last one loses nothing.

  /** The pattern between the remembered star and `p` is star-free and lies over text[mark.start..t]. */
  ghost predicate Aligned(pattern: string, p: nat, t: nat, mark: Mark)
    requires p <= |pattern| && (mark.Mark? ==> mark.star < p && mark.start <= t)
  {
    mark.Mark? ==>
      && pattern[mark.star] == '*'
      && '*' !in pattern[mark.star + 1..p]
      && p - (mark.star + 1) == t - mark.start
  }

  lemma {:induction false} ChunkConsumesItsLength(chunk: string, rest: string, text: string)
    requires '*' !in chunk
    requires Matches(chunk + rest, text)
    ensures |chunk| <= |text| && Matches(rest, text[|chunk|..])
  {
    if chunk == "" {
      assert chunk + rest == rest && text[0..] == text;
    } else {
      assert (chunk + rest)[1..] == chunk[1..] + rest;
      assert (chunk + rest)[0] == chunk[0] && chunk[0] in chunk;
      ChunkConsumesItsLength(chunk[1..], rest, text[1..]);
      assert text[1..][|chunk| - 1..] == text[|chunk|..];
    }
  }

  lemma {:induction false} OnlyStarsMatchNothing(pattern: string)
    requires Matches(pattern, "")
    ensures AllStars(pattern)
  {
    if pattern != "" {
      assert forall k :: 0 <= k <= 0 ==> ""[k..] == "";
      OnlyStarsMatchNothing(pattern[1..]);
      assert forall i :: 0 < i < |pattern| ==> pattern[i] == pattern[1..][i - 1];
    }
  }

  /** A later start of the remembered star also has to pass the chunk that follows it. */
  lemma LaterStartPassesChunk(pattern: string, text: string, p: nat, t: nat, mark: Mark) returns (k: nat)
    requires ValidState(pattern, text, p, t, mark) && Aligned(pattern, p, t, mark)
    requires LaterStart(pattern, text, mark)
    ensures t < k <= |text| && Matches(pattern[p..], text[k..])
  {
    hide AllStars, Matches;
    var j :| mark.start < j <= |text| && Matches(pattern[mark.star + 1..], text[j..]);
    var chunk := pattern[mark.star + 1..p];
    assert pattern[mark.star + 1..] == chunk + pattern[p..];
    ChunkConsumesItsLength(chunk, pattern[p..], text[j..]);
    k := j + |chunk|;
    assert text[j..][|chunk|..] == text[k..];
  }

  lemma {:induction false} RunIsComplete(pattern: string, text: string, p: nat, t: nat, mark: Mark)
    requires '*' !in text
    requires ValidState(pattern, text, p, t, mark) && Aligned(pattern, p, t, mark)
    requires Matches(pattern[p..], text[t..]) || LaterStart(pattern, text, mark)
    ensures Run(pattern, text, p, t, mark)
    decreases if mark.Mark? then |text| - mark.start else |text| + 1, |pattern| - p
  {
    hide Matches, LaterStart, AllStars;
    if t == |text| {
      EndMeansStars(pattern, text, p, mark);
    } else if p < |pattern| && (pattern[p] == '?' || pattern[p] == text[t]) {
      StepStaysAligned(pattern, text, p, t, mark);
      RunIsComplete(pattern, text, p + 1, t + 1, mark);
    } else if p < |pattern| && pattern[p] == '*' {
      StarIsPassed(pattern, text, p, t, mark);
      RunIsComplete(pattern, text, p + 1, t, Mark(p, t));
    } else {
      MismatchMeansLater(pattern, text, p, t, mark);
      assert pattern[mark.star + 1..mark.star + 1] == "";
      RunIsComplete(pattern, text, mark.star + 1, mark.start + 1, Mark(mark.star, mark.start + 1));
    }
  }

  lemma EndMeansStars(pattern: string, text: string, p: nat, mark: Mark)
    requires ValidState(pattern, text, p, |text|, mark) && Aligned(pattern, p, |text|, mark)
    requires Matches(pattern[p..], text[|text|..]) || LaterStart(pattern, text, mark)
    ensures AllStars(pattern[p..])
  {
    if LaterStart(pattern, text, mark) {
      var k := LaterStartPassesChunk(pattern, text, p, |text|, mark);
      assert false;
    } else {
      assert text[|text|..] == "";
      OnlyStarsMatchNothing(pattern[p..]);
    }
  }

  lemma StepStaysAligned(pattern: string, text: string, p: nat, t: nat, mark: Mark)
    requires '*' !in text && p < |pattern| && t < |text| && (pattern[p] == '?' || pattern[p] == text[t])
    requires ValidState(pattern, text, p, t, mark) && Aligned(pattern, p, t, mark)
    ensures ValidState(pattern, text, p + 1, t + 1, mark) && Aligned(pattern, p + 1, t + 1, mark)
    ensures Matches(pattern[p..], text[t..]) ==> Matches(pattern[p + 1..], text[t + 1..])
  {
    assert text[t] in text;
    assert pattern[p..][1..] == pattern[p + 1..] && text[t..][1..] == text[t + 1..];
    if mark.Mark? {
      assert pattern[mark.star + 1..p + 1] == pattern[mark.star + 1..p] + [pattern[p]];
    }
  }

  lemma StarIsPassed(pattern: string, text: string, p: nat, t: nat, mark: Mark)
    requires p < |pattern| && t < |text| && pattern[p] == '*'
    requires ValidState(pattern, text, p, t, mark) && Aligned(pattern, p, t, mark)
    requires Matches(pattern[p..], text[t..]) || LaterStart(pattern, text, mark)
    ensures Matches(pattern[p + 1..], text[t..]) || LaterStart(pattern, text, Mark(p, t))
  {
    var at: nat := t;
    if !Matches(pattern[p..], text[t..]) {
      at := LaterStartPassesChunk(pattern, text, p, t, mark);
    }
    StarCovers(pattern, text, p, at);
    var k :| at <= k <= |text| && Matches(pattern[p + 1..], text[k..]);
    assert k > t || text[k..] == text[t..];
  }

  lemma StarCovers(pattern: string, text: string, p: nat, at: nat)
    requires p < |pattern| && at <= |text| && pattern[p] == '*' && Matches(pattern[p..], text[at..])
    ensures exists k :: at <= k <= |text| && Matches(pattern[p + 1..], text[k..])
  {
    assert pattern[p..][1..] == pattern[p + 1..];
    var k :| 0 <= k <= |text[at..]| && Matches(pattern[p + 1..], text[at..][k..]);
    assert text[at..][k..] == text[at + k..];
  }

  /** A mismatch leaves the later starts of the star: the next one, or one after it. */
  lemma MismatchMeansLater(pattern: string, text: string, p: nat, t: nat, mark: Mark)
    requires ValidState(pattern, text, p, t, mark) && t < |text|
    requires p < |pattern| ==> pattern[p] != '?' && pattern[p] != text[t] && pattern[p] != '*'
    requires Matches(pattern[p..], text[t..]) || LaterStart(pattern, text, mark)
    ensures mark.Mark? && mark.start + 1 <= |text|
    ensures Matches(pattern[mark.star + 1..], text[mark.start + 1..])
      || LaterStart(pattern, text, Mark(mark.star, mark.start + 1))
  {
  }

  lemma AcceptsIsComplete(pattern: string, text: string)
    requires '*' !in text
    ensures Matches(pattern, text) ==> Accepts(pattern, text)
  {
    if Matches(pattern, text) {
      assert pattern[0..] == pattern && text[0..] == text;
      RunIsComplete(pattern, text, 0, 0, NoMark);
    }
  }

  // ---------------------------------------------------------------------------
  // Exactly when the matcher can be trusted: for every pattern just when the text has no star, and for
  // every text just when the pattern has none. With a star on both sides it eats the star literally.

  lemma {:induction false} RunOverEqualPrefix(pattern: string, text: string, p: nat, n: nat)
    requires p <= n <= |pattern| && n <= |text|
    requires forall i :: 0 <= i < n ==> pattern[i] == '?' || pattern[i] == text[i]
    ensures Run(pattern, text, p, p, NoMark) == Run(pattern, text, n, n, NoMark)
    decreases n - p
  {
    if p < n {
      RunOverEqualPrefix(pattern, text, p + 1, n);
    }
  }

  lemma {:induction false} MatchesSelf(pattern: string, text: string)
    requires |pattern| == |text|
    requires forall i :: 0 <= i < |text| ==> pattern[i] == '?' || pattern[i] == text[i]
    ensures Matches(pattern, text)
  {
    if pattern != "" {
      MatchesSelf(pattern[1..], text[1..]);
    }
  }

  lemma {:induction false} MatchesConcat(p: string, t: string, q: string, u: string)
    requires Matches(p, t) && Matches(q, u)
    ensures Matches(p + q, t + u)
    decreases |p|
  {
    if p == "" {
      assert p + q == q && t + u == u;
    } else {
      assert (p + q)[1..] == p[1..] + q;
      if p[0] == '*' {
        var k :| 0 <= k <= |t| && Matches(p[1..], t[k..]);
        MatchesConcat(p[1..], t[k..], q, u);
        assert (t + u)[k..] == t[k..] + u;
      } else {
        MatchesConcat(p[1..], t[1..], q, u);
        assert (t + u)[1..] == t[1..] + u;
      }
    }
  }

  /** A pattern that describes `text` and that the matcher rejects, for any text with a star. */
  function FoolingPattern(text: string, at: nat): string
    requires at < |text|
  {
    text[..at] + "*" + seq(|text| - at, _ => '?')
  }

  lemma FoolingPatternFools(text: string, at: nat)
    requires at < |text| && text[at] == '*' && '*' !in text[..at]
    ensures Matches(FoolingPattern(text, at), text) && !Accepts(FoolingPattern(text, at), text)
  {
    FoolingPatternMatches(text, at);
    FoolingPatternIsRejected(text, at);
  }

  lemma FoolingPatternMatches(text: string, at: nat)
    requires at < |text|
    ensures Matches(FoolingPattern(text, at), text)
  {
    hide Matches;
    var marks: string := seq(|text| - at, _ => '?');
    assert FoolingPattern(text, at) == text[..at] + ("*" + marks);
    assert text == text[..at] + text[at..];
    MatchesSelf(text[..at], text[..at]);
    MatchesSelf(marks, text[at..]);
    StarMatchesMore(marks, text[at..]);
    MatchesConcat(text[..at], text[..at], "*" + marks, text[at..]);
  }

  lemma StarMatchesMore(pattern: string, text: string)
    requires Matches(pattern, text)
    ensures Matches("*" + pattern, text)
  {
    assert ("*" + pattern)[1..] == pattern && text[0..] == text;
  }

  lemma FoolingPatternIsRejected(text: string, at: nat)
    requires at < |text| && text[at] == '*' && '*' !in text[..at]
    ensures !Accepts(FoolingPattern(text, at), text)
  {
    var pattern := FoolingPattern(text, at);
    RunOverEqualPrefix(pattern, text, 0, |text|);
    assert pattern[|text|..][0] == '?';
  }

  lemma TrustedTexts(text: string)
    ensures (forall pattern :: Accepts(pattern, text) <==> Matches(pattern, text)) <==> '*' !in text
  {
    if '*' !in text {
      forall pattern ensures Accepts(pattern, text) <==> Matches(pattern, text) {
        AcceptsIsSound(pattern, text);
        AcceptsIsComplete(pattern, text);
      }
    } else {
      var at := FirstStar(text);
      FoolingPatternFools(text, at);
    }
  }

  lemma FirstStar(text: string) returns (at: nat)
    requires '*' in text
    ensures at < |text| && text[at] == '*' && '*' !in text[..at]
  {
    at := 0;
    while text[at] != '*'
      invariant at < |text| && '*' !in text[..at] && '*' in text[at..]
      decreases |text| - at
    {
      assert text[at..] == [text[at]] + text[at + 1..];
      at := at + 1;
    }
  }

  lemma LastStar(text: string) returns (at: nat)
    requires '*' in text
    ensures at < |text| && text[at] == '*' && '*' !in text[at + 1..]
  {
    at := |text| - 1;
    while text[at] != '*'
      invariant at < |text| && '*' !in text[at + 1..] && '*' in text[..at + 1]
      decreases at
    {
      assert text[..at + 1] == text[..at] + [text[at]];
      assert text[at..] == [text[at]] + text[at + 1..];
      at := at - 1;
    }
  }

  lemma {:induction false} RunWithoutStarsNeedsEqualLength(pattern: string, text: string, p: nat, t: nat)
    requires p <= |pattern| && t <= |text|
    requires '*' !in pattern[p..]
    requires |pattern| - p < |text| - t
    ensures !Run(pattern, text, p, t, NoMark)
    decreases |pattern| - p
  {
    if p < |pattern| {
      assert pattern[p..] == [pattern[p]] + pattern[p + 1..];
      if pattern[p] == '?' || pattern[p] == text[t] {
        RunWithoutStarsNeedsEqualLength(pattern, text, p + 1, t + 1);
      }
    }
  }

  lemma TrustedPatterns(pattern: string)
    ensures (forall text :: Accepts(pattern, text) <==> Matches(pattern, text)) <==> '*' !in pattern
  {
    hide Matches, Accepts, Run;
    if '*' !in pattern {
      forall text ensures Accepts(pattern, text) <==> Matches(pattern, text) {
        AcceptsIsSound(pattern, text);
        if Matches(pattern, text) {
          StarFreeMatchIsAccepted(pattern, text);
        }
      }
    } else {
      var at := LastStar(pattern);
      var text := pattern[..at + 1] + "a" + pattern[at + 1..];
      FooledPatternMatches(pattern, at);
      FooledPatternRejects(pattern, at);
      assert Matches(pattern, text) && !Accepts(pattern, text);
    }
  }

  lemma StarFreeMatchIsAccepted(pattern: string, text: string)
    requires '*' !in pattern && Matches(pattern, text)
    ensures Accepts(pattern, text)
  {
    hide Matches;
    StarFreeMatchIsPointwise(pattern, text);
    RunOverEqualPrefix(pattern, text, 0, |text|);
    assert pattern[|pattern|..] == "";
  }

  lemma FooledPatternMatches(pattern: string, at: nat)
    requires at < |pattern| && pattern[at] == '*'
    ensures Matches(pattern, pattern[..at + 1] + "a" + pattern[at + 1..])
  {
    hide Matches;
    var front, tail := pattern[..at], pattern[at + 1..];
    assert pattern == front + ("*" + tail);
    assert pattern[..at + 1] + "a" + tail == front + ("*a" + tail);
    MatchesSelf(front, front);
    MatchesSelf(tail, tail);
    StarMatchesAny("*a");
    MatchesConcat("*", "*a", tail, tail);
    MatchesConcat(front, front, "*" + tail, "*a" + tail);
  }

  lemma StarMatchesAny(text: string)
    ensures Matches("*", text)
  {
    assert "*"[1..] == "" && text[|text|..] == "";
  }

  lemma FooledPatternRejects(pattern: string, at: nat)
    requires at < |pattern| && '*' !in pattern[at + 1..]
    ensures !Accepts(pattern, pattern[..at + 1] + "a" + pattern[at + 1..])
  {
    var text := pattern[..at + 1] + "a" + pattern[at + 1..];
    RunOverEqualPrefix(pattern, text, 0, at + 1);
    RunWithoutStarsNeedsEqualLength(pattern, text, at + 1, at + 1);
  }

  lemma {:induction false} StarFreeMatchIsPointwise(pattern: string, text: string)
    requires '*' !in pattern && Matches(pattern, text)
    ensures |pattern| == |text|
    ensures forall i :: 0 <= i < |text| ==> pattern[i] == '?' || pattern[i] == text[i]
  {
    if pattern != "" {
      assert pattern[0] in pattern;
      StarFreeMatchIsPointwise(pattern[1..], text[1..]);
      assert forall i :: 0 < i < |text| ==> pattern[i] == pattern[1..][i - 1] && text[i] == text[1..][i - 1];
    }
  }

  /** A pattern without wildcards accepts exactly itself, whatever the text contains. */
  lemma LiteralAcceptsItself(pattern: string, text: string)
    requires IsLiteral(pattern)
    ensures Accepts(pattern, text) <==> pattern == text
  {
    TrustedPatterns(pattern);
    if Matches(pattern, text) {
      StarFreeMatchIsPointwise(pattern, text);
    }
    if pattern == text {
      MatchesSelf(pattern, text);
    }
  }

  /** The pattern with every wildcard replaced by a plain character: a text it accepts. */
  function Instance(pattern: string): (text: string)
    ensures |text| == |pattern|
    ensures forall i :: 0 <= i < |pattern| ==> text[i] == if pattern[i] in "*?" then 'x' else pattern[i]
  {
    seq(|pattern|, i requires 0 <= i < |pattern| => if pattern[i] in "*?" then 'x' else pattern[i])
  }

  lemma {:induction false} MatchesInstance(pattern: string)
    ensures Matches(pattern, Instance(pattern))
  {
    if pattern != "" {
      MatchesInstance(pattern[1..]);
      assert Instance(pattern)[1..] == Instance(pattern[1..]);
    }
  }

  lemma AcceptsInstance(pattern: string)
    ensures IsLiteral(Instance(pattern))
    ensures Accepts(pattern, Instance(pattern))
  {
    MatchesInstance(pattern);
    AcceptsIsComplete(pattern, Instance(pattern));
  }
}
