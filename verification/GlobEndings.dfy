/** Which file types the names can have that a pattern of one segment accepts (native/rule_engine.cpp, lines 195-223 and 420-438). */
module GlobEndings {
  import opened Text
  import opened Glob

  // ---------------------------------------------------------------------------
  // Patterns one after the other

  lemma {:induction false} MatchesSplit(p: string, q: string, text: string) returns (n: nat)
    requires Matches(p + q, text)
    ensures n <= |text| && Matches(p, text[..n]) && Matches(q, text[n..])
    decreases |p|
  {
    if p == "" {
      assert p + q == q && text[0..] == text;
      n := 0;
    } else {
      assert (p + q)[1..] == p[1..] + q;
      if p[0] == '*' {
        var k :| 0 <= k <= |text| && Matches((p + q)[1..], text[k..]);
        var m := MatchesSplit(p[1..], q, text[k..]);
        n := k + m;
        assert text[k..][..m] == text[..n][k..] && text[k..][m..] == text[n..];
      } else {
        var m := MatchesSplit(p[1..], q, text[1..]);
        n := m + 1;
        assert text[1..][..m] == text[..n][1..] && text[1..][m..] == text[n..];
      }
    }
  }

  lemma MatchesOne(c: char, text: string)
    requires c != '*'
    ensures Matches([c], text) <==> |text| == 1 && (c == '?' || c == text[0])
  {
    assert [c][1..] == "";
  }

  // ---------------------------------------------------------------------------
  // Endings

  function Front(text: string): string
    requires text != ""
  {
    text[..|text| - 1]
  }

  function LastOf(text: string): char
    requires text != ""
  {
    text[|text| - 1]
  }

  /** A pattern character other than a star accepts some form of a lower-case character. */
  predicate Fits(p: char, c: char) {
    p == '?' || LowerChar(p) == c
  }

  /** The pattern matches some text whose end is the given one, in any case. */
  predicate EndsIn(pattern: string, tail: string)
    decreases |pattern| + |tail|
  {
    if tail == "" then true
    else if pattern == "" then false
    else if LastOf(pattern) == '*' then EndsIn(Front(pattern), tail) || EndsIn(pattern, Front(tail))
    else Fits(LastOf(pattern), LastOf(tail)) && EndsIn(Front(pattern), Front(tail))
  }

  /** Such a text, with `x` wherever nothing is prescribed. */
  function Ending(pattern: string, tail: string): string
    requires EndsIn(pattern, tail)
    decreases |pattern| + |tail|
  {
    if tail == "" then Instance(pattern)
    else if LastOf(pattern) == '*' then
      if EndsIn(Front(pattern), tail) then Ending(Front(pattern), tail) else Ending(pattern, Front(tail)) + [LastOf(tail)]
    else
      Ending(Front(pattern), Front(tail)) + [if LastOf(pattern) == '?' then LastOf(tail) else LastOf(pattern)]
  }

  /** The text ends in the given lower-case one. */
  predicate HasEnd(text: string, tail: string) {
    |text| >= |tail| && Lower(text[|text| - |tail|..]) == tail
  }

  predicate AllLower(tail: string) {
    forall i :: 0 <= i < |tail| ==> LowerChar(tail[i]) == tail[i]
  }

  lemma HasEndSnoc(text: string, c: char, tail: string, d: char)
    ensures HasEnd(text + [c], tail + [d]) <==> HasEnd(text, tail) && LowerChar(c) == d
  {
    var n, m := |text|, |tail|;
    if n >= m {
      assert (text + [c])[n - m..] == text[n - m..] + [c];
      assert Lower(text[n - m..] + [c]) == Lower(text[n - m..]) + [LowerChar(c)];
      SnocEqual(Lower(text[n - m..]), LowerChar(c), tail, d);
    }
  }

  lemma SnocEqual(a: string, c: char, b: string, d: char)
    requires |a| == |b|
    ensures a + [c] == b + [d] <==> a == b && c == d
  {
    if a + [c] == b + [d] {
      assert (a + [c])[..|a|] == a && (b + [d])[..|b|] == b;
      assert (a + [c])[|a|] == c && (b + [d])[|b|] == d;
    }
  }

  lemma {:induction false} EndingMatches(pattern: string, tail: string)
    requires EndsIn(pattern, tail) && AllLower(tail)
    ensures Matches(pattern, Ending(pattern, tail)) && HasEnd(Ending(pattern, tail), tail)
    decreases |pattern| + |tail|
  {
    hide Matches, HasEnd;
    if tail == "" {
      MatchesInstance(pattern);
      EmptyEnd(Ending(pattern, tail));
    } else {
      var p, t := Front(pattern), Front(tail);
      assert pattern == p + [LastOf(pattern)] && tail == t + [LastOf(tail)];
      if LastOf(pattern) != '*' {
        EndingMatches(p, t);
        var c := if LastOf(pattern) == '?' then LastOf(tail) else LastOf(pattern);
        MatchesOne(LastOf(pattern), [c]);
        MatchesConcat(p, Ending(p, t), [LastOf(pattern)], [c]);
        HasEndSnoc(Ending(p, t), c, t, LastOf(tail));
      } else if EndsIn(p, tail) {
        EndingMatches(p, tail);
        StarMatchesAny("");
        MatchesConcat(p, Ending(p, tail), "*", "");
        assert Ending(p, tail) + "" == Ending(p, tail);
      } else {
        EndingMatches(pattern, t);
        StarTakesOneMore(p, Ending(pattern, t), LastOf(tail));
        HasEndSnoc(Ending(pattern, t), LastOf(tail), t, LastOf(tail));
      }
    }
  }

  lemma EmptyEnd(text: string)
    ensures HasEnd(text, "")
  {
    assert text[|text|..] == "";
    assert Lower("") == "";
  }

  lemma StarTakesOneMore(p: string, text: string, c: char)
    requires Matches(p + "*", text)
    ensures Matches(p + "*", text + [c])
  {
    hide Matches;
    var n := MatchesSplit(p, "*", text);
    StarMatchesAny(text[n..] + [c]);
    MatchesConcat(p, text[..n], "*", text[n..] + [c]);
    assert text[..n] + (text[n..] + [c]) == text + [c];
  }

  lemma {:induction false} MatchEndsIn(pattern: string, text: string, tail: string)
    requires Matches(pattern, text) && HasEnd(text, tail)
    ensures EndsIn(pattern, tail)
    decreases |pattern| + |tail|
  {
    if tail != "" {
      EndIsNotEmpty(text, tail);
      MatchEndsInStep(pattern, text, tail);
    }
  }

  lemma MatchEndsInStep(pattern: string, text: string, tail: string)
    requires pattern != "" && tail != "" && Matches(pattern, text) && HasEnd(text, tail)
    ensures EndsIn(pattern, tail)
    decreases |pattern| + |tail|, 0
  {
    hide Matches, HasEnd, EndsIn;
    var p, t, c := Front(pattern), Front(tail), LastOf(pattern);
    assert pattern == p + [c] && tail == t + [LastOf(tail)];
    var n := MatchesSplit(p, [c], text);
    EndIsNotEmpty(text, tail);
    assert text == Front(text) + [LastOf(text)];
    HasEndSnoc(Front(text), LastOf(text), t, LastOf(tail));
    if c != '*' {
      MatchesOne(c, text[n..]);
      assert text[n..][0] == LastOf(text) && text[..n] == Front(text);
      MatchEndsIn(p, Front(text), t);
      EndsInStep(pattern, tail);
    } else if n == |text| {
      assert text[..n] == text;
      MatchEndsIn(p, text, tail);
      EndsInStep(pattern, tail);
    } else {
      StarMatchesAny(Front(text)[n..]);
      assert text[..n] == Front(text)[..n];
      MatchesConcat(p, Front(text)[..n], "*", Front(text)[n..]);
      assert Front(text)[..n] + Front(text)[n..] == Front(text);
      MatchEndsIn(pattern, Front(text), t);
      EndsInStep(pattern, tail);
    }
  }

  lemma EndIsNotEmpty(text: string, tail: string)
    requires tail != "" && HasEnd(text, tail)
    ensures text != ""
  {
  }

  lemma EndsInStep(pattern: string, tail: string)
    requires pattern != "" && tail != ""
    ensures EndsIn(pattern, tail) <==>
      if LastOf(pattern) == '*' then EndsIn(Front(pattern), tail) || EndsIn(pattern, Front(tail))
      else Fits(LastOf(pattern), LastOf(tail)) && EndsIn(Front(pattern), Front(tail))
  {
  }

  // ---------------------------------------------------------------------------
  // Endings that the greedy matcher accepts, even where the end itself has stars

  /** Up to its last star, the matcher behaves on a star-free front as it would on that front alone. */
  lemma {:induction false} ReachesLastStar(pattern: string, text: string, p: nat, t: nat, mark: Mark, s: nat, n: nat)
    returns (m: nat)
    requires s < |pattern| && pattern[s] == '*' && n < |text| && (forall i :: 0 <= i <= n ==> text[i] != '*')
    requires p <= s && ValidState(pattern[..s + 1], text[..n], p, t, mark) && Run(pattern[..s + 1], text[..n], p, t, mark)
    ensures ValidState(pattern, text, p, t, mark)
    ensures m <= n && Run(pattern, text, p, t, mark) == Run(pattern, text, s + 1, m, Mark(s, m))
    decreases if mark.Mark? then n - mark.start else n + 1, |pattern| - p
  {
    var short, front := pattern[..s + 1], text[..n];
    assert short[p] == pattern[p];
    if p == s {
      m := t;
    } else if t == n {
      assert short[p..][0] == '*';
      assert short[p..][1..] == short[p + 1..];
      m := ReachesLastStar(pattern, text, p + 1, t, Mark(p, t), s, n);
    } else {
      assert front[t] == text[t];
      if pattern[p] == '?' || pattern[p] == text[t] {
        m := ReachesLastStar(pattern, text, p + 1, t + 1, mark, s, n);
      } else if pattern[p] == '*' {
        m := ReachesLastStar(pattern, text, p + 1, t, Mark(p, t), s, n);
      } else {
        m := ReachesLastStar(pattern, text, mark.star + 1, mark.start + 1, Mark(mark.star, mark.start + 1), s, n);
      }
    }
  }

  predicate StarFreeEnd(pattern: string, text: string, s: nat)
    requires s < |pattern|
  {
    var r := |pattern| - (s + 1);
    && r <= |text|
    && forall i :: s < i < |pattern| ==>
         pattern[i] != '*' && (pattern[i] == '?' || pattern[i] == text[|text| - |pattern| + i])
  }

  /** After the last star, the rest of the pattern is tried until it lies over the end of the text. */
  lemma {:induction false} PastLastStar(pattern: string, text: string, p: nat, t: nat, s: nat, start: nat)
    requires s < p <= |pattern| && pattern[s] == '*' && StarFreeEnd(pattern, text, s)
    requires start <= t <= |text| && p - (s + 1) == t - start && start + (|pattern| - (s + 1)) <= |text|
    ensures Run(pattern, text, p, t, Mark(s, start))
    decreases |text| - start, |pattern| - p
  {
    if t == |text| {
      assert pattern[p..] == "";
    } else if p < |pattern| && (pattern[p] == '?' || pattern[p] == text[t]) {
      PastLastStar(pattern, text, p + 1, t + 1, s, start);
    } else {
      PastLastStar(pattern, text, s + 1, start + 1, s, start + 1);
    }
  }

  lemma AcceptsBehindStar(front: string, rest: string, text: string)
    requires text != "" && text[0] == 'x'
    requires StarFreeEnd("*" + rest, text, 0) && |rest| < |text|
    ensures Accepts(front + "*" + rest, Instance(front) + text)
  {
    hide Matches, Run, Accepts;
    var pattern, whole, s := front + "*" + rest, Instance(front) + text, |front|;
    assert pattern[..s + 1] == front + "*" && whole[..s] == Instance(front);
    assert whole[s] == 'x';
    InstanceBeforeStar(front);
    var m := RunsToLastStar(pattern, whole, s);
    EndBehindStar(front, rest, Instance(front), text);
    PastLastStar(pattern, whole, s + 1, m, s, m);
  }

  lemma InstanceBeforeStar(front: string)
    ensures Accepts(front + "*", Instance(front)) && |Instance(front)| == |front| && '*' !in Instance(front)
  {
    hide Matches, Run, Accepts;
    MatchesInstance(front);
    StarMatchesAny("");
    MatchesConcat(front, Instance(front), "*", "");
    assert Instance(front) + "" == Instance(front);
    AcceptsIsComplete(front + "*", Instance(front));
  }

  lemma RunsToLastStar(pattern: string, text: string, s: nat) returns (m: nat)
    requires s < |pattern| && pattern[s] == '*' && s < |text| && (forall i :: 0 <= i <= s ==> text[i] != '*')
    requires Accepts(pattern[..s + 1], text[..s])
    ensures m <= s && Accepts(pattern, text) == Run(pattern, text, s + 1, m, Mark(s, m))
  {
    m := ReachesLastStar(pattern, text, 0, 0, NoMark, s, s);
  }

  lemma EndBehindStar(front: string, rest: string, before: string, text: string)
    requires |front| == |before| && |rest| < |text| && StarFreeEnd("*" + rest, text, 0)
    ensures StarFreeEnd(front + "*" + rest, before + text, |front|)
  {
    var pattern, whole, s := front + "*" + rest, before + text, |front|;
    forall i | s < i < |pattern|
      ensures pattern[i] != '*' && (pattern[i] == '?' || pattern[i] == whole[|whole| - |pattern| + i])
    {
      assert pattern[i] == ("*" + rest)[i - s];
      assert whole[|whole| - |pattern| + i] == text[|text| - |"*" + rest| + (i - s)];
    }
  }

  lemma {:induction false} StarEnding(rest: string, tail: string)
    requires '*' !in rest && EndsIn("*" + rest, tail)
    ensures var text := Ending("*" + rest, tail);
      |rest| < |text| && text[0] == 'x' && StarFreeEnd("*" + rest, text, 0)
    decreases |rest| + |tail|
  {
    var pattern, text := "*" + rest, Ending("*" + rest, tail);
    if tail == "" {
      assert forall i :: 0 < i < |pattern| ==> pattern[i] in rest;
    } else if rest == "" {
      assert pattern == "*" && Front(pattern) == "";
      StarEnding(rest, Front(tail));
    } else {
      assert LastOf(pattern) == LastOf(rest) && LastOf(rest) in rest;
      assert Front(pattern) == "*" + Front(rest);
      assert forall c :: c in Front(rest) ==> c in rest;
      StarEnding(Front(rest), Front(tail));
      forall i | 0 < i < |pattern|
        ensures pattern[i] != '*' && (pattern[i] == '?' || pattern[i] == text[|text| - |pattern| + i])
      {
        assert pattern[i] in rest;
        if i < |pattern| - 1 {
          assert pattern[i] == Front(pattern)[i];
        }
      }
    }
  }

  lemma {:induction false} EndsInBehindStar(front: string, rest: string, tail: string)
    requires '*' !in rest
    ensures EndsIn(front + "*" + rest, tail) ==> EndsIn("*" + rest, tail)
    decreases |rest| + |tail|
  {
    var pattern := front + "*" + rest;
    if tail != "" {
      if rest == "" {
        assert "*" + rest == "*" && Front("*") == "";
        EndsInBehindStar(front, rest, Front(tail));
        StarEndsInAll(tail);
      } else {
        assert LastOf(pattern) == LastOf(rest) == LastOf("*" + rest) && LastOf(rest) in rest;
        assert Front(pattern) == front + "*" + Front(rest);
        assert Front("*" + rest) == "*" + Front(rest);
        assert forall c :: c in Front(rest) ==> c in rest;
        EndsInBehindStar(front, Front(rest), Front(tail));
      }
    }
  }

  lemma {:induction false} StarEndsInAll(tail: string)
    ensures EndsIn("*", tail)
    decreases |tail|
  {
    if tail != "" {
      StarEndsInAll(Front(tail));
    }
  }

  /** A text with the given end that the matcher accepts. */
  function AcceptedEnding(pattern: string, tail: string): string {
    var s := LastIndex(pattern, '*');
    if s < 0 then if EndsIn(pattern, tail) then Ending(pattern, tail) else ""
    else if EndsIn("*" + pattern[s + 1..], tail) then Instance(pattern[..s]) + Ending("*" + pattern[s + 1..], tail)
    else ""
  }

  lemma AcceptedEndingIsAccepted(pattern: string, tail: string)
    requires EndsIn(pattern, tail) && AllLower(tail)
    ensures Accepts(pattern, AcceptedEnding(pattern, tail)) && HasEnd(AcceptedEnding(pattern, tail), tail)
    ensures '*' in pattern ==> AcceptedEnding(pattern, tail) != pattern
  {
    hide Accepts, Matches, EndsIn, Ending, HasEnd;
    var s := LastIndex(pattern, '*');
    if s < 0 {
      EndingMatches(pattern, tail);
      TrustedPatterns(pattern);
    } else {
      var front, rest := pattern[..s], pattern[s + 1..];
      assert pattern == front + "*" + rest;
      assert '*' !in rest;
      EndsInBehindStar(front, rest, tail);
      StarEnding(rest, tail);
      EndingMatches("*" + rest, tail);
      AcceptsBehindStar(front, rest, Ending("*" + rest, tail));
      EndOfLonger(Instance(front), Ending("*" + rest, tail), tail);
      assert (Instance(front) + Ending("*" + rest, tail))[s] == 'x';
    }
  }

  lemma EndOfLonger(front: string, text: string, tail: string)
    requires HasEnd(text, tail)
    ensures HasEnd(front + text, tail)
  {
    var n := |text| - |tail|;
    assert (front + text)[|front| + n..] == text[n..];
  }
}
