/** Type filters as endings: which types the names and paths can have that a rule with a wildcard matches
  (native/rule_engine.cpp, lines 195-285 and 420-438). */
module PathTypes {
  import opened Text
  import opened PathGlob
  import opened Rules
  import opened GlobEndings
  import opened IndexRefinement
  import Glob

  // ---------------------------------------------------------------------------
  // The type of a path

  /** What the end of a name can be as a type: not empty, in lower case, without a dot or slash. */
  predicate IsNameType(e: string) {
    e != "" && '.' !in e && SlashFree(e) && AllLower(e)
  }

  lemma TypeTailIsLower(e: string)
    requires IsNameType(e)
    ensures AllLower("." + e) && SlashFree("." + e)
  {
  }

  lemma LowerKeepsSeparators(c: char)
    ensures LowerChar(LowerChar(c)) == LowerChar(c)
    ensures (LowerChar(c) == '.' <==> c == '.') && (LowerChar(c) == '/' <==> c == '/')
  {
  }

  /** A type filter lets a path through exactly when one of its types that a name can have ends the path. */
  lemma AllowsTypeIs(types: seq<string>, path: string)
    requires types != []
    ensures AllowsType(types, path) <==> exists e :: e in types && IsNameType(e) && HasEnd(path, "." + e)
  {
    if AllowsType(types, path) {
      var e := TypeIsEnd(path);
      assert e in types;
    }
    forall e | e in types && IsNameType(e) && HasEnd(path, "." + e) ensures AllowsType(types, path) {
      EndIsType(path, e);
    }
  }

  lemma TypeIsEnd(path: string) returns (e: string)
    requires LastIndex(path, '.') > LastIndex(path, '/') && LastIndex(path, '.') + 1 < |path|
    ensures e == Lower(path[LastIndex(path, '.') + 1..]) && IsNameType(e) && HasEnd(path, "." + e)
  {
    hide LastIndex;
    var dot := LastIndex(path, '.');
    e := Lower(path[dot + 1..]);
    forall i | 0 <= i < |e| ensures e[i] != '.' && e[i] != '/' && LowerChar(e[i]) == e[i] {
      LowerKeepsSeparators(path[dot + 1 + i]);
    }
    var n := |path| - |"." + e|;
    forall i | 0 <= i < |"." + e| ensures Lower(path[n..])[i] == ("." + e)[i] {
      assert path[n..][i] == path[dot + i];
    }
    assert Lower(path[n..]) == "." + e;
  }

  lemma EndAt(path: string, tail: string, i: nat)
    requires HasEnd(path, tail) && |path| - |tail| <= i < |path|
    ensures tail[i - (|path| - |tail|)] == LowerChar(path[i])
    ensures LowerChar(path[i]) in tail
  {
    var n := |path| - |tail|;
    assert path[n..][i - n] == path[i];
    assert Lower(path[n..])[i - n] == LowerChar(path[i]);
  }

  lemma EndIsType(path: string, e: string)
    requires IsNameType(e) && HasEnd(path, "." + e)
    ensures LastIndex(path, '.') == |path| - |e| - 1 && LastIndex(path, '/') < |path| - |e| - 1
    ensures Lower(path[LastIndex(path, '.') + 1..]) == e
  {
    hide LastIndex, HasEnd, Lower, LowerChar;
    var n := |path| - |e| - 1;
    EndIsBehindDot(path, e);
    forall i | n < i < |path| ensures path[i] != '.' && path[i] != '/' {
      EndAt(path, "." + e, i);
      assert ("." + e)[i - n] == e[i - n - 1] && e[i - n - 1] in e;
      LowerKeepsSeparators(path[i]);
    }
  }

  lemma EndIsBehindDot(path: string, e: string)
    requires HasEnd(path, "." + e)
    ensures |path| > |e| && path[|path| - |e| - 1] == '.' && Lower(path[|path| - |e|..]) == e
  {
    var n := |path| - |e| - 1;
    EndAt(path, "." + e, n);
    LowerKeepsSeparators(path[n]);
    assert path[n..][1..] == path[n + 1..];
    assert Lower(path[n..])[1..] == Lower(path[n..][1..]);
    assert ("." + e)[1..] == e;
  }

  /** The end of a path, if it has no slash, is that of the name behind the last slash. */
  lemma EndOfName(parent: string, name: string, tail: string)
    requires SlashFree(tail)
    ensures HasEnd(parent + "/" + name, tail) <==> HasEnd(name, tail)
  {
    var path := parent + "/" + name;
    if |tail| <= |name| {
      assert path[|path| - |tail|..] == name[|name| - |tail|..];
    } else if HasEnd(path, tail) {
      EndAt(path, tail, |parent|);
    }
  }

  // ---------------------------------------------------------------------------
  // Names that a pattern accepts, other than the pattern itself

  /** The pattern accepts some name, other than its own text, with the given end. */
  predicate SomeOtherName(pattern: string, tail: string) {
    EndsIn(pattern, tail) && ('*' in pattern || Ending(pattern, tail) != pattern)
  }

  lemma SomeOtherNameIsAccepted(pattern: string, tail: string)
    requires SomeOtherName(pattern, tail) && AllLower(tail)
    ensures Glob.Accepts(pattern, AcceptedEnding(pattern, tail)) && HasEnd(AcceptedEnding(pattern, tail), tail)
    ensures AcceptedEnding(pattern, tail) != pattern
  {
    hide EndsIn, Ending, HasEnd, Glob.Accepts;
    AcceptedEndingIsAccepted(pattern, tail);
  }

  lemma AcceptedNameIsOther(pattern: string, name: string, tail: string)
    requires Glob.Accepts(pattern, name) && HasEnd(name, tail) && name != pattern && AllLower(tail)
    ensures SomeOtherName(pattern, tail)
  {
    hide EndsIn, Ending, HasEnd, Glob.Accepts, Glob.Matches;
    Glob.AcceptsIsSound(pattern, name);
    MatchEndsIn(pattern, name, tail);
    if '*' !in pattern && Ending(pattern, tail) == pattern {
      Glob.StarFreeMatchIsPointwise(pattern, name);
      OnlyItself(pattern, name, tail);
    }
  }

  /** In a star-free pattern that is its own ending, every wildcard lies over a question mark of that ending. */
  lemma {:induction false} MarksAreInEnd(pattern: string, tail: string)
    requires '*' !in pattern && EndsIn(pattern, tail) && Ending(pattern, tail) == pattern
    ensures |tail| <= |pattern|
    ensures forall i :: 0 <= i < |pattern| && pattern[i] == '?' ==>
              i >= |pattern| - |tail| && tail[i - (|pattern| - |tail|)] == '?'
    decreases |tail|
  {
    if tail == "" {
      InstanceIsLiteral(pattern);
      assert forall i :: 0 <= i < |pattern| ==> pattern[i] in pattern;
    } else {
      hide EndsIn, Ending;
      EndsInNeedsPattern(pattern, tail);
      var p := Front(pattern);
      assert LastOf(pattern) in pattern;
      assert forall x :: x in p ==> x in pattern;
      OwnEndingStep(pattern, tail);
      MarksAreInEnd(p, Front(tail));
      assert forall i :: 0 <= i < |p| ==> pattern[i] == p[i];
    }
  }

  lemma EndsInNeedsPattern(pattern: string, tail: string)
    requires EndsIn(pattern, tail) && tail != ""
    ensures pattern != ""
  {
  }

  lemma OnlyItself(pattern: string, name: string, tail: string)
    requires '*' !in pattern && EndsIn(pattern, tail) && Ending(pattern, tail) == pattern
    requires |name| == |pattern| && (forall i :: 0 <= i < |name| ==> pattern[i] == '?' || pattern[i] == name[i])
    requires HasEnd(name, tail)
    ensures name == pattern
  {
    hide EndsIn, Ending, HasEnd;
    MarksAreInEnd(pattern, tail);
    forall i | 0 <= i < |pattern| ensures name[i] == pattern[i] {
      if pattern[i] == '?' {
        EndAt(name, tail, i);
      }
    }
  }

  lemma OwnEndingStep(pattern: string, tail: string)
    requires pattern != "" && tail != "" && LastOf(pattern) != '*' && EndsIn(pattern, tail) && Ending(pattern, tail) == pattern
    ensures EndsIn(Front(pattern), Front(tail)) && Ending(Front(pattern), Front(tail)) == Front(pattern)
    ensures LastOf(pattern) == '?' ==> LastOf(tail) == '?'
  {
    var last := if LastOf(pattern) == '?' then LastOf(tail) else LastOf(pattern);
    assert pattern == Front(pattern) + [LastOf(pattern)];
    SnocParts(Ending(Front(pattern), Front(tail)), last, Front(pattern), LastOf(pattern));
  }

  lemma SnocParts(a: string, c: char, b: string, d: char)
    requires a + [c] == b + [d]
    ensures a == b && c == d
  {
    assert |a| == |b|;
    SnocEqual(a, c, b, d);
  }

  lemma {:induction false} InstanceIsLiteral(pattern: string)
    requires '*' !in pattern && Glob.Instance(pattern) == pattern
    ensures '?' !in pattern
  {
    forall i | 0 <= i < |pattern| ensures pattern[i] != '?' {
    }
  }

  // ---------------------------------------------------------------------------
  // Paths that a path glob accepts

  /** The pattern accepts some text that begins with the given segments, has more, and whose last one has the given end. */
  predicate LastCanEnd(ps: seq<string>, prefix: seq<string>, tail: string)
    decreases |ps| + |prefix|
  {
    if ps == [] then false
    else if prefix == [] then EndsIn(ps[|ps| - 1], tail)
    else if ps[0] == ANY_DEPTH then LastCanEnd(ps[1..], prefix, tail) || LastCanEnd(ps, prefix[1..], tail)
    else Glob.Accepts(ps[0], prefix[0]) && LastCanEnd(ps[1..], prefix[1..], tail)
  }

  lemma AnyDepthEndsInAll(tail: string)
    ensures EndsIn(ANY_DEPTH, tail)
  {
    StarEndsInAll(tail);
    assert Front(ANY_DEPTH) == "*";
  }

  lemma {:induction false} DecidedLast(ps: seq<string>, ts: seq<string>, tail: string)
    requires Decides(ps, ts) && ts != [] && HasEnd(ts[|ts| - 1], tail)
    ensures LastCanEnd(ps, [], tail)
    decreases |ps|
  {
    hide HasEnd, EndsIn, Glob.Accepts;
    if ps[0] == ANY_DEPTH {
      var k :| 0 <= k <= |ts| && Decides(ps[1..], ts[k..]);
      if k < |ts| {
        DecidedLast(ps[1..], ts[k..], tail);
      } else {
        OnlyAnyDepthMatchesNothing(ps[1..]);
        assert ps[|ps| - 1] == ANY_DEPTH by {
          assert |ps| > 1 ==> ps[1..][|ps| - 2] == ps[|ps| - 1];
        }
        AnyDepthEndsInAll(tail);
      }
    } else if |ts| > 1 {
      DecidedLast(ps[1..], ts[1..], tail);
    } else if |ps| == 1 {
      Glob.AcceptsIsSound(ps[0], ts[0]);
      MatchEndsIn(ps[0], ts[0], tail);
    } else {
      OnlyAnyDepthMatchesNothing(ps[1..]);
      assert ps[1..][|ps| - 2] == ps[|ps| - 1];
      AnyDepthEndsInAll(tail);
    }
  }

  lemma {:induction false} AcceptedCanEnd(ps: seq<string>, prefix: seq<string>, ts: seq<string>, tail: string)
    requires Decides(ps, prefix + ts) && ts != [] && HasEnd(ts[|ts| - 1], tail)
    ensures LastCanEnd(ps, prefix, tail)
    decreases |ps| + |prefix|
  {
    if prefix == [] {
      assert prefix + ts == ts;
      DecidedLast(ps, ts, tail);
    } else {
      assert (prefix + ts)[1..] == prefix[1..] + ts;
      if ps[0] == ANY_DEPTH {
        AnyDepthStep(ps, prefix + ts);
        if Decides(ps[1..], prefix + ts) {
          AcceptedCanEnd(ps[1..], prefix, ts, tail);
        } else {
          AcceptedCanEnd(ps, prefix[1..], ts, tail);
        }
      } else {
        AcceptedCanEnd(ps[1..], prefix[1..], ts, tail);
      }
    }
  }

  function InstanceAll(ps: seq<string>): (ts: seq<string>)
    ensures |ts| == |ps|
  {
    if ps == [] then [] else [Glob.Instance(ps[0])] + InstanceAll(ps[1..])
  }

  lemma {:induction false} DecidesInstance(ps: seq<string>)
    requires AllSlashFree(ps)
    ensures Decides(ps, InstanceAll(ps)) && AllSlashFree(InstanceAll(ps))
  {
    if ps != [] {
      DecidesInstance(ps[1..]);
      Glob.AcceptsInstance(ps[0]);
      assert InstanceAll(ps)[1..] == InstanceAll(ps[1..]);
    }
  }

  lemma {:induction false} DecidesSnoc(ps: seq<string>, ts: seq<string>, p: string, t: string)
    requires Decides(ps, ts) && Glob.Accepts(p, t)
    ensures Decides(ps + [p], ts + [t])
    decreases |ps|
  {
    if ps == [] {
      assert ps + [p] == [p] && ts + [t] == [t] && [p][1..] == [] && [t][1..] == [];
      if p == ANY_DEPTH {
        assert [t][1..] == [];
      }
    } else {
      assert (ps + [p])[1..] == ps[1..] + [p];
      if ps[0] == ANY_DEPTH {
        var k :| 0 <= k <= |ts| && Decides(ps[1..], ts[k..]);
        DecidesSnoc(ps[1..], ts[k..], p, t);
        assert (ts + [t])[k..] == ts[k..] + [t];
      } else {
        DecidesSnoc(ps[1..], ts[1..], p, t);
        assert (ts + [t])[1..] == ts[1..] + [t];
      }
    }
  }

  /** Segments that complete the given ones to such a text. */
  function TypedCompletion(ps: seq<string>, prefix: seq<string>, tail: string): (ts: seq<string>)
    requires LastCanEnd(ps, prefix, tail)
    ensures ts != []
    decreases |ps| + |prefix|
  {
    if prefix == [] then InstanceAll(ps[..|ps| - 1]) + [AcceptedEnding(ps[|ps| - 1], tail)]
    else if ps[0] == ANY_DEPTH then
      if LastCanEnd(ps[1..], prefix, tail) then TypedCompletion(ps[1..], prefix, tail)
      else TypedCompletion(ps, prefix[1..], tail)
    else TypedCompletion(ps[1..], prefix[1..], tail)
  }

  lemma {:induction false} TypedCompletionIsAccepted(ps: seq<string>, prefix: seq<string>, tail: string)
    requires AllSlashFree(ps) && LastCanEnd(ps, prefix, tail) && AllLower(tail) && SlashFree(tail)
    ensures var ts := TypedCompletion(ps, prefix, tail);
      Decides(ps, prefix + ts) && AllSlashFree(ts) && HasEnd(ts[|ts| - 1], tail)
    decreases |ps| + |prefix|
  {
    hide HasEnd;
    var ts := TypedCompletion(ps, prefix, tail);
    if prefix == [] {
      assert prefix + ts == ts;
      TypedInstance(ps, tail);
    } else {
      assert (prefix + ts)[1..] == prefix[1..] + ts;
      if ps[0] == ANY_DEPTH {
        AnyDepthStep(ps, prefix + ts);
        if LastCanEnd(ps[1..], prefix, tail) {
          TypedCompletionIsAccepted(ps[1..], prefix, tail);
        } else {
          TypedCompletionIsAccepted(ps, prefix[1..], tail);
        }
      } else {
        TypedCompletionIsAccepted(ps[1..], prefix[1..], tail);
      }
    }
  }

  lemma TypedInstance(ps: seq<string>, tail: string)
    requires ps != [] && AllSlashFree(ps) && EndsIn(ps[|ps| - 1], tail) && AllLower(tail) && SlashFree(tail)
    ensures var ts := InstanceAll(ps[..|ps| - 1]) + [AcceptedEnding(ps[|ps| - 1], tail)];
      Decides(ps, ts) && AllSlashFree(ts) && HasEnd(ts[|ts| - 1], tail)
  {
    hide Decides, EndsIn, HasEnd, Glob.Accepts, AcceptedEnding;
    var front, last := ps[..|ps| - 1], ps[|ps| - 1];
    assert ps == front + [last];
    DecidesInstance(front);
    AcceptedEndingIsAccepted(last, tail);
    AcceptedEndingIsSlashFree(last, tail);
    DecidesSnoc(front, InstanceAll(front), last, AcceptedEnding(last, tail));
  }

  lemma AcceptedEndingIsSlashFree(pattern: string, tail: string)
    requires SlashFree(pattern) && SlashFree(tail)
    ensures SlashFree(AcceptedEnding(pattern, tail))
  {
    hide EndsIn;
    var s := LastIndex(pattern, '*');
    if s < 0 {
      if EndsIn(pattern, tail) {
        EndingIsSlashFree(pattern, tail);
      }
    } else if EndsIn("*" + pattern[s + 1..], tail) {
      InstanceIsSlashFree(pattern[..s]);
      EndingIsSlashFree("*" + pattern[s + 1..], tail);
    }
  }

  lemma {:induction false} EndingIsSlashFree(pattern: string, tail: string)
    requires EndsIn(pattern, tail) && SlashFree(pattern) && SlashFree(tail)
    ensures SlashFree(Ending(pattern, tail))
    decreases |pattern| + |tail|
  {
    if tail == "" {
      InstanceIsSlashFree(pattern);
    } else if LastOf(pattern) == '*' {
      if EndsIn(Front(pattern), tail) {
        EndingIsSlashFree(Front(pattern), tail);
      } else {
        EndingIsSlashFree(pattern, Front(tail));
      }
    } else {
      EndingIsSlashFree(Front(pattern), Front(tail));
    }
  }

  lemma InstanceIsSlashFree(pattern: string)
    requires SlashFree(pattern)
    ensures SlashFree(Glob.Instance(pattern))
  {
    var text := Glob.Instance(pattern);
    forall i | 0 <= i < |text| ensures text[i] != '/' {
      assert pattern[i] in pattern;
    }
  }
}
