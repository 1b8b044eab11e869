/** Python's `str.replace(old, new)`: replace every non-overlapping
    occurrence of `old`, scanning left to right. */
module Strings {

  /** `pat` occurs in `s` starting at index `i`. */
  predicate OccursAt(s: string, pat: string, i: int)
  {
    0 <= i && i + |pat| <= |s| && s[i..i + |pat|] == pat
  }

  predicate Contains(s: string, pat: string)
  {
    exists i | 0 <= i <= |s| :: OccursAt(s, pat, i)
  }

  /** An occurrence in the tail of `s` is an occurrence in `s`, one place later. */
  lemma OccursInTail(s: string, pat: string, i: int)
    requires s != [] && OccursAt(s[1..], pat, i)
    ensures OccursAt(s, pat, i + 1)
  {
    assert s[1..][i..i + |pat|] == s[i + 1..i + 1 + |pat|];
  }

  /** The leftmost-first, non-overlapping replacement that `str.replace` performs. */
  function ReplaceAll(s: string, pat: string, rep: string): (r: string)
    requires pat != []
    ensures |rep| <= |pat| ==> |r| <= |s|
    ensures !Contains(s, pat) ==> r == s
    decreases |s|
  {
    if |s| < |pat| then s
    else if s[..|pat|] == pat then
      assert OccursAt(s, pat, 0);
      rep + ReplaceAll(s[|pat|..], pat, rep)
    else
      var tail := ReplaceAll(s[1..], pat, rep);
      assert !Contains(s, pat) ==> !Contains(s[1..], pat) by {
        if i :| OccursAt(s[1..], pat, i) {
          OccursInTail(s, pat, i);
        }
      }
      [s[0]] + tail
  }

  /** When the replacement is shorter than the pattern, the string changes
      exactly when the pattern occurs in it. */
  lemma {:induction false} ReplaceAllChangesIffOccurs(s: string, pat: string, rep: string)
    requires pat != [] && |rep| < |pat|
    ensures ReplaceAll(s, pat, rep) != s <==> Contains(s, pat)
    ensures Contains(s, pat) ==> |ReplaceAll(s, pat, rep)| < |s|
    decreases |s|
  {
    if Contains(s, pat) {
      var i :| OccursAt(s, pat, i);
      assert OccursAt(s, pat, i);
      if |s| < |pat| {
        assert false;
      } else if s[..|pat|] == pat {
      } else {
        assert i != 0;
        assert s[1..][i - 1..i - 1 + |pat|] == s[i..i + |pat|];
        assert OccursAt(s[1..], pat, i - 1);
        ReplaceAllChangesIffOccurs(s[1..], pat, rep);
      }
    }
  }

  const GreedyMarker := "proxy+"
  const PlainMarker := "proxy"

  /** Where the pattern does not start, the first character is copied. */
  lemma ReplaceAllSkip(s: string, pat: string, rep: string)
    requires pat != [] && |pat| <= |s| && s[..|pat|] != pat
    ensures ReplaceAll(s, pat, rep) == [s[0]] + ReplaceAll(s[1..], pat, rep)
  {
  }

  /** The path template with every `proxy+` rewritten to `proxy`. */
  function Normalize(path: string): (r: string)
    ensures |r| <= |path|
    ensures !Contains(path, GreedyMarker) ==> r == path
  {
    ReplaceAll(path, GreedyMarker, PlainMarker)
  }

  /** A template without `+` is left exactly as it is. */
  lemma NormalizeWithoutPlus(path: string)
    requires '+' !in path
    ensures Normalize(path) == path
  {
    forall i | 0 <= i <= |path| ensures !OccursAt(path, GreedyMarker, i) {
      if i + 6 <= |path| {
        assert path[i..i + 6][5] == path[i + 5];
      }
    }
  }

  lemma ConsAppend(u: string, t: string)
    requires u != []
    ensures [u[0]] + (u[1..] + t) == u + t
  {
    assert u == [u[0]] + u[1..];
  }

  /** A string starting with the pattern: the replacement comes first. */
  lemma ReplaceAllAtStart(pat: string, rep: string, b: string)
    requires pat != []
    ensures ReplaceAll(pat + b, pat, rep) == rep + ReplaceAll(b, pat, rep)
  {
    var s := pat + b;
    assert s[..|pat|] == pat;
    assert s[|pat|..] == b;
  }

  /** Where no occurrence starts at the first character, that character is
      copied. */
  lemma ReplaceAllBefore(a: string, pat: string, rep: string, b: string)
    requires pat != [] && a != [] && !OccursAt(a + pat + b, pat, 0)
    ensures ReplaceAll(a + pat + b, pat, rep) == [a[0]] + ReplaceAll(a[1..] + pat + b, pat, rep)
  {
    var s := a + pat + b;
    ReplaceAllSkip(s, pat, rep);
    assert s[0] == a[0];
    assert s[1..] == a[1..] + pat + b;
  }

  /** No occurrence starts inside `a`, so none starts inside its tail. */
  lemma NoOccurrenceInTail(a: string, pat: string, b: string)
    requires a != []
    requires forall i | 0 <= i < |a| :: !OccursAt(a + pat + b, pat, i)
    ensures forall i | 0 <= i < |a[1..]| :: !OccursAt(a[1..] + pat + b, pat, i)
  {
    var s := a + pat + b;
    assert s[1..] == a[1..] + pat + b;
    forall i | 0 <= i < |a[1..]| ensures !OccursAt(a[1..] + pat + b, pat, i) {
      if OccursAt(s[1..], pat, i) {
        OccursInTail(s, pat, i);
      }
    }
  }

  /** When no occurrence of the pattern starts inside `a`, `a` is copied and
      the occurrence right after it is replaced. */
  lemma {:induction false} ReplaceAllAfter(a: string, pat: string, rep: string, b: string)
    requires pat != []
    requires forall i | 0 <= i < |a| :: !OccursAt(a + pat + b, pat, i)
    ensures ReplaceAll(a + pat + b, pat, rep) == a + (rep + ReplaceAll(b, pat, rep))
    decreases |a|
  {
    if a == [] {
      ReplaceAllAtStart(pat, rep, b);
      assert a + pat + b == pat + b;
    } else {
      ReplaceAllBefore(a, pat, rep, b);
      NoOccurrenceInTail(a, pat, b);
      ReplaceAllAfter(a[1..], pat, rep, b);
      ConsAppend(a, rep + ReplaceAll(b, pat, rep));
    }
  }

  /** Up to the first `proxy+`, the template is copied, and that marker is
      rewritten: `Normalize(a + "proxy+" + b) == a + "proxy" + Normalize(b)`. */
  lemma NormalizeFirstMarker(a: string, b: string)
    requires forall i | 0 <= i < |a| :: !OccursAt(a + GreedyMarker + b, GreedyMarker, i)
    ensures Normalize(a + GreedyMarker + b) == a + PlainMarker + Normalize(b)
  {
    ReplaceAllAfter(a, GreedyMarker, PlainMarker, b);
    assert a + (PlainMarker + Normalize(b)) == a + PlainMarker + Normalize(b);
  }

  /** Text without `+` holds no `proxy+`, so the first marker after it is
      the first one. */
  lemma NoMarkerInPlusFree(a: string, b: string)
    requires '+' !in a
    ensures forall i | 0 <= i < |a| :: !OccursAt(a + GreedyMarker + b, GreedyMarker, i)
  {
    var s := a + GreedyMarker + b;
    forall i | 0 <= i < |a| ensures !OccursAt(s, GreedyMarker, i) {
      if i + 6 <= |s| {
        assert s[i..i + 6][5] == s[i + 5];
        if i + 5 < |a| {
          assert s[i + 5] == a[i + 5] && a[i + 5] in a;
        } else {
          assert s[i + 5] == GreedyMarker[i + 5 - |a|];
        }
      }
    }
  }

  /** The greedy path variable `{proxy+}` reaches the backend as `{proxy}`. */
  lemma NormalizeGreedyVariable(prefix: string)
    requires '+' !in prefix
    ensures Normalize(prefix + "{proxy+}") == prefix + "{proxy}"
  {
    assert prefix + "{proxy+}" == (prefix + "{") + GreedyMarker + "}";
    NoMarkerInPlusFree(prefix + "{", "}");
    NormalizeFirstMarker(prefix + "{", "}");
    NormalizeWithoutPlus("}");
  }
}
