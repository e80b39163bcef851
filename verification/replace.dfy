/** Python's `str.replace(old, new)` for a non-empty `old`, the primitive the
    transcript cleaning pass is built from (load_db.py:32-39).

    The scan goes left to right; wherever the pattern starts, the replacement
    is emitted and the scan resumes just after the matched text, so matches
    never overlap and text produced by a replacement is never rescanned. */
module Replace {

  /** A non-empty search string; every pattern of the cleaning pass has one or more characters. */
  type Pattern = s: string | |s| > 0 witness " "

  /** `pat` occurs as a contiguous piece of `s`. */
  predicate Contains(s: string, pat: string)
    decreases |s|
  {
    pat <= s || (|s| > 0 && Contains(s[1..], pat))
  }

  /** `n` copies of the space character. */
  function Spaces(n: nat): (r: string)
    ensures |r| == n
    ensures forall i :: 0 <= i < n ==> r[i] == ' '
  {
    seq(n, _ => ' ')
  }

  /** Every occurrence of `pat`, found left to right without overlap, replaced by `rep`.
      Its properties are stated by the lemmas below rather than as postconditions, so
      that evaluating it on a literal text stays cheap. */
  function ReplaceAll(s: string, pat: Pattern, rep: string): string
    decreases |s|
  {
    if |s| == 0 then s
    else if pat <= s then rep + ReplaceAll(s[|pat|..], pat, rep)
    else [s[0]] + ReplaceAll(s[1..], pat, rep)
  }

  /** How many occurrences the left-to-right scan of `ReplaceAll` replaces. */
  function Occurrences(s: string, pat: Pattern): nat
    decreases |s|
  {
    if |s| == 0 then 0
    else if pat <= s then 1 + Occurrences(s[|pat|..], pat)
    else Occurrences(s[1..], pat)
  }

  /** Each replaced occurrence changes the length by the difference between replacement and pattern. */
  lemma {:induction false} ReplaceAllLength(s: string, pat: Pattern, rep: string)
    ensures |ReplaceAll(s, pat, rep)| == |s| + Occurrences(s, pat) * (|rep| - |pat|)
    decreases |s|
  {
    if |s| == 0 {
    } else if pat <= s {
      var t := s[|pat|..];
      ReplaceAllLength(t, pat, rep);
      var k, d := Occurrences(t, pat), |rep| - |pat|;
      assert |ReplaceAll(s, pat, rep)| == |rep| + |ReplaceAll(t, pat, rep)|;
      assert Occurrences(s, pat) == k + 1;
      MulSucc(k, d);
    } else {
      ReplaceAllLength(s[1..], pat, rep);
    }
  }

  lemma MulSucc(k: nat, d: int)
    ensures (k + 1) * d == k * d + d
  {
  }

  /** The scan replaces something exactly when the pattern occurs. */
  lemma {:induction false} OccurrencesPositiveIff(s: string, pat: Pattern)
    ensures Occurrences(s, pat) > 0 <==> Contains(s, pat)
    decreases |s|
  {
    if |s| > 0 && !(pat <= s) {
      OccurrencesPositiveIff(s[1..], pat);
    }
  }

  /** Replacing by something no longer never lengthens; by something no shorter never shortens. */
  lemma {:induction false} ReplaceAllMonotone(s: string, pat: Pattern, rep: string)
    ensures |rep| <= |pat| ==> |ReplaceAll(s, pat, rep)| <= |s|
    ensures |pat| <= |rep| ==> |s| <= |ReplaceAll(s, pat, rep)|
    decreases |s|
  {
    if |s| == 0 {
    } else if pat <= s {
      ReplaceAllMonotone(s[|pat|..], pat, rep);
    } else {
      ReplaceAllMonotone(s[1..], pat, rep);
    }
  }

  /** Every character of the result was in the text or in the replacement. */
  lemma {:induction false} ReplaceAllChars(s: string, pat: Pattern, rep: string)
    ensures forall c :: c in ReplaceAll(s, pat, rep) ==> c in s || c in rep
    decreases |s|
  {
    if |s| == 0 {
    } else if pat <= s {
      ReplaceAllChars(s[|pat|..], pat, rep);
      assert forall c :: c in s[|pat|..] ==> c in s;
    } else {
      ReplaceAllChars(s[1..], pat, rep);
      assert forall c :: c in s[1..] ==> c in s;
    }
  }

  /** A pattern that does not occur leaves the text alone. */
  lemma {:induction false} ReplaceAllAbsent(s: string, pat: Pattern, rep: string)
    requires !Contains(s, pat)
    ensures ReplaceAll(s, pat, rep) == s
    decreases |s|
  {
    if |s| > 0 {
      ReplaceAllAbsent(s[1..], pat, rep);
    }
  }

  /** A one-character pattern replaced by text without that character is gone afterwards. */
  lemma {:induction false} ReplaceAllRemovesChar(s: string, pat: Pattern, rep: string)
    requires |pat| == 1 && pat[0] !in rep
    ensures pat[0] !in ReplaceAll(s, pat, rep)
    decreases |s|
  {
    if |s| > 0 {
      if pat <= s {
        ReplaceAllRemovesChar(s[1..], pat, rep);
      } else {
        assert s[0] != pat[0];
        ReplaceAllRemovesChar(s[1..], pat, rep);
      }
    }
  }

  /** The recursive `Contains` agrees with the positional reading "some suffix starts with `pat`". */
  lemma {:induction false} ContainsIffSomePosition(s: string, pat: string)
    ensures Contains(s, pat) <==> exists i :: 0 <= i <= |s| && pat <= s[i..]
  {
    if pat <= s {
      assert s[0..] == s;
    } else if |s| == 0 {
      assert forall i :: 0 <= i <= |s| ==> s[i..] == s;
    } else {
      ContainsIffSomePosition(s[1..], pat);
      if Contains(s, pat) {
        var i :| 0 <= i <= |s[1..]| && pat <= s[1..][i..];
        assert s[1..][i..] == s[i + 1..];
      }
      if exists i :: 0 <= i <= |s| && pat <= s[i..] {
        var i :| 0 <= i <= |s| && pat <= s[i..];
        assert i != 0;
        assert s[1..][i - 1..] == s[i..];
      }
    }
  }

  /** A pattern holding a character the text lacks does not occur in it. */
  lemma {:induction false} AbsentCharNotContained(s: string, pat: string, c: char)
    requires c in pat && c !in s
    ensures !Contains(s, pat)
    decreases |s|
  {
    if |s| > 0 {
      AbsentCharNotContained(s[1..], pat, c);
    }
  }

  /** A pattern whose first two characters never stand side by side in the text does not occur in it. */
  lemma {:induction false} AbsentPairNotContained(s: string, pat: string)
    requires |pat| >= 2
    requires forall i :: 0 <= i < |s| - 1 ==> !(s[i] == pat[0] && s[i + 1] == pat[1])
    ensures !Contains(s, pat)
    decreases |s|
  {
    if |s| >= 2 {
      assert !(s[0] == pat[0] && s[1] == pat[1]);
    }
    if |s| > 0 {
      AbsentPairNotContained(s[1..], pat);
    }
  }

  /** `ReplaceAll` leaves the text unchanged exactly when the pattern does not occur
      or is replaced by itself. */
  lemma {:induction false} FixedPointIff(s: string, pat: Pattern, rep: string)
    ensures ReplaceAll(s, pat, rep) == s <==> (!Contains(s, pat) || rep == pat)
    decreases |s|
  {
    if |s| == 0 {
    } else if pat <= s {
      var t := s[|pat|..];
      var r := ReplaceAll(s, pat, rep);
      assert s == pat + t;
      assert r == rep + ReplaceAll(t, pat, rep);
      FixedPointIff(t, pat, rep);
      ReplaceAllMonotone(t, pat, rep);
      if rep != pat {
        if |rep| == |pat| {
          assert r[..|pat|] == rep;
          assert s[..|pat|] == pat;
        } else if |rep| < |pat| {
          assert |r| < |s|;
        } else {
          assert |r| > |s|;
        }
      }
    } else {
      FixedPointIff(s[1..], pat, rep);
      assert s == [s[0]] + s[1..];
    }
  }

  /** Replacing an occurring pattern by something strictly shorter strictly shortens the text. */
  lemma {:induction false} StrictlyShorter(s: string, pat: Pattern, rep: string)
    requires Contains(s, pat) && |rep| < |pat|
    ensures |ReplaceAll(s, pat, rep)| < |s|
    decreases |s|
  {
    if pat <= s {
      ReplaceAllMonotone(s[|pat|..], pat, rep);
    } else {
      StrictlyShorter(s[1..], pat, rep);
    }
  }

  /** Text before the first character of the pattern is copied through unchanged. */
  lemma {:induction false} PeelPrefix(w: string, t: string, pat: Pattern, rep: string)
    requires pat[0] !in w
    ensures ReplaceAll(w + t, pat, rep) == w + ReplaceAll(t, pat, rep)
    decreases |w|
  {
    if |w| > 0 {
      assert (w + t)[1..] == w[1..] + t;
      assert !(pat <= w + t) by { assert (w + t)[0] == w[0]; }
      PeelPrefix(w[1..], t, pat, rep);
    } else {
      assert w + t == t;
    }
  }

  /** A single occurrence of the pattern, with nothing before it that could start a
      match and no occurrence after it, is replaced and the rest kept. */
  lemma ReplaceSingle(a: string, b: string, pat: Pattern, rep: string)
    requires pat[0] !in a && !Contains(b, pat)
    ensures ReplaceAll(a + pat + b, pat, rep) == a + rep + b
  {
    PeelPrefix(a, pat + b, pat, rep);
    ReplaceAllAbsent(b, pat, rep);
    assert (pat + b)[|pat|..] == b;
    assert a + pat + b == a + (pat + b);
  }

  /** One pass of replacing two spaces by one roughly halves a run of spaces:
      `n` spaces become `ceil(n / 2)`, so a single pass does not collapse a run. */
  lemma {:induction false} HalveSpaces(n: nat)
    ensures ReplaceAll(Spaces(n), "  ", " ") == Spaces((n + 1) / 2)
  {
    if n >= 2 {
      HalveSpaces(n - 2);
      assert "  " <= Spaces(n);
      assert Spaces(n)[2..] == Spaces(n - 2);
      assert " " + Spaces((n - 1) / 2) == Spaces((n + 1) / 2);
    } else if n == 1 {
      assert Spaces(1) == " ";
      assert !("  " <= Spaces(1));
      assert Spaces(1)[1..] == "";
    }
  }
}
