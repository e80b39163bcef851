/** The transcript cleaning pass of the ingestion script (load_db.py:31-39):
    a fixed, ordered list of literal replacements applied to the text of every
    video chunk. The list is kept as data, one rule per `.replace` call, so that
    the order is visible and the properties can be proved once for all rules. */
module Cleaning {
  import opened Replace

  /** One `.replace(pat, rep)` call of the cleaning chain. */
  datatype Rule = Rule(pat: Pattern, rep: string)

  const NoBreakSpace: char := '\U{00A0}'
  const ByteOrderMark: char := '\U{FEFF}'

  /** The replacements of each line of load_db.py:32-39, in the order each line applies them. */
  const Line32: seq<Rule> := [Rule("\n", " "), Rule([NoBreakSpace], ""), Rule([ByteOrderMark], ""), Rule("  ", " ")]
  const Line33: seq<Rule> := [Rule("[music fades out]", ""), Rule("[Music, laughing]", ""), Rule("[Music]", ""), Rule("[synth music]", "")]
  const Line34: seq<Rule> := [Rule("[Loud, electronic music]", ""), Rule("[pause]", ""), Rule("[music]", ""), Rule("[swish]", "")]
  const Line35: seq<Rule> := [Rule("[ping pong sfx]", ""), Rule("[pop, pop]", ""), Rule("[pops]", ""), Rule("[Laughing]", "")]
  const Line36: seq<Rule> := [Rule("[Typing sounds]", ""), Rule("[num]", ""), Rule("[Title: ", ""), Rule("[title: ", "")]
  const Line37: seq<Rule> := [Rule("]", ""), Rule("[Closed captioning: ", ""), Rule("  ", " "), Rule("  ", " ")]
  const Line38: seq<Rule> := [Rule("[APPLAUSE ", ""), Rule("[MUSIC PLAYING ", ""), Rule("[LAUGHTER ", ""), Rule("[CHEERS ", "")]
  const Line39: seq<Rule> := [Rule("[SCREAMS. ", ""), Rule("[SNORE, ", ""), Rule("[SLAMS TABLE ", "")]

  /** All 31 replacements in source order: indices 0-3 come from line 32, 4-7 from
      line 33, and so on, 28-30 from line 39. */
  const Rules: seq<Rule> := Line32 + Line33 + Line34 + Line35 + Line36 + Line37 + Line38 + Line39

  /** The replacement of every rule is no longer than its pattern. */
  predicate NonLengthening(rules: seq<Rule>)
  {
    forall k :: 0 <= k < |rules| ==> |rules[k].rep| <= |rules[k].pat|
  }

  /** No rule's pattern occurs in `s`. */
  predicate NoneOccurs(s: string, rules: seq<Rule>)
  {
    forall k :: 0 <= k < |rules| ==> !Contains(s, rules[k].pat)
  }

  /** The rules applied one after another, each to the output of the previous one. */
  function ApplyRules(s: string, rules: seq<Rule>): string
    decreases |rules|
  {
    if |rules| == 0 then s
    else ApplyRules(ReplaceAll(s, rules[0].pat, rules[0].rep), rules[1..])
  }

  /** Rules that never replace by something longer never lengthen the text. */
  lemma {:induction false} ApplyRulesNonLengthening(s: string, rules: seq<Rule>)
    requires NonLengthening(rules)
    ensures |ApplyRules(s, rules)| <= |s|
    decreases |rules|
  {
    if |rules| > 0 {
      ReplaceAllMonotone(s, rules[0].pat, rules[0].rep);
      ApplyRulesNonLengthening(ReplaceAll(s, rules[0].pat, rules[0].rep), rules[1..]);
    }
  }

  /** Rules none of whose patterns occur leave the text unchanged. */
  lemma {:induction false} ApplyRulesUnchanged(s: string, rules: seq<Rule>)
    requires NoneOccurs(s, rules)
    ensures ApplyRules(s, rules) == s
    decreases |rules|
  {
    if |rules| > 0 {
      ReplaceAllAbsent(s, rules[0].pat, rules[0].rep);
      ApplyRulesUnchanged(s, rules[1..]);
    }
  }

  /** A character absent from the text and from every replacement is absent afterwards. */
  lemma {:induction false} ApplyRulesKeepsOut(s: string, rules: seq<Rule>, c: char)
    requires c !in s
    requires forall k :: 0 <= k < |rules| ==> c !in rules[k].rep
    ensures c !in ApplyRules(s, rules)
    decreases |rules|
  {
    if |rules| > 0 {
      ReplaceAllChars(s, rules[0].pat, rules[0].rep);
      ApplyRulesKeepsOut(ReplaceAll(s, rules[0].pat, rules[0].rep), rules[1..], c);
    }
  }

  /** A rule that replaces one character by text without it removes that character
      for good, provided no later replacement brings it back. */
  lemma {:induction false} ApplyRulesEliminates(s: string, rules: seq<Rule>, k: nat, c: char)
    requires k < |rules| && rules[k].pat == [c] && c !in rules[k].rep
    requires forall j :: k < j < |rules| ==> c !in rules[j].rep
    ensures c !in ApplyRules(s, rules)
    decreases |rules|
  {
    var next := ReplaceAll(s, rules[0].pat, rules[0].rep);
    if k == 0 {
      ReplaceAllRemovesChar(s, rules[0].pat, rules[0].rep);
      ApplyRulesKeepsOut(next, rules[1..], c);
    } else {
      ApplyRulesEliminates(next, rules[1..], k - 1, c);
    }
  }

  /** When every rule strictly shortens what it matches, the rules leave a text
      unchanged exactly when none of their patterns occurs in it. */
  lemma {:induction false} ShrinkingFixedPointIff(s: string, rules: seq<Rule>)
    requires forall k :: 0 <= k < |rules| ==> |rules[k].rep| < |rules[k].pat|
    ensures ApplyRules(s, rules) == s <==> NoneOccurs(s, rules)
    decreases |rules|
  {
    if |rules| > 0 {
      var next := ReplaceAll(s, rules[0].pat, rules[0].rep);
      FixedPointIff(s, rules[0].pat, rules[0].rep);
      if Contains(s, rules[0].pat) {
        StrictlyShorter(s, rules[0].pat, rules[0].rep);
        ApplyRulesNonLengthening(next, rules[1..]);
      } else {
        ShrinkingFixedPointIff(s, rules[1..]);
        assert NoneOccurs(s, rules) <==> NoneOccurs(s, rules[1..]);
      }
    }
  }

  /** Every replacement in the table is empty or a single space. */
  lemma RepsBlankOrSpace()
    ensures forall k :: 0 <= k < |Rules| ==> Rules[k].rep == "" || Rules[k].rep == " "
  {
  }

  /** No replacement in the table is longer than its pattern. */
  lemma RulesNonLengthening()
    ensures NonLengthening(Rules)
  {
    RepsBlankOrSpace();
  }

  /** Every pattern from index 4 on, apart from the two double-space rules, holds a bracket. */
  lemma LaterPatternsBracketed()
    ensures forall k :: 4 <= k < |Rules| && k != 22 && k != 23 ==> '[' in Rules[k].pat || ']' in Rules[k].pat
  {
    forall k | 4 <= k < |Rules| && k != 22 && k != 23
      ensures '[' in Rules[k].pat || ']' in Rules[k].pat
    {
      if k == 20 {
        assert Rules[20].pat[0] == ']';
      } else {
        assert Rules[k].pat[0] == '[';
      }
    }
  }

  /** The cleaned text of one video chunk (load_db.py:32-39). */
  function Clean(s: string): (r: string)
    // cleaning never lengthens the text
    ensures |r| <= |s|
    // newlines (turned into spaces), no-break spaces and byte order marks never survive
    ensures '\n' !in r && NoBreakSpace !in r && ByteOrderMark !in r
    // every closing bracket is removed and none is brought back
    ensures ']' !in r
  {
    CleanRemoves(s);
    RulesNonLengthening();
    ApplyRulesNonLengthening(s, Rules);
    ApplyRules(s, Rules)
  }

  lemma CleanRemoves(s: string)
    ensures '\n' !in ApplyRules(s, Rules) && NoBreakSpace !in ApplyRules(s, Rules)
    ensures ByteOrderMark !in ApplyRules(s, Rules) && ']' !in ApplyRules(s, Rules)
  {
    RepsBlankOrSpace();
    assert Rules[0].pat == "\n" && Rules[1].pat == [NoBreakSpace];
    assert Rules[2].pat == [ByteOrderMark] && Rules[20].pat == "]";
    ApplyRulesEliminates(s, Rules, 0, '\n');
    ApplyRulesEliminates(s, Rules, 1, NoBreakSpace);
    ApplyRulesEliminates(s, Rules, 2, ByteOrderMark);
    ApplyRulesEliminates(s, Rules, 20, ']');
  }

  /** A text holding a character also holds the one-character pattern of it. */
  lemma CharContained(s: string, c: char)
    requires c in s
    ensures Contains(s, [c])
  {
    var i :| 0 <= i < |s| && s[i] == c;
    assert [c] <= s[i..];
    ContainsIffSomePosition(s, [c]);
  }

  /** Cleaning leaves a text unchanged exactly when none of the 31 patterns occurs in it. */
  lemma CleanFixedPointIff(s: string)
    ensures Clean(s) == s <==> NoneOccurs(s, Rules)
  {
    if '\n' in s {
      CharContained(s, '\n');
      assert !NoneOccurs(s, Rules) by { assert Rules[0].pat == "\n"; }
    } else {
      AbsentCharNotContained(s, "\n", '\n');
      ReplaceAllAbsent(s, "\n", " ");
      assert Rules[1..][0] == Rules[1];
      ShrinkingFixedPointIff(s, Rules[1..]);
      assert NoneOccurs(s, Rules) <==> NoneOccurs(s, Rules[1..]);
    }
  }

  /** A text without brackets contains none of the bracketed patterns. */
  lemma BracketedPatternsAbsent(s: string)
    requires '[' !in s && ']' !in s
    ensures forall k :: 4 <= k < |Rules| && k != 22 && k != 23 ==> !Contains(s, Rules[k].pat)
  {
    LaterPatternsBracketed();
    forall k | 4 <= k < |Rules| && k != 22 && k != 23
      ensures !Contains(s, Rules[k].pat)
    {
      if '[' in Rules[k].pat {
        AbsentCharNotContained(s, Rules[k].pat, '[');
      } else {
        AbsentCharNotContained(s, Rules[k].pat, ']');
      }
    }
  }

  /** Plain text, with no newline, no-break space, byte order mark, bracket or
      double space, is left exactly as it is. */
  lemma PlainTextUnchanged(s: string)
    requires '\n' !in s && NoBreakSpace !in s && ByteOrderMark !in s
    requires '[' !in s && ']' !in s && !Contains(s, "  ")
    ensures Clean(s) == s
  {
    AbsentCharNotContained(s, Rules[0].pat, '\n');
    AbsentCharNotContained(s, Rules[1].pat, NoBreakSpace);
    AbsentCharNotContained(s, Rules[2].pat, ByteOrderMark);
    assert Rules[3].pat == "  " && Rules[22].pat == "  " && Rules[23].pat == "  ";
    BracketedPatternsAbsent(s);
    CleanFixedPointIff(s);
  }
}
