/** What the cleaning pass (load_db.py:32-39) does to a few shapes of text: an
    annotation removed from the front leaves its following space behind, a title
    annotation is unwrapped, the order of the lines decides what survives, and a
    run of spaces is shortened but not always to one space. The texts are built
    from arbitrary words, so each lemma covers a whole family of inputs. */
module CleaningExamples {
  import opened Replace
  import opened Cleaning

  // ----- walking the rule table -----

  /** Rules `i` to `k - 1` find nothing in `s`, so they can be skipped. */
  lemma {:induction false} SkipRange(s: string, rules: seq<Rule>, i: nat, k: nat)
    requires i <= k <= |rules|
    requires forall j :: i <= j < k ==> !Contains(s, rules[j].pat)
    ensures ApplyRules(s, rules[i..]) == ApplyRules(s, rules[k..])
    decreases k - i
  {
    if i < k {
      ReplaceAllAbsent(s, rules[i].pat, rules[i].rep);
      assert rules[i..][1..] == rules[i + 1..];
      SkipRange(s, rules, i + 1, k);
    }
  }

  /** Rule `i` turns `s` into `t`. */
  lemma Fire(s: string, rules: seq<Rule>, i: nat, t: string)
    requires i < |rules| && ReplaceAll(s, rules[i].pat, rules[i].rep) == t
    ensures ApplyRules(s, rules[i..]) == ApplyRules(t, rules[i + 1..])
  {
    assert rules[i..][1..] == rules[i + 1..];
  }

  // ----- shapes of text -----

  /** A word as the examples use it: non-empty, with no space, newline, no-break
      space, byte order mark or bracket. */
  predicate Word(w: string)
  {
    |w| > 0 && ' ' !in w && '\n' !in w && NoBreakSpace !in w && ByteOrderMark !in w && '[' !in w && ']' !in w
  }

  /** No two spaces in a row. */
  predicate SingleSpaced(s: string)
  {
    forall i :: 0 <= i < |s| - 1 ==> !(s[i] == ' ' && s[i + 1] == ' ')
  }

  lemma SingleSpacedConcat(x: string, y: string)
    requires SingleSpaced(x) && SingleSpaced(y)
    requires |x| == 0 || |y| == 0 || x[|x| - 1] != ' ' || y[0] != ' '
    ensures SingleSpaced(x + y)
  {
    forall i | 0 <= i < |x + y| - 1
      ensures !((x + y)[i] == ' ' && (x + y)[i + 1] == ' ')
    {
      if i + 1 < |x| {
        assert (x + y)[i] == x[i] && (x + y)[i + 1] == x[i + 1];
      } else if i >= |x| {
        assert (x + y)[i] == y[i - |x|] && (x + y)[i + 1] == y[i + 1 - |x|];
      }
    }
  }

  /** Single spacing survives appending a space-free text after one space. */
  lemma SingleSpacedSnoc(x: string, w: string)
    requires SingleSpaced(x) && |x| > 0 && x[|x| - 1] != ' ' && ' ' !in w
    ensures SingleSpaced(x + " " + w)
  {
    SingleSpacedConcat(x, " ");
    SingleSpacedConcat(x + " ", w);
  }

  lemma {:induction false} ContainsPeel(w: string, t: string, pat: Pattern)
    requires pat[0] !in w
    ensures Contains(w + t, pat) <==> Contains(t, pat)
    decreases |w|
  {
    if |w| > 0 {
      assert (w + t)[1..] == w[1..] + t;
      ContainsPeel(w[1..], t, pat);
    } else {
      assert w + t == t;
    }
  }

  /** An annotation that is not `pat` (they differ at index `k`) hides no occurrence of `pat`,
      when it holds the only copy of the pattern's first character. */
  lemma OneTagAbsent(rest: string, pat: Pattern, k: nat)
    requires pat[0] !in rest
    requires 1 <= k < |pat| && k <= |rest| && pat[k] != rest[k - 1]
    ensures !Contains([pat[0]] + rest, pat)
  {
    var s := [pat[0]] + rest;
    assert s[k] == rest[k - 1];
    assert s[1..] == rest;
    AbsentCharNotContained(rest, pat, pat[0]);
  }

  /** The same for two annotations, which differ from `pat` at `k1` and `k2`. */
  lemma TwoTagsAbsent(r1: string, r2: string, pat: Pattern, k1: nat, k2: nat)
    requires pat[0] !in r1 && pat[0] !in r2
    requires 1 <= k1 < |pat| && k1 <= |r1| && pat[k1] != r1[k1 - 1]
    requires 1 <= k2 < |pat| && k2 <= |r2| && pat[k2] != r2[k2 - 1]
    ensures !Contains([pat[0]] + r1 + ([pat[0]] + r2), pat)
  {
    var x, y := [pat[0]] + r1, [pat[0]] + r2;
    var s := x + y;
    forall i | 0 <= i <= |s|
      ensures !(pat <= s[i..])
    {
      if i == 0 {
        assert s[k1] == r1[k1 - 1];
      } else if i < |x| {
        assert s[i..][0] == r1[i - 1];
      } else if i == |x| {
        assert s[i..][k2] == r2[k2 - 1];
      } else if i < |s| {
        assert s[i..][0] == r2[i - |x| - 1];
      }
    }
    ContainsIffSomePosition(s, pat);
  }

  /** A pattern at the front of a text holding no other occurrence of it is replaced there and only there. */
  lemma FrontReplaced(pat: Pattern, rep: string, w: string)
    requires !Contains(w, pat)
    ensures ReplaceAll(pat + w, pat, rep) == rep + w
  {
    assert pat <= pat + w;
    assert (pat + w)[|pat|..] == w;
    ReplaceAllAbsent(w, pat, rep);
  }

  /** Line 32 does nothing to single-spaced text without newlines, no-break spaces or byte order marks. */
  lemma FrontRules(s: string)
    requires '\n' !in s && NoBreakSpace !in s && ByteOrderMark !in s && SingleSpaced(s)
    ensures Clean(s) == ApplyRules(s, Rules[4..])
  {
    AbsentCharNotContained(s, Rules[0].pat, '\n');
    AbsentCharNotContained(s, Rules[1].pat, NoBreakSpace);
    AbsentCharNotContained(s, Rules[2].pat, ByteOrderMark);
    assert Rules[3].pat == "  ";
    AbsentPairNotContained(s, "  ");
    assert Rules[0..] == Rules;
    SkipRange(s, Rules, 0, 4);
  }

  /** From rule `i` of line 36 or earlier on, a text without brackets only goes
      through the two double-space passes of line 37. */
  lemma BracketFreeRest(s: string, t: string, u: string, i: nat)
    requires 4 <= i <= 22
    requires '[' !in s && ']' !in s && '[' !in u && ']' !in u
    requires ReplaceAll(s, "  ", " ") == t && ReplaceAll(t, "  ", " ") == u
    ensures ApplyRules(s, Rules[i..]) == u
  {
    assert Rules[22].pat == "  " && Rules[23].pat == "  ";
    BracketedPatternsAbsent(s);
    BracketedPatternsAbsent(u);
    assert Rules[31..] == [];
    SkipRange(s, Rules, i, 22);
    Fire(s, Rules, 22, t);
    Fire(t, Rules, 23, u);
    SkipRange(u, Rules, 24, 31);
  }

  // ----- "[music] a [Laughing] b" -----

  lemma PatternsOfRules4To9()
    ensures |Rules| == 31
    ensures Rules[4].pat == "[music fades out]" && Rules[5].pat == "[Music, laughing]" && Rules[6].pat == "[Music]"
    ensures Rules[7].pat == "[synth music]" && Rules[8].pat == "[Loud, electronic music]" && Rules[9].pat == "[pause]"
  {
  }

  /** Rules 4 to 6 find nothing in a "[music]" annotation followed by a "[Laughing]" one. */
  lemma MusicTagsAbsent4To6(r1: string, r2: string)
    requires '[' !in r1 && '[' !in r2 && |r1| >= 6 && r1[0] == 'm' && r1[5] == ']' && |r2| >= 2 && r2[0] == 'L' && r2[1] == 'a'
    ensures var s := "[" + r1 + ("[" + r2);
      !Contains(s, "[music fades out]") && !Contains(s, "[Music, laughing]") && !Contains(s, "[Music]")
  {
    TwoTagsAbsent(r1, r2, "[music fades out]", 6, 1);
    TwoTagsAbsent(r1, r2, "[Music, laughing]", 1, 1);
    TwoTagsAbsent(r1, r2, "[Music]", 1, 1);
  }

  /** Rules 7 to 9 find nothing there either. */
  lemma MusicTagsAbsent7To9(r1: string, r2: string)
    requires '[' !in r1 && '[' !in r2 && |r1| >= 6 && r1[0] == 'm' && r1[5] == ']' && |r2| >= 2 && r2[0] == 'L' && r2[1] == 'a'
    ensures var s := "[" + r1 + ("[" + r2);
      !Contains(s, "[synth music]") && !Contains(s, "[Loud, electronic music]") && !Contains(s, "[pause]")
  {
    TwoTagsAbsent(r1, r2, "[synth music]", 1, 1);
    TwoTagsAbsent(r1, r2, "[Loud, electronic music]", 1, 2);
    TwoTagsAbsent(r1, r2, "[pause]", 1, 1);
  }

  lemma MusicTagsSkipped(r1: string, r2: string)
    requires '[' !in r1 && '[' !in r2 && |r1| >= 6 && r1[0] == 'm' && r1[5] == ']' && |r2| >= 2 && r2[0] == 'L' && r2[1] == 'a'
    ensures var s := "[" + r1 + ("[" + r2);
      ApplyRules(s, Rules[4..]) == ApplyRules(s, Rules[10..])
  {
    MusicTagsSkipped4To6(r1, r2);
    MusicTagsSkipped7To9(r1, r2);
  }

  lemma MusicTagsSkipped4To6(r1: string, r2: string)
    requires '[' !in r1 && '[' !in r2 && |r1| >= 6 && r1[0] == 'm' && r1[5] == ']' && |r2| >= 2 && r2[0] == 'L' && r2[1] == 'a'
    ensures var s := "[" + r1 + ("[" + r2);
      ApplyRules(s, Rules[4..]) == ApplyRules(s, Rules[7..])
  {
    PatternsOfRules4To9();
    MusicTagsAbsent4To6(r1, r2);
    SkipRange("[" + r1 + ("[" + r2), Rules, 4, 7);
  }

  lemma MusicTagsSkipped7To9(r1: string, r2: string)
    requires '[' !in r1 && '[' !in r2 && |r1| >= 6 && r1[0] == 'm' && r1[5] == ']' && |r2| >= 2 && r2[0] == 'L' && r2[1] == 'a'
    ensures var s := "[" + r1 + ("[" + r2);
      ApplyRules(s, Rules[7..]) == ApplyRules(s, Rules[10..])
  {
    PatternsOfRules4To9();
    MusicTagsAbsent7To9(r1, r2);
    SkipRange("[" + r1 + ("[" + r2), Rules, 7, 10);
  }

  lemma PatternsOfRules10To15()
    ensures |Rules| == 31
    ensures Rules[10] == Rule("[music]", "") && Rules[11].pat == "[swish]" && Rules[12].pat == "[ping pong sfx]"
    ensures Rules[13].pat == "[pop, pop]" && Rules[14].pat == "[pops]" && Rules[15] == Rule("[Laughing]", "")
  {
  }

  /** Rule 10 removes the "[music]" annotation at the front. */
  lemma MusicFires(u: string, r2: string)
    requires '[' !in u && '[' !in r2 && |r2| >= 1 && r2[0] == 'L'
    ensures ApplyRules("[music]" + (u + ("[" + r2)), Rules[10..]) == ApplyRules(u + ("[" + r2), Rules[11..])
  {
    PatternsOfRules10To15();
    OneTagAbsent(r2, "[music]", 1);
    ContainsPeel(u, "[" + r2, "[music]");
    FrontReplaced("[music]", "", u + ("[" + r2));
    assert "" + (u + ("[" + r2)) == u + ("[" + r2);
    Fire("[music]" + (u + ("[" + r2)), Rules, 10, u + ("[" + r2));
  }

  /** Rules 11 to 14 find nothing when the only annotation left is "[Laughing]". */
  lemma LaughingTagsAbsent(u: string, r2: string)
    requires '[' !in u && '[' !in r2 && |r2| >= 1 && r2[0] == 'L'
    ensures var s := u + ("[" + r2);
      !Contains(s, "[swish]") && !Contains(s, "[ping pong sfx]") && !Contains(s, "[pop, pop]") && !Contains(s, "[pops]")
  {
    ContainsPeel(u, "[" + r2, "[swish]");
    OneTagAbsent(r2, "[swish]", 1);
    ContainsPeel(u, "[" + r2, "[ping pong sfx]");
    OneTagAbsent(r2, "[ping pong sfx]", 1);
    ContainsPeel(u, "[" + r2, "[pop, pop]");
    OneTagAbsent(r2, "[pop, pop]", 1);
    ContainsPeel(u, "[" + r2, "[pops]");
    OneTagAbsent(r2, "[pops]", 1);
  }

  lemma LaughingTagsSkipped(u: string, r2: string)
    requires '[' !in u && '[' !in r2 && |r2| >= 1 && r2[0] == 'L'
    ensures ApplyRules(u + ("[" + r2), Rules[11..]) == ApplyRules(u + ("[" + r2), Rules[15..])
  {
    PatternsOfRules10To15();
    LaughingTagsAbsent(u, r2);
    SkipRange(u + ("[" + r2), Rules, 11, 15);
  }

  /** Rule 15 then removes the "[Laughing]" annotation. */
  lemma LaughingFires(u: string, v: string)
    requires '[' !in u && '[' !in v
    ensures ApplyRules(u + "[Laughing]" + v, Rules[15..]) == ApplyRules(u + v, Rules[16..])
  {
    PatternsOfRules10To15();
    LaughingRemoved(u, v);
    Fire(u + "[Laughing]" + v, Rules, 15, u + v);
  }

  lemma LaughingRemoved(u: string, v: string)
    requires '[' !in u && '[' !in v
    ensures ReplaceAll(u + "[Laughing]" + v, "[Laughing]", "") == u + v
  {
    AbsentCharNotContained(v, "[Laughing]", '[');
    ReplaceSingle(u, v, "[Laughing]", "");
    assert u + "" + v == u + v;
  }

  /** A space followed by a word is copied through by a pass of line 37's double-space rule. */
  lemma SpaceWordPeel(w: string, t: string)
    requires |w| > 0 && ' ' !in w
    ensures ReplaceAll(" " + w + t, "  ", " ") == " " + w + ReplaceAll(t, "  ", " ")
  {
    var s := " " + w + t;
    assert s[1] == w[0];
    assert !("  " <= s);
    assert s[1..] == w + t;
    PeelPrefix(w, t, "  ", " ");
  }

  /** The first double-space pass closes the gap the "[Laughing]" annotation left. */
  lemma GapFirstPass(a: string, b: string)
    requires Word(a) && Word(b)
    ensures ReplaceAll(" " + a + " " + (" " + b), "  ", " ") == " " + a + " " + b
  {
    GapShape(a, b);
    DoubleSpaceShortened(b);
    SpaceWordPeel(a, "  " + b);
  }

  lemma GapShape(a: string, b: string)
    ensures " " + a + " " + (" " + b) == " " + a + ("  " + b)
  {
  }

  lemma DoubleSpaceShortened(b: string)
    requires Word(b)
    ensures ReplaceAll("  " + b, "  ", " ") == " " + b
  {
    AbsentCharNotContained(b, "  ", ' ');
    FrontReplaced("  ", " ", b);
  }

  /** The second pass finds nothing more to do. */
  lemma GapSecondPass(a: string, b: string)
    requires Word(a) && Word(b)
    ensures ReplaceAll(" " + a + " " + b, "  ", " ") == " " + a + " " + b
  {
    SpaceWordPeel(b, "");
    assert " " + b + "" == " " + b;
    SpaceWordPeel(a, " " + b);
    assert " " + a + " " + b == " " + a + (" " + b);
  }

  lemma GapCloses(a: string, b: string)
    requires Word(a) && Word(b)
    ensures ApplyRules(" " + a + " " + (" " + b), Rules[16..]) == " " + a + " " + b
  {
    GapFirstPass(a, b);
    GapSecondPass(a, b);
    BracketFreeRest(" " + a + " " + (" " + b), " " + a + " " + b, " " + a + " " + b, 16);
  }

  /** The text of the example, regrouped the way each stage above reads it. */
  lemma MusicShapes(a: string, b: string)
    ensures var u, v := " " + a + " ", " " + b;
      var r1, r2 := "music]" + u, "Laughing]" + v;
      && "[music] " + a + " [Laughing] " + b == "[" + r1 + ("[" + r2)
      && "[" + r1 + ("[" + r2) == "[music]" + (u + ("[" + r2))
      && u + ("[" + r2) == u + "[Laughing]" + v
  {
  }

  lemma MusicSingleSpaced(a: string, b: string)
    requires Word(a) && Word(b)
    ensures SingleSpaced("[music] " + a + " [Laughing] " + b)
  {
    var x := "[music]";
    assert SingleSpaced(x);
    SingleSpacedSnoc(x, a);
    SingleSpacedSnoc(x + " " + a, "[Laughing]");
    SingleSpacedSnoc(x + " " + a + " " + "[Laughing]", b);
    assert x + " " + a + " " + "[Laughing]" + " " + b == "[music] " + a + " [Laughing] " + b;
  }

  /** Line 32 leaves the example as it is. */
  lemma MusicFront(a: string, b: string)
    requires Word(a) && Word(b)
    ensures Clean("[music] " + a + " [Laughing] " + b) == ApplyRules("[music] " + a + " [Laughing] " + b, Rules[4..])
  {
    MusicSingleSpaced(a, b);
    MusicPlain(a, b);
    FrontRules("[music] " + a + " [Laughing] " + b);
  }

  lemma MusicPlain(a: string, b: string)
    requires Word(a) && Word(b)
    ensures var s := "[music] " + a + " [Laughing] " + b;
      '\n' !in s && NoBreakSpace !in s && ByteOrderMark !in s
  {
  }

  /** Rules 4 to 10 remove "[music]" and nothing else. */
  lemma MusicTagsStage(a: string, b: string)
    requires Word(a) && Word(b)
    ensures var u, r2 := " " + a + " ", "Laughing]" + (" " + b);
      ApplyRules("[music] " + a + " [Laughing] " + b, Rules[4..]) == ApplyRules(u + ("[" + r2), Rules[11..])
  {
    var u, v := " " + a + " ", " " + b;
    var r1, r2 := "music]" + u, "Laughing]" + v;
    MusicShapes(a, b);
    MusicTagsSkipped(r1, r2);
    MusicFires(u, r2);
  }

  /** Up to rule 10, only "[music]" is removed. */
  lemma MusicStage(a: string, b: string)
    requires Word(a) && Word(b)
    ensures var u, r2 := " " + a + " ", "Laughing]" + (" " + b);
      Clean("[music] " + a + " [Laughing] " + b) == ApplyRules(u + ("[" + r2), Rules[11..])
  {
    MusicFront(a, b);
    MusicTagsStage(a, b);
  }

  /** From rule 11 on, "[Laughing]" is removed and the gap closes. */
  lemma LaughingStage(a: string, b: string)
    requires Word(a) && Word(b)
    ensures var u, r2 := " " + a + " ", "Laughing]" + (" " + b);
      ApplyRules(u + ("[" + r2), Rules[11..]) == " " + a + " " + b
  {
    var u, v := " " + a + " ", " " + b;
    var r2 := "Laughing]" + v;
    MusicShapes(a, b);
    LaughingTagsSkipped(u, r2);
    LaughingFires(u, v);
    GapCloses(a, b);
  }

  /** The "[music]" and "[Laughing]" annotations are removed and the gap between the
      words closes, but the space after "[music]" stays at the front (load_db.py:34-37). */
  lemma MusicAndLaughing(a: string, b: string)
    requires Word(a) && Word(b)
    ensures Clean("[music] " + a + " [Laughing] " + b) == " " + a + " " + b
  {
    MusicStage(a, b);
    LaughingStage(a, b);
  }

  // ----- "[Title: a]" -----

  lemma PatternsOfRules16To21()
    ensures |Rules| == 31
    ensures Rules[16].pat == "[Typing sounds]" && Rules[17].pat == "[num]" && Rules[18] == Rule("[Title: ", "")
    ensures Rules[19].pat == "[title: " && Rules[20] == Rule("]", "") && Rules[21].pat == "[Closed captioning: "
  {
  }

  /** What follows the opening bracket of a title annotation: "Ti..." with no other opening bracket. */
  predicate TitleRest(rest: string)
  {
    |rest| >= 2 && rest[0] == 'T' && rest[1] == 'i' && '[' !in rest
  }

  /** A bracketed pattern that parts from "[Ti" at its second or third character. */
  predicate PartsFromTi(pat: string)
  {
    |pat| >= 3 && pat[0] == '[' && (pat[1] != 'T' || pat[2] != 'i')
  }

  /** Rules `i` to `k - 1`, whose patterns all part from "[Ti", find nothing in a
      text that starts "[Ti" and has no other opening bracket. */
  lemma TagsAbsentAfterTi(rest: string, rules: seq<Rule>, i: nat, k: nat)
    requires TitleRest(rest) && i <= k <= |rules|
    requires forall j :: i <= j < k ==> PartsFromTi(rules[j].pat)
    ensures forall j :: i <= j < k ==> !Contains("[" + rest, rules[j].pat)
  {
    forall j | i <= j < k
      ensures !Contains("[" + rest, rules[j].pat)
    {
      var pat := rules[j].pat;
      assert [pat[0]] + rest == "[" + rest;
      if pat[1] != 'T' {
        OneTagAbsent(rest, pat, 1);
      } else {
        OneTagAbsent(rest, pat, 2);
      }
    }
  }

  lemma TitleTagsSkipped4To11(rest: string)
    requires TitleRest(rest)
    ensures ApplyRules("[" + rest, Rules[4..]) == ApplyRules("[" + rest, Rules[12..])
  {
    TitleTagsSkipped4To7(rest);
    TitleTagsSkipped8To11(rest);
  }

  lemma TitleTagsSkipped4To7(rest: string)
    requires TitleRest(rest)
    ensures ApplyRules("[" + rest, Rules[4..]) == ApplyRules("[" + rest, Rules[8..])
  {
    PatternsOfRules4To9();
    TagsAbsentAfterTi(rest, Rules, 4, 8);
    SkipRange("[" + rest, Rules, 4, 8);
  }

  lemma TitleTagsSkipped8To11(rest: string)
    requires TitleRest(rest)
    ensures ApplyRules("[" + rest, Rules[8..]) == ApplyRules("[" + rest, Rules[12..])
  {
    PatternsOfRules4To9();
    PatternsOfRules10To15();
    TagsAbsentAfterTi(rest, Rules, 8, 12);
    SkipRange("[" + rest, Rules, 8, 12);
  }

  lemma TitleTagsSkipped12To17(rest: string)
    requires TitleRest(rest)
    ensures ApplyRules("[" + rest, Rules[12..]) == ApplyRules("[" + rest, Rules[18..])
  {
    TitleTagsSkipped12To14(rest);
    TitleTagsSkipped15To17(rest);
  }

  lemma TitleTagsSkipped12To14(rest: string)
    requires TitleRest(rest)
    ensures ApplyRules("[" + rest, Rules[12..]) == ApplyRules("[" + rest, Rules[15..])
  {
    PatternsOfRules10To15();
    TagsAbsentAfterTi(rest, Rules, 12, 15);
    SkipRange("[" + rest, Rules, 12, 15);
  }

  lemma TitleTagsSkipped15To17(rest: string)
    requires TitleRest(rest)
    ensures ApplyRules("[" + rest, Rules[15..]) == ApplyRules("[" + rest, Rules[18..])
  {
    PatternsOfRules10To15();
    PatternsOfRules16To21();
    TagsAbsentAfterTi(rest, Rules, 15, 18);
    SkipRange("[" + rest, Rules, 15, 18);
  }

  /** Rule 18 removes the opening "[Title: " and rule 19 finds nothing. */
  lemma TitleOpenerFires(a: string)
    requires '[' !in a
    ensures ApplyRules("[Title: " + (a + "]"), Rules[18..]) == ApplyRules(a + "]", Rules[20..])
  {
    PatternsOfRules16To21();
    TitleOpenerRemoved(a);
    Fire("[Title: " + (a + "]"), Rules, 18, a + "]");
    AbsentCharNotContained(a + "]", "[title: ", '[');
    SkipRange(a + "]", Rules, 19, 20);
  }

  lemma TitleOpenerRemoved(a: string)
    requires '[' !in a
    ensures ReplaceAll("[Title: " + (a + "]"), "[Title: ", "") == a + "]"
  {
    AbsentCharNotContained(a + "]", "[Title: ", '[');
    FrontReplaced("[Title: ", "", a + "]");
    assert "" + (a + "]") == a + "]";
  }

  /** Rule 20 removes the closing bracket, and the word goes through the rest unchanged. */
  lemma TitleCloserFires(a: string)
    requires Word(a)
    ensures ApplyRules(a + "]", Rules[20..]) == a
  {
    PatternsOfRules16To21();
    CloserRemoved(a);
    Fire(a + "]", Rules, 20, a);
    WordKept(a);
    BracketFreeRest(a, a, a, 21);
  }

  lemma CloserRemoved(a: string)
    requires Word(a)
    ensures ReplaceAll(a + "]", "]", "") == a
  {
    ReplaceSingle(a, [], "]", "");
    assert a + "]" + [] == a + "]" && a + "" + [] == a;
  }

  /** A word has no double space for line 37 to shorten. */
  lemma WordKept(a: string)
    requires Word(a)
    ensures ReplaceAll(a, "  ", " ") == a
  {
    AbsentCharNotContained(a, "  ", ' ');
    ReplaceAllAbsent(a, "  ", " ");
  }

  lemma TitleSingleSpaced(a: string)
    requires Word(a)
    ensures SingleSpaced("[Title: " + a + "]")
  {
    assert SingleSpaced("[Title: ");
    SingleSpacedConcat("[Title: ", a);
    SingleSpacedConcat("[Title: " + a, "]");
  }

  lemma TitleFront(a: string)
    requires Word(a)
    ensures Clean("[Title: " + a + "]") == ApplyRules("[Title: " + a + "]", Rules[4..])
  {
    TitleSingleSpaced(a);
    FrontRules("[Title: " + a + "]");
  }

  lemma TitleTagsSkipped(a: string)
    requires Word(a)
    ensures ApplyRules("[Title: " + a + "]", Rules[4..]) == ApplyRules("[Title: " + a + "]", Rules[18..])
  {
    var rest := "Title: " + a + "]";
    assert "[Title: " + a + "]" == "[" + rest;
    TitleTagsSkipped4To11(rest);
    TitleTagsSkipped12To17(rest);
  }

  lemma TitleOpens(a: string)
    requires Word(a)
    ensures ApplyRules("[Title: " + a + "]", Rules[18..]) == ApplyRules(a + "]", Rules[20..])
  {
    assert "[Title: " + a + "]" == "[Title: " + (a + "]");
    TitleOpenerFires(a);
  }

  /** A title annotation is unwrapped: its opening and its closing bracket are removed
      by separate rules, and the title itself is kept (load_db.py:36-37). */
  lemma TitleUnwrapped(a: string)
    requires Word(a)
    ensures Clean("[Title: " + a + "]") == a
  {
    TitleFront(a);
    TitleTagsSkipped(a);
    TitleOpens(a);
    TitleCloserFires(a);
  }

  // ----- "[Title]: a" -----

  lemma PatternsOfRules22To30()
    ensures |Rules| == 31
    ensures Rules[22].pat == "  " && Rules[23].pat == "  " && Rules[24].pat == "[APPLAUSE "
    ensures Rules[25].pat == "[MUSIC PLAYING " && Rules[26].pat == "[LAUGHTER " && Rules[27].pat == "[CHEERS "
    ensures Rules[28].pat == "[SCREAMS. " && Rules[29].pat == "[SNORE, " && Rules[30].pat == "[SLAMS TABLE "
  {
  }

  /** A bracket that closes "[Title" early hides the annotation from rules 18 and 19. */
  lemma BrokenTitleTagsAbsent(rest: string)
    requires TitleRest(rest) && |rest| >= 6 && rest[5] == ']'
    ensures !Contains("[" + rest, "[Title: ") && !Contains("[" + rest, "[title: ")
  {
    assert !Contains("[" + rest, "[Title: ") by { OneTagAbsent(rest, "[Title: ", 6); }
    assert !Contains("[" + rest, "[title: ") by { OneTagAbsent(rest, "[title: ", 1); }
  }

  lemma BrokenTitleSkipped(a: string)
    requires Word(a)
    ensures var s := "[" + ("Title]: " + a);
      ApplyRules(s, Rules[18..]) == ApplyRules(s, Rules[20..])
  {
    PatternsOfRules16To21();
    BrokenTitleTagsAbsent("Title]: " + a);
    SkipRange("[" + ("Title]: " + a), Rules, 18, 20);
  }

  /** Rule 18 finds nothing in "[Title]: a". */
  lemma TitleRuleMisses(a: string)
    requires Word(a)
    ensures ReplaceAll("[Title]: " + a, "[Title: ", "") == "[Title]: " + a
  {
    var rest := "Title]: " + a;
    assert "[Title]: " + a == "[" + rest;
    OneTagAbsent(rest, "[Title: ", 6);
    ReplaceAllAbsent("[Title]: " + a, "[Title: ", "");
  }

  /** Rule 20 removes the bracket, which puts "[Title: " back together. */
  lemma BracketRuleReassembles(a: string)
    requires Word(a)
    ensures ReplaceAll("[Title]: " + a, "]", "") == "[Title: " + a
  {
    assert "[Title]: " + a == "[Title" + "]" + (": " + a);
    AbsentCharNotContained(": " + a, "]", ']');
    ReplaceSingle("[Title", ": " + a, "]", "");
    assert "[Title" + "" + (": " + a) == "[Title: " + a;
  }

  /** Rule 18 removes the opener at the front of "[Title: a". */
  lemma TitleRuleRemoves(a: string)
    requires Word(a)
    ensures ReplaceAll("[Title: " + a, "[Title: ", "") == a
  {
    AbsentCharNotContained(a, "[Title: ", '[');
    FrontReplaced("[Title: ", "", a);
    assert "" + a == a;
  }

  /** Rule 20 then removes that bracket, which puts "[Title: " back together. */
  lemma BrokenTitleBracketFires(a: string)
    requires Word(a)
    ensures ApplyRules("[Title]: " + a, Rules[20..]) == ApplyRules("[Title: " + a, Rules[21..])
  {
    PatternsOfRules16To21();
    BracketRuleReassembles(a);
    Fire("[Title]: " + a, Rules, 20, "[Title: " + a);
  }

  lemma TitleTextSingleSpaced(a: string)
    requires Word(a)
    ensures SingleSpaced("[Title: " + a) && SingleSpaced("[Title]: " + a)
  {
    assert SingleSpaced("[Title: ");
    SingleSpacedConcat("[Title: ", a);
    assert SingleSpaced("[Title]: ");
    SingleSpacedConcat("[Title]: ", a);
  }

  lemma ClosedCaptionAbsent(a: string)
    requires Word(a)
    ensures !Contains("[Title: " + a, "[Closed captioning: ")
  {
    var rest := "Title: " + a;
    assert "[Title: " + a == "[" + rest;
    OneTagAbsent(rest, "[Closed captioning: ", 1);
  }

  /** The annotations of lines 38 and 39 are not in a text that starts "[Ti" and has no other opening bracket. */
  lemma LateTagsSkipped(rest: string)
    requires TitleRest(rest)
    ensures ApplyRules("[" + rest, Rules[24..]) == "[" + rest
  {
    PatternsOfRules22To30();
    TagsAbsentAfterTi(rest, Rules, 24, 31);
    SkipRange("[" + rest, Rules, 24, 31);
    assert Rules[31..] == [];
  }

  /** Rules 21 to 23 find nothing in the reassembled annotation. */
  lemma TitleTextKept21To23(a: string)
    requires Word(a)
    ensures ApplyRules("[Title: " + a, Rules[21..]) == ApplyRules("[Title: " + a, Rules[24..])
  {
    PatternsOfRules16To21();
    PatternsOfRules22To30();
    ClosedCaptionAbsent(a);
    TitleTextSingleSpaced(a);
    AbsentPairNotContained("[Title: " + a, "  ");
    SkipRange("[Title: " + a, Rules, 21, 24);
  }

  /** Nor do the annotations of lines 38 and 39. */
  lemma TitleTextKept24To30(a: string)
    requires Word(a)
    ensures ApplyRules("[Title: " + a, Rules[24..]) == "[Title: " + a
  {
    var rest := "Title: " + a;
    assert "[Title: " + a == "[" + rest;
    LateTagsSkipped(rest);
  }

  lemma BrokenTitleFront(a: string)
    requires Word(a)
    ensures Clean("[Title]: " + a) == ApplyRules("[Title]: " + a, Rules[4..])
  {
    TitleTextSingleSpaced(a);
    FrontRules("[Title]: " + a);
  }

  lemma BrokenTitleTagsSkipped(a: string)
    requires Word(a)
    ensures ApplyRules("[Title]: " + a, Rules[4..]) == ApplyRules("[Title]: " + a, Rules[20..])
  {
    var rest := "Title]: " + a;
    assert "[Title]: " + a == "[" + rest;
    TitleTagsSkipped4To11(rest);
    TitleTagsSkipped12To17(rest);
    BrokenTitleSkipped(a);
  }

  lemma OpenerLeft(a: string)
    ensures Contains("[Title: " + a, Rules[18].pat)
  {
    PatternsOfRules16To21();
    assert "[Title: " <= "[Title: " + a;
  }

  /** A title annotation whose bracket comes too early survives cleaning, and with
      it the opener that rule 18 was meant to remove: a single pass over the rules
      does not guarantee that no denylisted pattern is left (load_db.py:36-37). */
  lemma BrokenTitleSurvives(a: string)
    requires Word(a)
    ensures Clean("[Title]: " + a) == "[Title: " + a
    ensures Contains(Clean("[Title]: " + a), Rules[18].pat)
  {
    BrokenTitleFront(a);
    BrokenTitleTagsSkipped(a);
    BrokenTitleBracketFires(a);
    TitleTextKept21To23(a);
    TitleTextKept24To30(a);
    OpenerLeft(a);
  }

  /** In source order, rule 18 finds nothing and rule 20 then reassembles the opener. */
  lemma TitleThenBracket(a: string)
    requires Word(a)
    ensures ApplyRules("[Title]: " + a, [Rules[18], Rules[20]]) == "[Title: " + a
  {
    var rs := [Rules[18], Rules[20]];
    PatternsOfRules16To21();
    assert rs[0..] == rs && rs[2..] == [];
    TitleRuleMisses(a);
    Fire("[Title]: " + a, rs, 0, "[Title]: " + a);
    BracketRuleReassembles(a);
    Fire("[Title]: " + a, rs, 1, "[Title: " + a);
  }

  /** With the bracket rule first, the annotation is removed whole. */
  lemma BracketThenTitle(a: string)
    requires Word(a)
    ensures ApplyRules("[Title]: " + a, [Rules[20], Rules[18]]) == a
  {
    var rs := [Rules[20], Rules[18]];
    PatternsOfRules16To21();
    assert rs[0..] == rs && rs[2..] == [];
    BracketRuleReassembles(a);
    Fire("[Title]: " + a, rs, 0, "[Title: " + a);
    TitleRuleRemoves(a);
    Fire("[Title: " + a, rs, 1, a);
  }

  /** The order of the rules matters: rules 18 and 20 do not commute on such a text. */
  lemma TitleAndBracketDoNotCommute(a: string)
    requires Word(a)
    ensures ApplyRules("[Title]: " + a, [Rules[18], Rules[20]]) != ApplyRules("[Title]: " + a, [Rules[20], Rules[18]])
  {
    TitleThenBracket(a);
    BracketThenTitle(a);
    assert |"[Title: " + a| != |a|;
  }

  // ----- runs of spaces -----

  /** The length a run of `n` spaces is cut to by the three passes of line 32 and line 37,
      each of which turns `k` spaces into `ceil(k / 2)`. */
  function SpacesLeft(n: nat): nat
  {
    (((n + 1) / 2 + 1) / 2 + 1) / 2
  }

  /** A run of spaces is halved three times, and no more (load_db.py:32, 37). */
  lemma CleanSpaces(n: nat)
    ensures Clean(Spaces(n)) == Spaces(SpacesLeft(n))
  {
    var m1 := (n + 1) / 2;
    var m2 := (m1 + 1) / 2;
    SpacesFront(n);
    HalveSpaces(m1);
    HalveSpaces(m2);
    BracketFreeRest(Spaces(m1), Spaces(m2), Spaces(SpacesLeft(n)), 4);
  }

  /** Line 32 halves the run once. */
  lemma SpacesFront(n: nat)
    ensures Clean(Spaces(n)) == ApplyRules(Spaces((n + 1) / 2), Rules[4..])
  {
    var s := Spaces(n);
    assert Rules[0].pat == "\n" && Rules[1].pat == [NoBreakSpace] && Rules[2].pat == [ByteOrderMark];
    assert Rules[3] == Rule("  ", " ");
    AbsentCharNotContained(s, Rules[0].pat, '\n');
    AbsentCharNotContained(s, Rules[1].pat, NoBreakSpace);
    AbsentCharNotContained(s, Rules[2].pat, ByteOrderMark);
    assert Rules[0..] == Rules;
    SkipRange(s, Rules, 0, 3);
    HalveSpaces(n);
    Fire(s, Rules, 3, Spaces((n + 1) / 2));
  }

  /** So a run of spaces becomes a single space exactly when it is at most eight long. */
  lemma RunCollapsesIff(n: nat)
    requires n >= 1
    ensures Clean(Spaces(n)) == " " <==> n <= 8
  {
    CleanSpaces(n);
    assert Spaces(1) == " ";
    if Clean(Spaces(n)) == " " {
      assert |Spaces(SpacesLeft(n))| == 1;
    }
  }

  /** Cleaning is not idempotent: nine spaces become two, and cleaning again gives one. */
  lemma CleanNotIdempotent()
    ensures Clean(Spaces(9)) == "  " && Clean(Clean(Spaces(9))) == " "
  {
    CleanSpaces(9);
    CleanSpaces(2);
    assert Spaces(2) == "  " && Spaces(1) == " ";
  }

  // ----- two transcript lines -----

  lemma HelloWorld()
    ensures Clean("[music] Hello [Laughing] world") == " Hello world"
  {
    MusicAndLaughing("Hello", "world");
    HelloWorldText();
  }

  lemma HelloWorldText()
    ensures "[music] " + "Hello" + " [Laughing] " + "world" == "[music] Hello [Laughing] world"
    ensures " " + "Hello" + " " + "world" == " Hello world"
  {
  }

  lemma IntroTitle()
    ensures Clean("[Title: Intro]") == "Intro"
  {
    TitleUnwrapped("Intro");
    assert "[Title: " + "Intro" + "]" == "[Title: Intro]";
  }
}
