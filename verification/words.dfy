/** The displayed form of an assistant answer (app.py:168-178): Python's
    `response.split()` with no separator cuts the answer at runs of whitespace,
    and the page shows every piece followed by exactly one space. The stored
    history keeps the answer as it came (app.py:181). */
module Words {

  /** The characters Python's `str.isspace` accepts: ASCII whitespace, the
      information separators 0x1C-0x1F, NEL, the no-break space and the Unicode
      space separators, line and paragraph separators. */
  predicate IsSpace(c: char)
  {
    c == ' ' || ('\t' <= c <= '\r') || ('\U{001C}' <= c <= '\U{001F}')
    || c == '\U{0085}' || c == '\U{00A0}' || c == '\U{1680}'
    || ('\U{2000}' <= c <= '\U{200A}') || c == '\U{2028}' || c == '\U{2029}'
    || c == '\U{202F}' || c == '\U{205F}' || c == '\U{3000}'
  }

  /** A piece `split()` can produce: non-empty, without whitespace. */
  predicate Token(w: string)
  {
    |w| > 0 && forall i :: 0 <= i < |w| ==> !IsSpace(w[i])
  }

  /** The length of the whitespace-free run at the front of `s`. */
  function TokenLength(s: string): (k: nat)
    ensures k <= |s|
    ensures forall i :: 0 <= i < k ==> !IsSpace(s[i])
    ensures k < |s| ==> IsSpace(s[k])
    decreases |s|
  {
    if |s| == 0 || IsSpace(s[0]) then 0 else 1 + TokenLength(s[1..])
  }

  /** `s.split()`: the maximal whitespace-free runs of `s`, left to right. */
  function Split(s: string): (r: seq<string>)
    ensures forall j :: 0 <= j < |r| ==> Token(r[j])
    decreases |s|
  {
    if |s| == 0 then []
    else if IsSpace(s[0]) then Split(s[1..])
    else
      var k := TokenLength(s);
      [s[..k]] + Split(s[k..])
  }

  /** The pieces, each followed by one space, as the streaming loop builds them. */
  function JoinSpaced(ws: seq<string>): string
  {
    if |ws| == 0 then "" else ws[0] + " " + JoinSpaced(ws[1..])
  }

  /** The text shown for an answer once streaming is over (app.py:171-178). */
  function Displayed(response: string): string
  {
    JoinSpaced(Split(response))
  }

  /** The characters of `s` that are not whitespace, in order. */
  function NonSpace(s: string): string
  {
    if |s| == 0 then "" else (if IsSpace(s[0]) then "" else [s[0]]) + NonSpace(s[1..])
  }

  /** The pieces laid end to end. */
  function Concat(ws: seq<string>): string
  {
    if |ws| == 0 then "" else ws[0] + Concat(ws[1..])
  }

  lemma {:induction false} NonSpaceAppend(a: string, b: string)
    ensures NonSpace(a + b) == NonSpace(a) + NonSpace(b)
    decreases |a|
  {
    if |a| == 0 {
      assert a + b == b;
    } else {
      assert (a + b)[1..] == a[1..] + b;
      NonSpaceAppend(a[1..], b);
    }
  }

  lemma {:induction false} NonSpaceOfToken(w: string)
    requires forall i :: 0 <= i < |w| ==> !IsSpace(w[i])
    ensures NonSpace(w) == w
    decreases |w|
  {
    if |w| > 0 {
      NonSpaceOfToken(w[1..]);
    }
  }

  /** Splitting keeps every non-whitespace character, in order, and nothing else. */
  lemma {:induction false} SplitKeepsNonSpace(s: string)
    ensures Concat(Split(s)) == NonSpace(s)
    decreases |s|
  {
    if |s| == 0 {
    } else if IsSpace(s[0]) {
      SplitKeepsNonSpace(s[1..]);
    } else {
      var k := TokenLength(s);
      SplitKeepsNonSpace(s[k..]);
      assert s == s[..k] + s[k..];
      NonSpaceAppend(s[..k], s[k..]);
      NonSpaceOfToken(s[..k]);
      assert ([s[..k]] + Split(s[k..]))[1..] == Split(s[k..]);
    }
  }

  /** A token followed by whitespace is exactly the run `TokenLength` measures. */
  lemma {:induction false} TokenLengthOf(w: string, rest: string)
    requires forall i :: 0 <= i < |w| ==> !IsSpace(w[i])
    requires |rest| > 0 && IsSpace(rest[0])
    ensures TokenLength(w + rest) == |w|
    decreases |w|
  {
    if |w| > 0 {
      assert (w + rest)[1..] == w[1..] + rest;
      TokenLengthOf(w[1..], rest);
    } else {
      assert w + rest == rest;
    }
  }

  /** A run measured before its end is not changed by what follows the text. */
  lemma {:induction false} TokenLengthExtend(s: string, t: string)
    requires TokenLength(s) < |s|
    ensures TokenLength(s + t) == TokenLength(s)
    decreases |s|
  {
    if !IsSpace(s[0]) {
      assert (s + t)[1..] == s[1..] + t;
      TokenLengthExtend(s[1..], t);
    }
  }

  /** A whitespace-free text is one piece. */
  lemma SplitToken(w: string)
    requires Token(w)
    ensures Split(w) == [w]
  {
    var k := TokenLength(w);
    assert k == |w| && w[..k] == w && w[k..] == [];
  }

  /** Any whitespace character separates: nothing on its two sides is joined, so
      the pieces are the maximal whitespace-free runs. */
  lemma SplitAtSpace(a: string, c: char, b: string)
    requires IsSpace(c)
    ensures Split(a + [c] + b) == Split(a) + Split(b)
  {
    SplitBefore(a, [c] + b);
    SpaceThenRest(c, b);
    ConcatAssoc(a, [c], b);
  }

  lemma SpaceThenRest(c: char, b: string)
    requires IsSpace(c)
    ensures Split([c] + b) == Split(b)
  {
    assert ([c] + b)[1..] == b;
  }

  lemma ConcatAssoc(a: string, b: string, c: string)
    ensures a + b + c == a + (b + c)
  {
  }

  /** `SplitAtSpace` with the whitespace character at the front of `t`. */
  lemma {:induction false} SplitBefore(a: string, t: string)
    requires |t| > 0 && IsSpace(t[0])
    ensures Split(a + t) == Split(a) + Split(t)
    decreases |a|
  {
    if |a| == 0 {
      assert a + t == t;
    } else if IsSpace(a[0]) {
      SplitBefore(a[1..], t);
      SpaceStep(a, t);
    } else if TokenLength(a) < |a| {
      SplitBefore(a[TokenLength(a)..], t);
      RunStep(a, t);
    } else {
      SplitToken(a);
      TokenThenSpace(a, t);
    }
  }

  /** The step of `SplitBefore` past a leading whitespace character. */
  lemma SpaceStep(a: string, t: string)
    requires |a| > 0 && IsSpace(a[0])
    requires Split(a[1..] + t) == Split(a[1..]) + Split(t)
    ensures Split(a + t) == Split(a) + Split(t)
  {
    SpaceFirst(a, t);
  }

  /** The step of `SplitBefore` past a run that ends inside `a`. */
  lemma RunStep(a: string, t: string)
    requires |a| > 0 && !IsSpace(a[0]) && TokenLength(a) < |a|
    requires Split(a[TokenLength(a)..] + t) == Split(a[TokenLength(a)..]) + Split(t)
    ensures Split(a + t) == Split(a) + Split(t)
  {
    var k := TokenLength(a);
    RunFirst(a, t);
    assert [a[..k]] + (Split(a[k..]) + Split(t)) == [a[..k]] + Split(a[k..]) + Split(t);
  }

  /** Leading whitespace is skipped, whatever follows. */
  lemma SpaceFirst(a: string, t: string)
    requires |a| > 0 && IsSpace(a[0])
    ensures Split(a + t) == Split(a[1..] + t) && Split(a) == Split(a[1..])
  {
    assert (a + t)[1..] == a[1..] + t;
  }

  /** A run that ends inside `a` is the first piece of `a` and of anything `a` starts. */
  lemma RunFirst(a: string, t: string)
    requires |a| > 0 && !IsSpace(a[0]) && TokenLength(a) < |a|
    ensures var k := TokenLength(a);
            Split(a + t) == [a[..k]] + Split(a[k..] + t) && Split(a) == [a[..k]] + Split(a[k..])
  {
    var k := TokenLength(a);
    TokenLengthExtend(a, t);
    assert (a + t)[..k] == a[..k] && (a + t)[k..] == a[k..] + t;
  }

  /** A whitespace-free text followed by whitespace is the first piece. */
  lemma TokenThenSpace(w: string, t: string)
    requires Token(w) && |t| > 0 && IsSpace(t[0])
    ensures Split(w + t) == [w] + Split(t)
  {
    TokenLengthOf(w, t);
    assert (w + t)[..|w|] == w && (w + t)[|w|..] == t;
  }

  /** Splitting the displayed text gives back the pieces it was built from. */
  lemma {:induction false} SplitJoinSpaced(ws: seq<string>)
    requires forall j :: 0 <= j < |ws| ==> Token(ws[j])
    ensures Split(JoinSpaced(ws)) == ws
    decreases |ws|
  {
    if |ws| > 0 {
      var w, rest := ws[0], JoinSpaced(ws[1..]);
      var s := w + " " + rest;
      assert s == w + (" " + rest);
      TokenLengthOf(w, " " + rest);
      assert s[..|w|] == w;
      assert s[|w|..] == " " + rest;
      assert (" " + rest)[1..] == rest;
      SplitJoinSpaced(ws[1..]);
      assert [w] + ws[1..] == ws;
    }
  }

  /** Re-splitting the displayed text gives the same pieces as the answer itself. */
  lemma SplitDisplayed(response: string)
    ensures Split(Displayed(response)) == Split(response)
  {
    SplitJoinSpaced(Split(response));
  }

  /** Displaying is idempotent. */
  lemma DisplayedIdempotent(response: string)
    ensures Displayed(Displayed(response)) == Displayed(response)
  {
    SplitDisplayed(response);
  }

  lemma {:induction false} JoinSpacedLength(ws: seq<string>)
    ensures |JoinSpaced(ws)| == |Concat(ws)| + |ws|
  {
    if |ws| > 0 {
      JoinSpacedLength(ws[1..]);
    }
  }

  /** The displayed text has one character per non-whitespace character of the
      answer plus one trailing space per piece. */
  lemma DisplayedLength(response: string)
    ensures |Displayed(response)| == |NonSpace(response)| + |Split(response)|
  {
    JoinSpacedLength(Split(response));
    SplitKeepsNonSpace(response);
  }

  lemma {:induction false} NonSpaceEmptyIff(s: string)
    ensures NonSpace(s) == "" <==> forall i :: 0 <= i < |s| ==> IsSpace(s[i])
    decreases |s|
  {
    if |s| > 0 {
      NonSpaceEmptyIff(s[1..]);
      assert forall i :: 1 <= i < |s| ==> s[i] == s[1..][i - 1];
    }
  }

  /** Nothing is displayed exactly when the answer is all whitespace. */
  lemma DisplayedEmptyIff(response: string)
    ensures Displayed(response) == "" <==> forall i :: 0 <= i < |response| ==> IsSpace(response[i])
  {
    DisplayedLength(response);
    NonSpaceEmptyIff(response);
    var ws := Split(response);
    if |ws| > 0 {
      assert Concat(ws) == ws[0] + Concat(ws[1..]);
      assert |NonSpace(response)| > 0 by { SplitKeepsNonSpace(response); }
    }
  }

  lemma {:induction false} JoinSpacedSnoc(ws: seq<string>, w: string)
    ensures JoinSpaced(ws + [w]) == JoinSpaced(ws) + w + " "
    decreases |ws|
  {
    if |ws| == 0 {
      assert ws + [w] == [w];
    } else {
      assert (ws + [w])[1..] == ws[1..] + [w];
      JoinSpacedSnoc(ws[1..], w);
    }
  }

  /** The streaming loop (app.py:171-178): each piece and a space are appended in
      turn; the sleep and the cursor glyph only affect what is drawn meanwhile. */
  method StreamResponse(response: string) returns (full: string)
    ensures full == Displayed(response)
    ensures Split(full) == Split(response)
  {
    var chunks := Split(response);
    full := "";
    var i := 0;
    while i < |chunks|
      invariant 0 <= i <= |chunks|
      invariant full == JoinSpaced(chunks[..i])
    {
      JoinSpacedSnoc(chunks[..i], chunks[i]);
      assert chunks[..i + 1] == chunks[..i] + [chunks[i]];
      full := full + chunks[i] + " ";
      i := i + 1;
    }
    assert chunks[..i] == chunks;
    SplitDisplayed(response);
  }
}
