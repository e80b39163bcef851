/** The shaping steps of the ingestion script around the cleaning pass: reading
    the video ids (load_db.py:16-18), flattening the per-video chunk lists
    (load_db.py:28), cleaning every video chunk (load_db.py:31-39) and putting
    the slides in front of the videos (load_db.py:42). The loaders, the splitter
    and the vector store are library code and appear only as their results. */
module Ingest {
  import opened Cleaning
  import opened Words

  /** A LangChain document: its text and its metadata (source, title, ...). */
  datatype Document = Document(pageContent: string, metadata: map<string, string>)

  // ----- video ids (load_db.py:16-18) -----

  /** `s` consists of newline characters only. */
  predicate AllNewlines(s: string)
  {
    forall i :: 0 <= i < |s| ==> s[i] == '\n'
  }

  /** Neither end of `s` is a newline. */
  predicate Unframed(s: string)
  {
    |s| == 0 || (s[0] != '\n' && s[|s| - 1] != '\n')
  }

  /** How many newlines `s` starts with. */
  function LeadingNewlines(s: string): (k: nat)
    ensures k <= |s| && AllNewlines(s[..k])
    ensures k < |s| ==> s[k] != '\n'
    decreases |s|
  {
    if |s| > 0 && s[0] == '\n' then
      var k := 1 + LeadingNewlines(s[1..]);
      NewlinesExtendFront(s, k);
      k
    else 0
  }

  lemma NewlinesExtendFront(s: string, k: nat)
    requires 0 < k <= |s| && s[0] == '\n' && AllNewlines(s[1..][..k - 1])
    ensures AllNewlines(s[..k])
  {
    var run, tail := s[..k], s[1..][..k - 1];
    forall i | 1 <= i < k ensures run[i] == '\n' {
      assert run[i] == tail[i - 1];
    }
  }

  /** How many newlines `s` ends with. */
  function TrailingNewlines(s: string): (k: nat)
    ensures k <= |s| && AllNewlines(s[|s| - k..])
    ensures k < |s| ==> s[|s| - k - 1] != '\n'
    decreases |s|
  {
    if |s| > 0 && s[|s| - 1] == '\n' then
      var k := 1 + TrailingNewlines(s[..|s| - 1]);
      NewlinesExtendBack(s, k);
      k
    else 0
  }

  lemma NewlinesExtendBack(s: string, k: nat)
    requires 0 < k <= |s| && s[|s| - 1] == '\n'
    requires AllNewlines(s[..|s| - 1][|s| - 1 - (k - 1)..])
    ensures AllNewlines(s[|s| - k..])
  {
    var run, front := s[|s| - k..], s[..|s| - 1][|s| - k..];
    forall i | 0 <= i < k - 1 ensures run[i] == '\n' {
      assert run[i] == front[i];
    }
  }

  /** Python's `line.strip('\n')`: newlines removed from both ends, nothing else. */
  function StripNewlines(line: string): (id: string)
    ensures Unframed(id)
    ensures |id| <= |line|
  {
    var m := line[LeadingNewlines(line)..];
    m[..|m| - TrailingNewlines(m)]
  }

  /** The id sits in its line between a run of leading and a run of trailing newlines. */
  lemma StripNewlinesFraming(line: string)
    ensures var a, id := LeadingNewlines(line), StripNewlines(line);
            a + |id| <= |line| && line[a..a + |id|] == id
            && AllNewlines(line[..a]) && AllNewlines(line[a + |id|..])
  {
    var a := LeadingNewlines(line);
    var m := line[a..];
    var b := TrailingNewlines(m);
    SliceOfSuffix(line, a, |m| - b);
  }

  /** Cutting the suffix `s[a..]` at `k` cuts `s` at `a + k`. */
  lemma SliceOfSuffix(s: string, a: nat, k: nat)
    requires a + k <= |s|
    ensures s[a..a + k] == s[a..][..k] && s[a + k..] == s[a..][k..]
  {
  }

  lemma LeadingNewlinesOf(a: string, t: string)
    requires AllNewlines(a) && |t| > 0 && t[0] != '\n'
    ensures LeadingNewlines(a + t) == |a|
    decreases |a|
  {
    if |a| > 0 {
      assert (a + t)[1..] == a[1..] + t;
      LeadingNewlinesOf(a[1..], t);
    } else {
      assert a + t == t;
    }
  }

  lemma TrailingNewlinesOf(t: string, b: string)
    requires AllNewlines(b) && |t| > 0 && t[|t| - 1] != '\n'
    ensures TrailingNewlines(t + b) == |b|
    decreases |b|
  {
    if |b| > 0 {
      assert (t + b)[..|t + b| - 1] == t + b[..|b| - 1];
      TrailingNewlinesOf(t, b[..|b| - 1]);
    } else {
      assert t + b == t;
    }
  }

  lemma AllNewlinesStrip(s: string)
    requires AllNewlines(s)
    ensures StripNewlines(s) == ""
  {
    var a := LeadingNewlines(s);
    assert a == |s|;
  }

  /** The framing is unique: whatever sits between newline-only ends and has no
      newline at its own ends is what `strip('\n')` returns. */
  lemma StripNewlinesUnique(a: string, m: string, b: string)
    requires AllNewlines(a) && AllNewlines(b) && Unframed(m)
    ensures StripNewlines(a + m + b) == m
  {
    var line := a + m + b;
    if |m| == 0 {
      assert line == a + b;
      AllNewlinesStrip(line);
    } else {
      assert line == a + (m + b);
      LeadingNewlinesOf(a, m + b);
      assert line[|a|..] == m + b;
      TrailingNewlinesOf(m, b);
    }
  }

  /** What reading a file in text mode gives (load_db.py:17): Python's universal
      newlines turn every `"\r\n"` and every lone `"\r"` into `"\n"`. */
  function TextMode(raw: string): (text: string)
    ensures '\r' !in text && |text| <= |raw|
    decreases |raw|
  {
    if |raw| == 0 then ""
    else if raw[0] == '\r' then "\n" + TextMode(if |raw| > 1 && raw[1] == '\n' then raw[2..] else raw[1..])
    else [raw[0]] + TextMode(raw[1..])
  }

  /** A file without carriage returns reads as it is. */
  lemma {:induction false} TextModeUnchanged(raw: string)
    requires '\r' !in raw
    ensures TextMode(raw) == raw
    decreases |raw|
  {
    if |raw| > 0 {
      TextModeUnchanged(raw[1..]);
    }
  }

  /** Text without carriage returns is copied through, and the scan goes on after it. */
  lemma {:induction false} TextModeThrough(w: string, rest: string)
    requires '\r' !in w
    ensures TextMode(w + rest) == w + TextMode(rest)
    decreases |w|
  {
    if |w| == 0 {
      assert w + rest == rest;
    } else {
      assert (w + rest)[1..] == w[1..] + rest;
      TextModeThrough(w[1..], rest);
    }
  }

  /** A Windows line end reads as one newline. */
  lemma TextModeCrlf(w: string, rest: string)
    requires '\r' !in w
    ensures TextMode(w + "\r\n" + rest) == w + "\n" + TextMode(rest)
  {
    TextModeThrough(w, "\r\n" + rest);
    assert w + "\r\n" + rest == w + ("\r\n" + rest);
    assert ("\r\n" + rest)[2..] == rest;
  }

  /** A lone carriage return, not followed by a newline, reads as a newline too. */
  lemma TextModeLoneCr(w: string, rest: string)
    requires '\r' !in w && (|rest| == 0 || rest[0] != '\n')
    ensures TextMode(w + "\r" + rest) == w + "\n" + TextMode(rest)
  {
    TextModeThrough(w, "\r" + rest);
    LoneCrFront(rest);
    ConcatAssoc(w, "\r", rest);
    ConcatAssoc(w, "\n", TextMode(rest));
  }

  lemma LoneCrFront(rest: string)
    requires |rest| == 0 || rest[0] != '\n'
    ensures TextMode("\r" + rest) == "\n" + TextMode(rest)
  {
    var u := "\r" + rest;
    assert u[0] == '\r' && u[1..] == rest;
    assert |u| > 1 ==> u[1] == rest[0];
  }

  /** Python's `readlines()` on text already read in text mode: the lines in order,
      each keeping its newline; the last one has none when the text does not end
      in a newline. */
  function ReadLines(text: string): (lines: seq<string>)
    ensures forall j :: 0 <= j < |lines| ==> |lines[j]| > 0
    decreases |text|
  {
    if |text| == 0 then []
    else
      var k := LineLength(text);
      [text[..k]] + ReadLines(text[k..])
  }

  /** The length of the first line of a non-empty text, its newline included. */
  function LineLength(text: string): (k: nat)
    requires |text| > 0
    ensures 0 < k <= |text|
    ensures forall i :: 0 <= i < k - 1 ==> text[i] != '\n'
    ensures text[k - 1] == '\n' || k == |text|
    decreases |text|
  {
    if text[0] == '\n' || |text| == 1 then 1 else 1 + LineLength(text[1..])
  }

  /** Reading lines loses nothing: the lines make up the whole text. */
  lemma {:induction false} ReadLinesConcat(text: string)
    ensures Concat(ReadLines(text)) == text
    decreases |text|
  {
    if |text| > 0 {
      var k := LineLength(text);
      ReadLinesConcat(text[k..]);
      assert ([text[..k]] + ReadLines(text[k..]))[1..] == ReadLines(text[k..]);
      assert text == text[..k] + text[k..];
    }
  }

  /** Each line holds a newline only at its end, and only the last line may lack one. */
  lemma {:induction false} ReadLinesShape(text: string)
    ensures forall j, i :: 0 <= j < |ReadLines(text)| && 0 <= i < |ReadLines(text)[j]| - 1 ==> ReadLines(text)[j][i] != '\n'
    ensures forall j :: 0 <= j < |ReadLines(text)| - 1 ==> ReadLines(text)[j][|ReadLines(text)[j]| - 1] == '\n'
    decreases |text|
  {
    if |text| > 0 {
      var k := LineLength(text);
      ReadLinesShape(text[k..]);
      var lines, rest := ReadLines(text), ReadLines(text[k..]);
      assert lines == [text[..k]] + rest;
      forall j, i | 0 <= j < |lines| && 0 <= i < |lines[j]| - 1
        ensures lines[j][i] != '\n'
      {
        if j > 0 {
          assert lines[j] == rest[j - 1];
        }
      }
      forall j | 0 <= j < |lines| - 1
        ensures lines[j][|lines[j]| - 1] == '\n'
      {
        if j > 0 {
          assert lines[j] == rest[j - 1];
        }
      }
    }
  }

  /** `[id.strip('\n') for id in file.readlines()]` (load_db.py:17-18), on the
      file's text as stored. */
  function VideoIds(idFile: string): (ids: seq<string>)
    ensures |ids| == |ReadLines(TextMode(idFile))|
    ensures forall j :: 0 <= j < |ids| ==> ids[j] == StripNewlines(ReadLines(TextMode(idFile))[j])
  {
    var lines := ReadLines(TextMode(idFile));
    seq(|lines|, j requires 0 <= j < |lines| => StripNewlines(lines[j]))
  }

  /** Every id is its line without the newline that ends it, if any: spaces
      survive, a blank line gives an empty id, and no carriage return is left,
      whatever line ends the file uses. */
  lemma VideoIdOfLine(idFile: string, j: nat)
    requires j < |ReadLines(TextMode(idFile))|
    ensures var line := ReadLines(TextMode(idFile))[j];
            VideoIds(idFile)[j] == if line[|line| - 1] == '\n' then line[..|line| - 1] else line
    ensures '\r' !in VideoIds(idFile)[j]
  {
    var text := TextMode(idFile);
    ReadLinesShape(text);
    ReadLinesKeepOut(text, '\r');
    var line := ReadLines(text)[j];
    assert forall i :: 0 <= i < |line| - 1 ==> line[i] != '\n';
    StripLineEnd(line);
  }

  /** A character absent from the text is absent from every line. */
  lemma {:induction false} ReadLinesKeepOut(text: string, c: char)
    requires c !in text
    ensures forall j :: 0 <= j < |ReadLines(text)| ==> c !in ReadLines(text)[j]
    decreases |text|
  {
    if |text| > 0 {
      var k := LineLength(text);
      ReadLinesKeepOut(text[k..], c);
      var lines, rest := ReadLines(text), ReadLines(text[k..]);
      assert lines == [text[..k]] + rest;
      forall j | 0 <= j < |lines| ensures c !in lines[j] {
        if j > 0 {
          assert lines[j] == rest[j - 1];
        }
      }
    }
  }

  /** The first line of a text that has a newline ends at that newline. */
  lemma {:induction false} LineLengthOf(w: string, rest: string)
    requires '\n' !in w
    ensures LineLength(w + "\n" + rest) == |w| + 1
    decreases |w|
  {
    if |w| > 0 {
      assert (w + "\n" + rest)[1..] == w[1..] + "\n" + rest;
      LineLengthOf(w[1..], rest);
    }
  }

  /** An id file written with Windows line ends gives ids without carriage returns. */
  lemma CrlfFirstId(w: string, rest: string)
    requires '\r' !in w && '\n' !in w
    ensures |VideoIds(w + "\r\n" + rest)| > 0 && VideoIds(w + "\r\n" + rest)[0] == w
  {
    TextModeCrlf(w, rest);
    var text := w + "\n" + TextMode(rest);
    LineLengthOf(w, TextMode(rest));
    assert text[..|w| + 1] == w + "\n";
    StripLineEnd(w + "\n");
    assert (w + "\n")[..|w|] == w;
  }

  /** A line whose only newline, if any, is its last character loses just that newline. */
  lemma StripLineEnd(line: string)
    requires |line| > 0
    requires forall i :: 0 <= i < |line| - 1 ==> line[i] != '\n'
    ensures StripNewlines(line) == if line[|line| - 1] == '\n' then line[..|line| - 1] else line
  {
    if line[|line| - 1] == '\n' {
      var m := line[..|line| - 1];
      assert line == "" + m + "\n";
      if |m| > 0 {
        assert m[0] == line[0] && m[|m| - 1] == line[|line| - 2];
      }
      StripNewlinesUnique("", m, "\n");
    } else {
      assert line == "" + line + "";
      StripNewlinesUnique("", line, "");
    }
  }

  // ----- flattening, cleaning, combining (load_db.py:28, 31-39, 42) -----

  /** `list(chain.from_iterable(chunks))`: the per-video lists laid end to end. */
  function Flatten(chunks: seq<seq<Document>>): seq<Document>
  {
    if |chunks| == 0 then [] else chunks[0] + Flatten(chunks[1..])
  }

  /** The number of documents over all videos. */
  function TotalLength(chunks: seq<seq<Document>>): nat
  {
    if |chunks| == 0 then 0 else |chunks[0]| + TotalLength(chunks[1..])
  }

  /** Flattening the lists of two groups of videos is flattening each and joining. */
  lemma {:induction false} FlattenAppend(a: seq<seq<Document>>, b: seq<seq<Document>>)
    ensures Flatten(a + b) == Flatten(a) + Flatten(b)
    decreases |a|
  {
    if |a| == 0 {
      assert a + b == b;
    } else {
      assert (a + b)[1..] == a[1..] + b;
      FlattenAppend(a[1..], b);
    }
  }

  /** Flattening keeps every document: the length is the sum of the list lengths. */
  lemma {:induction false} FlattenLength(chunks: seq<seq<Document>>)
    ensures |Flatten(chunks)| == TotalLength(chunks)
  {
    if |chunks| > 0 {
      FlattenLength(chunks[1..]);
    }
  }

  /** The chunks of the video at position `v` sit, in loader order, right after
      those of the videos before it. */
  lemma FlattenPosition(chunks: seq<seq<Document>>, v: nat, i: nat)
    requires v < |chunks| && i < |chunks[v]|
    ensures TotalLength(chunks[..v]) + i < |Flatten(chunks)|
    ensures Flatten(chunks)[TotalLength(chunks[..v]) + i] == chunks[v][i]
  {
    assert chunks == chunks[..v] + [chunks[v]] + chunks[v + 1..];
    FlattenAppend(chunks[..v] + [chunks[v]], chunks[v + 1..]);
    FlattenAppend(chunks[..v], [chunks[v]]);
    FlattenLength(chunks[..v]);
    assert Flatten([chunks[v]]) == chunks[v] + Flatten([]);
  }

  /** The cleaning loop (load_db.py:31-39): only `page_content` is rewritten. */
  function CleanVideos(docs: seq<Document>): (r: seq<Document>)
    ensures |r| == |docs|
    ensures forall i :: 0 <= i < |r| ==> r[i].metadata == docs[i].metadata
    ensures forall i :: 0 <= i < |r| ==> r[i].pageContent == Clean(docs[i].pageContent)
  {
    seq(|docs|, i requires 0 <= i < |docs| => docs[i].(pageContent := Clean(docs[i].pageContent)))
  }

  /** The documents handed to the vector store (load_db.py:28-42): the slides as
      loaded, then every video chunk, cleaned, in loader order. */
  function Corpus(slides: seq<Document>, chunks: seq<seq<Document>>): seq<Document>
  {
    slides + CleanVideos(Flatten(chunks))
  }

  /** The corpus holds every slide and every chunk, once. */
  lemma CorpusLength(slides: seq<Document>, chunks: seq<seq<Document>>)
    ensures |Corpus(slides, chunks)| == |slides| + TotalLength(chunks)
  {
    FlattenLength(chunks);
  }

  /** The slides come first and are never cleaned. */
  lemma CorpusSlides(slides: seq<Document>, chunks: seq<seq<Document>>)
    ensures Corpus(slides, chunks)[..|slides|] == slides
  {
  }

  /** Chunk `i` of video `v` sits after the slides and the chunks of earlier
      videos, with its metadata kept and its text cleaned. */
  lemma CorpusVideoChunk(slides: seq<Document>, chunks: seq<seq<Document>>, v: nat, i: nat)
    requires v < |chunks| && i < |chunks[v]|
    ensures var p := |slides| + TotalLength(chunks[..v]) + i;
            p < |Corpus(slides, chunks)|
            && Corpus(slides, chunks)[p].metadata == chunks[v][i].metadata
            && Corpus(slides, chunks)[p].pageContent == Clean(chunks[v][i].pageContent)
  {
    FlattenPosition(chunks, v, i);
  }

  /** The loading pipeline with the loaders as a parameter: `load(id)` stands for
      `YoutubeLoader(id).load_and_split(text_splitter)` (load_db.py:21-25). */
  function BuildCorpus(slides: seq<Document>, idFile: string, load: string -> seq<Document>): seq<Document>
  {
    var ids := VideoIds(idFile);
    Corpus(slides, seq(|ids|, j requires 0 <= j < |ids| => load(ids[j])))
  }

  /** One loader call per line of the id file, and every resulting chunk in the corpus. */
  lemma BuildCorpusLength(slides: seq<Document>, idFile: string, load: string -> seq<Document>)
    ensures var ids := VideoIds(idFile);
            |BuildCorpus(slides, idFile, load)|
              == |slides| + TotalLength(seq(|ids|, j requires 0 <= j < |ids| => load(ids[j])))
  {
    var ids := VideoIds(idFile);
    CorpusLength(slides, seq(|ids|, j requires 0 <= j < |ids| => load(ids[j])));
  }
}
