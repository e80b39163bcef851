# Codee-A: transcript cleaning and chat session, modelled in Dafny

Codee-A is a course chatbot for Computer Science Principles. Around the
language-model and vector-store libraries it uses, it has two small pieces of
its own logic, and this project models both.

- **Ingestion** (`load_db.py`). The video-id file is read line by line, and each
  line is stripped of newlines at both ends. The file is read in text mode, so
  Windows and old Mac line ends arrive as plain newlines. The transcript chunks of every
  video are flattened into one list. Every chunk's text goes through a fixed
  chain of 31 literal `str.replace` calls, and the slide documents are put in
  front of the cleaned chunks.
- **The chat page** (`app.py`) without Streamlit. It keeps a session with a
  message history that starts with the assistant's greeting, plus a list of
  prompt ids. A submitted query is guarded by the API-key and participant
  checks. An accepted query appends a user/assistant pair. The answer is shown
  as its whitespace-split words, each followed by one space. While the history
  is drawn, each assistant message at position `n > 1` gets a feedback block
  with the key `feedback_{n div 2}`. The block takes its prompt id from slot
  `n div 2 - 1`, and its four widgets are keyed `q1-<count>` to `q4-<count>`.

Modules:

- `Replace` holds Python's `str.replace` as a left-to-right, non-overlapping scan.
- `Cleaning` holds the rule table and `Clean`.
- `CleaningExamples` holds what cleaning does to families of texts built from arbitrary words.
- `Ingest` covers video ids, flattening and the corpus.
- `Decimal` is `str()` of a natural number.
- `Words` covers `split()` and the displayed answer.
- `Session` is the chat logic of one run.
- `Feedback` draws the feedback blocks.
- `Page` strings runs together: each run draws the history first and reaches the chat logic only if that drawing completes.

Several values come from outside the model and are parameters:

- the secret key;
- the participant id;
- the query;
- what the chain call gives back: its answer, or an exception that nothing catches;
- the id under which a prompt is logged;
- the video loader.

## Model

| member | source | states |
|---|---|---|
| Replace.ReplaceAll | load_db.py:32-39 | `str.replace`: a left-to-right scan that replaces every non-overlapping occurrence and never rescans a replacement; its meaning is pinned down by the `Replace` lemmas below |
| Replace.ReplaceAllLength | load_db.py:32-39 | every replaced occurrence changes the length of the text by the replacement's length minus the pattern's |
| Replace.OccurrencesPositiveIff | load_db.py:32-39 | the scan replaces something exactly when the pattern occurs somewhere in the text |
| Replace.ReplaceAllMonotone | load_db.py:32-39 | a replacement no longer than its pattern never lengthens the text; one no shorter never shortens it |
| Replace.ReplaceAllChars | load_db.py:32-39 | every character of the result comes from the text or from the replacement |
| Replace.ReplaceAllAbsent | load_db.py:32-39 | a replace whose pattern does not occur is the identity |
| Replace.ReplaceAllRemovesChar | load_db.py:32 | replacing a one-character pattern by text without that character leaves none of it |
| Replace.FixedPointIff | load_db.py:32-39 | a replace leaves the text unchanged exactly when the pattern does not occur or is replaced by itself |
| Replace.StrictlyShorter | load_db.py:32-39 | replacing an occurring pattern by something shorter strictly shortens the text |
| Replace.ContainsIffSomePosition | load_db.py:32-39 | "occurs in" means: starts at some position of the text |
| Replace.PeelPrefix | load_db.py:32-39 | text that cannot start a match is copied through unchanged, and the scan goes on after it |
| Replace.ReplaceSingle | load_db.py:32-39 | a lone occurrence is replaced and everything around it is kept |
| Replace.HalveSpaces | load_db.py:32 | one `"  "` to `" "` pass turns a run of n spaces into ceil(n/2) spaces, not into one |
| Cleaning.ApplyRules | load_db.py:32-39 | a chain of replaces applied one after the other, each to the result of the one before |
| Cleaning.ApplyRulesNonLengthening | load_db.py:32-39 | a chain of replaces that never replace by something longer never lengthens the text |
| Cleaning.ApplyRulesUnchanged | load_db.py:32-39 | a chain of replaces none of whose patterns occurs is the identity |
| Cleaning.ApplyRulesKeepsOut | load_db.py:32-39 | a character absent from the text and from every replacement is absent from the result |
| Cleaning.ApplyRulesEliminates | load_db.py:32-39 | a character removed by some step, and put back by no later step, is absent from the result |
| Cleaning.ShrinkingFixedPointIff | load_db.py:33-39 | a chain of strictly shrinking replaces leaves the text unchanged exactly when none of its patterns occurs |
| Cleaning.RepsBlankOrSpace | load_db.py:32-39 | every one of the 31 replacements is `""` or `" "` |
| Cleaning.RulesNonLengthening | load_db.py:32-39 | no replacement of the chain is longer than its pattern |
| Cleaning.LaterPatternsBracketed | load_db.py:33-39 | every pattern after line 32, except the two `"  "` of line 37, holds a bracket |
| Cleaning.Clean | load_db.py:31-39 | the cleaned text is no longer than the original and holds no newline, no-break space, byte order mark or `]` |
| Cleaning.CleanRemoves | load_db.py:32-39 | newlines, no-break spaces and byte order marks go at line 32 and `]` at line 37, and no later step brings one back |
| Cleaning.CleanFixedPointIff | load_db.py:32-39 | cleaning leaves a text unchanged exactly when none of the 31 patterns occurs in it |
| Cleaning.BracketedPatternsAbsent | load_db.py:33-39 | a text without brackets holds none of the bracketed patterns |
| Cleaning.PlainTextUnchanged | load_db.py:32-39 | text with no newline, no-break space, byte order mark, bracket or double space comes out unchanged |
| CleaningExamples.MusicAndLaughing | load_db.py:34-37 | `"[music] a [Laughing] b"` cleans to `" a b"` for any words a and b, so the space after `[music]` stays at the front |
| CleaningExamples.HelloWorld | load_db.py:34-37 | `"[music] Hello [Laughing] world"` cleans to `" Hello world"` |
| CleaningExamples.TitleUnwrapped | load_db.py:36-37 | `"[Title: a]"` cleans to `a`: the opener goes at line 36 and the closing bracket at line 37 |
| CleaningExamples.IntroTitle | load_db.py:36-37 | `"[Title: Intro]"` cleans to `"Intro"` |
| CleaningExamples.BrokenTitleSurvives | load_db.py:36-37 | `"[Title]: a"` cleans to `"[Title: a"`: removing `]` puts the opener of line 36 back together after line 36 has run, so a denylisted pattern survives |
| CleaningExamples.TitleThenBracket | load_db.py:36-37 | in source order, the `"[Title: "` and `"]"` replaces turn `"[Title]: a"` into `"[Title: a"` |
| CleaningExamples.BracketThenTitle | load_db.py:36-37 | in the other order, the same two replaces turn it into `a` |
| CleaningExamples.TitleAndBracketDoNotCommute | load_db.py:36-37 | the order of the replaces matters: those two steps do not commute |
| CleaningExamples.CleanSpaces | load_db.py:32-37 | a run of n spaces is halved three times, to ceil(ceil(ceil(n/2)/2)/2) spaces |
| CleaningExamples.RunCollapsesIff | load_db.py:32-37 | a run of spaces becomes a single space exactly when it is at most eight long |
| CleaningExamples.CleanNotIdempotent | load_db.py:32-39 | nine spaces clean to two, and two clean to one, so cleaning twice differs from cleaning once |
| Ingest.TextMode | load_db.py:17 | text-mode reading turns every `"\r\n"` and every lone `"\r"` into `"\n"`, so no carriage return is left, and never lengthens the text |
| Ingest.TextModeUnchanged | load_db.py:17 | a file without carriage returns reads as it is stored |
| Ingest.TextModeCrlf | load_db.py:17 | a Windows line end reads as one newline |
| Ingest.TextModeLoneCr | load_db.py:17 | a carriage return not followed by a newline reads as a newline |
| Ingest.StripNewlines | load_db.py:18 | the id neither starts nor ends with a newline and is no longer than its line |
| Ingest.StripNewlinesFraming | load_db.py:18 | the id is the line with only newlines cut from its two ends |
| Ingest.StripNewlinesUnique | load_db.py:18 | newlines around a text without framing newlines strip to exactly that text |
| Ingest.StripLineEnd | load_db.py:18 | a line with no newline before its last character loses only a final newline to `strip` |
| Ingest.AllNewlinesStrip | load_db.py:18 | a line of newlines only gives the empty id |
| Ingest.ReadLines | load_db.py:18 | `readlines()`: the text cut after every newline, each line non-empty |
| Ingest.ReadLinesConcat | load_db.py:17-18 | the lines read make up the whole file, in order |
| Ingest.ReadLinesShape | load_db.py:17-18 | a line holds a newline only at its end, and only the last line may lack one |
| Ingest.VideoIds | load_db.py:17-18 | one id per line of the text as read in text mode, each the stripped line |
| Ingest.VideoIdOfLine | load_db.py:17-18 | each id is its line without the final newline; spaces survive and no carriage return is left |
| Ingest.ReadLinesKeepOut | load_db.py:18 | a character absent from the text is absent from every line |
| Ingest.CrlfFirstId | load_db.py:17-18 | an id file with Windows line ends gives the id without its carriage return |
| Ingest.Flatten | load_db.py:28 | `chain.from_iterable`: the per-video lists laid end to end |
| Ingest.FlattenAppend | load_db.py:28 | flattening distributes over concatenation of the per-video lists |
| Ingest.FlattenLength | load_db.py:28 | the flattened list is as long as all per-video lists together |
| Ingest.FlattenPosition | load_db.py:28 | chunk i of video v sits after all chunks of the earlier videos, in loader order |
| Ingest.CleanVideos | load_db.py:31-39 | cleaning keeps the number, order and metadata of the chunks and rewrites only their text |
| Ingest.Corpus | load_db.py:28-42 | the slides as loaded, then every video chunk, flattened and cleaned |
| Ingest.CorpusLength | load_db.py:28-42 | the corpus holds all slides and all chunks |
| Ingest.CorpusSlides | load_db.py:42 | the slides come first, uncleaned |
| Ingest.CorpusVideoChunk | load_db.py:28-42 | each chunk follows the slides and the earlier videos' chunks, with its metadata and its cleaned text |
| Ingest.BuildCorpus | load_db.py:16-42 | the corpus built from the id file and one loader call per id |
| Ingest.BuildCorpusLength | load_db.py:17-42 | the corpus built from a video-id file holds the slides plus every chunk of every listed video |
| Decimal.DigitValue | app.py:69 | digit characters and digit values correspond one to one |
| Decimal.NatToString | app.py:69 | `str()` of a number is a canonical decimal numeral |
| Decimal.ParseNatToString | app.py:69 | reading back `str(n)` gives n |
| Decimal.NatToStringParse | app.py:69 | every canonical numeral is `str()` of the number it denotes |
| Decimal.NatToStringInjective | app.py:69 | distinct numbers give distinct strings |
| Words.IsSpace | app.py:171 | the characters `split()` with no separator cuts at: Python's whitespace set, ASCII and Unicode; `SplitAtSpace` shows each of them separates words |
| Words.Split | app.py:171 | every piece `split()` returns is non-empty and free of whitespace |
| Words.SplitToken | app.py:171 | a text without whitespace is a single piece |
| Words.SplitAtSpace | app.py:171 | any whitespace character separates: splitting around it splits each side on its own, so the pieces are the maximal whitespace-free runs |
| Words.SplitKeepsNonSpace | app.py:171 | the pieces laid end to end are the answer with its whitespace removed |
| Words.SplitJoinSpaced | app.py:171-172 | splitting the re-joined pieces gives the pieces back |
| Words.Displayed | app.py:171-178 | the answer as shown: every piece followed by one space |
| Words.SplitDisplayed | app.py:171-178 | the displayed text splits into the same words as the answer |
| Words.DisplayedIdempotent | app.py:171-178 | re-joining a displayed text changes nothing |
| Words.DisplayedLength | app.py:171-178 | the displayed text has one character per non-space character of the answer, plus one space per word |
| Words.DisplayedEmptyIff | app.py:171-178 | nothing is displayed exactly when the answer is all whitespace |
| Words.JoinSpacedSnoc | app.py:172 | each step of the loop appends one word and one space |
| Words.StreamResponse | app.py:168-178 | the streaming loop ends with the displayed text, which splits into the answer's words |
| Session.Accepts | app.py:148-153 | a query passes the checks exactly when the key is non-empty and equal to the secret and the participant id is non-empty; `Submit` changes the history exactly then |
| Session.Rejection | app.py:148-153 | the key notice is shown exactly when the key is empty or wrong; the participant notice exactly when the key passes and the id is empty |
| Session.Exchange | app.py:156-181 | an accepted query appends the user message and then the assistant's answer, and keeps the earlier entries |
| Session.Submit | app.py:147-181 | the empty query does nothing; a refused one shows the notice of the first failing check; an accepted one is stored and, if the chain call returns, answered with the re-joined answer shown, and otherwise left unanswered; the prompt ids never change |
| Session.SubmitLogged | app.py:147-181 | the same history and outcome, and the prompt id is appended exactly when the query is answered |
| Session.Init | app.py:43-50 | the greeting from the assistant, and no prompt ids |
| Session.InitConsistent | app.py:43-50 | the first history is the greeting alone, from the assistant, with no prompt ids |
| Session.ExchangeConsistent | app.py:156-181 | appending an exchange keeps roles alternating, with the assistant at even positions |
| Session.SubmitConsistent | app.py:147-181 | every run keeps the earlier entries, and the history stays consistent exactly unless an accepted query's chain call raises |
| Session.FailureBreaksAlternation | app.py:156-181 | a query stored before a raising chain call is never answered: the next answer leaves two user messages side by side |
| Session.SubmitLoggedKeepsLogged | app.py:147-181 | with ids recorded, a run keeps one prompt id per answer and the history consistent exactly unless an accepted query's chain call raises |
| Session.KeyCheckedFirst | app.py:148-153 | when both checks fail, the key notice is shown |
| Session.WhitespaceQueryAnswered | app.py:147-181 | a non-empty query of whitespace only holds no word, yet is not filtered out: it is stored as typed and answered |
| Feedback.HasFeedback | app.py:68 | a message gets a block exactly when it is from the assistant and sits past position 1; `PositionsBelow` collects these positions |
| Feedback.Half | app.py:69-90 | `int(n / 2)`: the whole part of n / 2, so twice it is n or n less one |
| Feedback.FeedbackKey | app.py:69 | `f"feedback_{int(n / 2)}"`; in an alternating history (no chain call raised), distinct for distinct blocks by `ConsistentFeedbackKeysDistinct` |
| Feedback.PromptSlot | app.py:90 | `int(n / 2) - 1`; in an alternating history (no chain call raised), slot i for the i-th block by `ConsistentSlots`; otherwise a block can look up a later slot, as `Page.FailuresBreakLoggedRender` shows |
| Feedback.WidgetKeys | app.py:92-122 | the four widgets of one block, keyed `q1-` to `q4-` followed by the counter, never share a key |
| Feedback.MakeBlock | app.py:69-122 | a drawn block follows its position, files its ratings under one of the recorded prompt ids, and has four widgets with distinct keys |
| Feedback.WidgetKey | app.py:92-122 | `"q<q>-" + str(count)`; injective by `WidgetKeyInjective` |
| Feedback.PositionsBelow | app.py:62-68 | the positions with a block are exactly the assistant positions above 1, in increasing order |
| Feedback.BlocksSnoc | app.py:62-125 | each new block is drawn with the count of the blocks before it |
| Feedback.RenderFeedback | app.py:62-125 | the drawing completes exactly when every prompt-id lookup is in range; otherwise it stops at the first block whose lookup is not |
| Feedback.StopsAt | app.py:90 | a block whose slot is past the end of the prompt ids is where the drawing stops |
| Feedback.WidgetKeyInjective | app.py:92-122 | widget keys are equal only for the same question and the same count |
| Feedback.WidgetKeysDistinct | app.py:92-125 | all widget keys of one drawing are pairwise distinct |
| Feedback.ConsistentPositionsBelow | app.py:62-68 | in an alternating history, the blocks sit at positions 2, 4, 6, ... |
| Feedback.ConsistentSlots | app.py:69-90 | in an alternating history (no chain call raised), the i-th block has key `feedback_{i+1}` and prompt-id slot i |
| Feedback.ConsistentFeedbackKeysDistinct | app.py:69 | distinct blocks of an alternating history have distinct session keys |
| Feedback.ConsistentRenderIff | app.py:62-125 | for a consistent session, the drawing completes exactly when there is at least one prompt id per answer |
| Feedback.PositionsAfterQuery | app.py:62-68 | a stored query gets no block |
| Feedback.PositionsAfterExchange | app.py:62-68 | an answered query adds exactly one block, right after the answer |
| Feedback.FirstAnswerBreaksRender | app.py:49-90 | as written, after the first accepted query the next drawing looks up slot 0 of the empty prompt-id list |
| Page.Draws | app.py:62-90 | the drawing at the top of a run completes: by `RenderFeedback`'s contract, exactly when every block's prompt-id lookup is in range |
| Page.Step | app.py:62-181 | one run as written: it changes the state only when the drawing completes and a non-empty query passes the checks; the history only grows, by the query and at most its answer, and no prompt id is recorded |
| Page.StepLogged | app.py:62-181 | the same run with ids recorded: an id is appended exactly when the query is answered |
| Page.Run | app.py:62-181 | one run after another, each drawing the history and reaching the chat logic only if the drawing completes |
| Page.RunLogged | app.py:62-181 | the same runs with the prompt ids recorded |
| Page.RunNeverLogs | app.py:49-181 | as written, no run ever records a prompt id |
| Page.StalledStaysStalled | app.py:62-90 | once the drawing fails, every later run fails in the same place and changes nothing |
| Page.AsWrittenAnswersOnce | app.py:49-181 | as written, at most one answer ever gets a block, after which every run stops while drawing; with no raising chain call the history never grows past three messages |
| Page.RunLoggedKeepsLogged | app.py:62-181 | with ids recorded and every chain call returning, every reachable state is consistent, has one id per answer, and draws |
| Page.LoggedRunsRender | app.py:90-181 | with ids recorded, the drawing completes after any runs whose chain calls all return |
| Page.FailuresBreakLoggedRender | app.py:90-181 | even with ids recorded, two raising chain calls and then an answer put a block at position 4 that looks up slot 1, but only one id exists |

## Left out

- `utils.py` is not part of this model. It only configures the language model, the embeddings, the retriever and the conversation memory, whose behaviour lives in library code.
- The slide and transcript loaders and the text splitter (load_db.py:12-13, 21-25) are library code. The per-video chunk lists are an input, and `BuildCorpus` takes the loader as a function parameter.
- Embedding and persisting the corpus (load_db.py:45), and reading the id file from disk (load_db.py:16-17), are I/O. The file's stored text is an input; the newline translation of text mode is modelled.
- Streamlit is left out. That covers widget placement, `st.stop` (a run ends with the `Halted` outcome), the `st.secrets` lookup (the secret is a parameter), the 50 ms pacing and the typing cursor glyph.
- The Trubrics feedback calls, the `uuid4` session id and `@st.cache_resource` are external services. The prompt id of a logged query is a parameter.
- Feedback.RenderFeedback: the `None` written to `st.session_state[feedback_key]` (app.py:71-72) is not modelled. It has no effect on what is drawn.
- Feedback.Half: `int(n / 2)` uses float division. It is modelled as integer division, which is exact for every history length that fits in memory.
- The model does not claim that no denylisted pattern survives cleaning. A single pass can reassemble one, and `CleaningExamples.BrokenTitleSurvives` shows it.
- The model does not claim that cleaning fully collapses double spaces. `CleaningExamples.CleanSpaces` and `CleaningExamples.RunCollapsesIff` state exactly how far runs of spaces are shortened.
- CleaningExamples.MusicAndLaughing: the example is stated for words without spaces, newlines, no-break spaces, byte order marks or brackets. Texts outside that family are covered only by the general lemmas of `Cleaning`.
- CleaningExamples.HelloWorld: cleaning does not trim, so the space after `[music]` stays at the front and the result is `" Hello world"`.
- Page.LoggedRunsRender: stated only for runs whose chain calls all return. A raising call stores the query unanswered, and `Page.FailuresBreakLoggedRender` shows that recording ids does not repair the drawing then.
- Page.RunLoggedKeepsLogged: stated only for runs whose chain calls all return, for the same reason. `Session.SubmitConsistent` and `Session.SubmitLoggedKeepsLogged` state what a single raising call does.
- The kind of exception a raising chain call throws, and what Streamlit shows for it, are not modelled. The run just ends with the `Failed` outcome.

## Findings

| source | as written | input that shows it | evidently intended | confidence | as-written member | corrected member |
|---|---|---|---|---|---|---|
| app.py:49-90 | `prompt_ids` starts empty and nothing ever appends to it, yet each feedback block reads `prompt_ids[int(n / 2) - 1]` | a first accepted query with a correct key and participant id: the next run draws a block at position 2 and reads slot 0 of an empty list | each accepted query records the id under which its prompt was logged, so block i finds its id in slot i | not executed | Session.Submit, Feedback.FirstAnswerBreaksRender, Page.AsWrittenAnswersOnce | Session.SubmitLogged, Page.LoggedRunsRender |
