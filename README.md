# Note reader: summarizer and speech toggle

A Dafny model of the logic of the note reader's single React component
(`src/App.js`). It has two parts.

- **The extractive summarizer** (`summarizeNotes`). The notes are split on
  line feeds and blank lines are dropped. Each remaining paragraph is cut
  down to its first sentence with the pattern `/^.*?[.!?](?:\s|$)/` and
  trimmed. The first five entries are joined with single spaces, and `"..."`
  is appended when there were more than five. The model is a set of pure
  functions (`JsText` for the ECMAScript string primitives, `Summarizer` for
  the pipeline), with lemmas about them.
- **The component state and its events** (`NoteReader.App`). This class has
  the fields `notes`, `summary`, `speaking` and `summarizing`. The flag
  `hasSpeech` says whether the browser offers speech synthesis. A ghost log
  records the `Speak(text)` and `Cancel` requests sent to the synthesizer.
  The text box edit, the two read buttons, the summarize button and the
  synthesizer's end-of-utterance signal are methods that update these
  fields.

Modelling decisions:

- **Whitespace.** `trim()` and the regex class `\s` use one character set
  (`JsText.IsSpace`): the ECMAScript WhiteSpace characters (TAB, VT, FF,
  SPACE, NO-BREAK SPACE, the byte order mark and the Unicode "Zs"
  separators) plus the LineTerminator characters (LF, CR, U+2028, U+2029).
- **The regex is a hand-written scan.** `Summarizer.ScanFrom` tries the
  lazy `.*?` one character at a time. It stops at the first `.`, `!` or `?`
  that is followed by a space or by the end of the paragraph. It gives up
  when the `.` would have to consume a line terminator, because a regex `.`
  does not match those (`IsLineTerminator`). The match includes the space
  after the terminator, which the later `trim()` removes again.
- **String functions.** `split('\n')` gives `[""]` for the empty string.
  `join(' ')` of an empty list is `""` and of one element is that element.

## Model

| member | source | states |
|---|---|---|
| JsText.Trim | src/App.js:49 | `trim()` gives the empty string exactly when the text is blank; otherwise the result has no space at either end and is no longer than the input |
| JsText.TrimOfPadded | src/App.js:54 | trim characterised independently: blanks on both sides of a string with no space at its ends are removed, and nothing else is |
| JsText.TrimIdempotent | src/App.js:54 | trimming twice is the same as trimming once |
| JsText.TrimChars | src/App.js:54 | every character of a trimmed text comes from the original text |
| JsText.Split | src/App.js:49 | `split('\n')` yields at least one piece and no piece contains a line feed |
| JsText.JoinSplit | src/App.js:49 | joining the pieces with line feeds gives back the original notes, so splitting loses nothing |
| JsText.SplitJoin | src/App.js:49 | splitting pieces that were joined with line feeds gives back the pieces, when none of them contains a line feed |
| JsText.SplitAround | src/App.js:49 | the pieces of `a + "\n" + b` are the pieces of `a` followed by the pieces of `b` |
| JsText.JoinAvoids | src/App.js:59 | `join` adds no character beyond those of the elements and the separator |
| Summarizer.ScanFrom | src/App.js:53 | the lazy `^.*?[.!?](?:\s\|$)` scan returns the first position that has a terminator followed by a space or the end and that needs no line terminator crossed to reach it; it returns nothing exactly when no such position exists |
| Summarizer.SentenceMatch | src/App.js:53 | `match` succeeds exactly when the scan finds a sentence end at `k`; the matched text is then the whole paragraph when `k` is its last position, and otherwise the prefix through `k` plus the one whitespace character after it that `(?:\s\|$)` consumes |
| Summarizer.FirstSentenceMatched | src/App.js:52-55 | when the pattern matches, the entry is the trim of the shortest prefix that ends at the first reachable terminator followed by a space or the end, and the entry ends with that terminator |
| Summarizer.FirstSentenceUnmatched | src/App.js:53-54 | a paragraph with no reachable terminator followed by a space or the end contributes its trimmed text verbatim |
| Summarizer.FirstSentenceNoTerminator | src/App.js:53-54 | a paragraph without any `.`, `!` or `?` contributes its trimmed text verbatim |
| Summarizer.FirstSentenceLineBreakFirst | src/App.js:53-54 | a CR, U+2028 or U+2029 before the first sentence end makes the match fail, so the whole trimmed paragraph is used |
| Summarizer.FirstSentenceNotBlank | src/App.js:52-55 | the entry of a non-blank paragraph is never blank |
| Summarizer.NonBlank | src/App.js:49 | the filter keeps only non-blank lines and never adds one |
| Summarizer.Entries | src/App.js:52-55 | there is one entry per paragraph, and entry `i` is the first sentence of paragraph `i`, so the order is kept |
| Summarizer.ParagraphsEmptyIffBlank | src/App.js:49 | notes have no paragraph exactly when they are empty or made only of whitespace and line breaks |
| Summarizer.ParagraphsAround | src/App.js:49 | the paragraphs of two texts joined by a line feed are those of the first followed by those of the second |
| Summarizer.ParagraphShape | src/App.js:49 | every paragraph is non-blank, contains no line feed and is one of the split pieces |
| Summarizer.SummaryEmptyIffBlank | src/App.js:49-62 | the summary is empty exactly when the notes are blank, and a non-empty summary is never blank |
| Summarizer.SummaryShape | src/App.js:58-62 | with at most five paragraphs the summary is all entries joined by single spaces, with no "..." even if entries were cut; with more than five it is exactly the first five entries joined by single spaces followed directly by "..." |
| Summarizer.AssembleShape | src/App.js:58-62 | the same cap-and-ellipsis shape, stated for any list of entries |
| Summarizer.SummaryIsOneLine | src/App.js:49-59 | the summary never contains a line feed |
| Summarizer.SummaryIgnoresTrailingBlank | src/App.js:49 | adding blank lines after the notes leaves the summary unchanged |
| Summarizer.SummaryIgnoresLeadingBlank | src/App.js:49 | adding blank lines before the notes leaves the summary unchanged |
| Summarizer.SummaryIgnoresBeyondSixth | src/App.js:58-62 | once there are more than five paragraphs, anything appended after them leaves the summary unchanged |
| NoteReader.App.constructor | src/App.js:5-8 | the component starts with empty notes and summary, not speaking, not summarizing, and no requests sent |
| NoteReader.App.EditNotes | src/App.js:105 | the notes are replaced wholesale; the summary is not recomputed or cleared, and the speech state and log stay as they were |
| NoteReader.App.ReadAloud | src/App.js:20-40 | the body shared by both read buttons: with no synthesizer nothing changes; while speaking it sends exactly one `Cancel`, clears `speaking` and starts nothing; with blank text nothing changes; otherwise it sends one `Speak` of exactly the text and sets `speaking` |
| NoteReader.App.ReadNotes | src/App.js:20-41 | `ReadAloud` applied to the notes: a toggle that stops any utterance, or else starts one of exactly the notes if they are not blank |
| NoteReader.App.ReadSummary | src/App.js:73-94 | `ReadAloud` applied to the summary: it also stops an utterance of the notes, and otherwise starts one of exactly the summary if it is not blank |
| NoteReader.App.SummarizeNotes | src/App.js:43-71 | the summary is replaced by the summary of the current notes and `summarizing` ends false; the notes, `speaking` and the log are unchanged |
| NoteReader.App.UtteranceEnded | src/App.js:38 | the `onend` handler of either utterance (the notes one here, the identical summary one at src/App.js:91) clears `speaking` unconditionally and sends nothing |

`NoteReader.App.Valid` is the invariant that every method keeps. Between
events, `summarizing` is false. Without a synthesizer nothing is spoken or
sent. While `speaking` is true, the last request sent was a `Speak`. No
`Speak` request ever carries blank text. The methods `Session` and
`SilentSession` are clients: they use only these contracts to derive the
request log of a few button sequences.

## Left out

- Rendering (src/App.js:96-139) is left out: the markup, the button labels,
  the `disabled` attribute of the summarize button and the condition that
  shows the summary block. The summarize guard `!notes.trim() ||
  summarizing` (src/App.js:118) is not a precondition of `SummarizeNotes`.
  The handler itself works on blank notes, where it stores `""`, and
  `Valid` already gives `!summarizing`.
- The `alert` calls (src/App.js:22, 33, 75, 86) and `console.error`
  (src/App.js:67) are host side effects. In the model those paths simply
  leave the state unchanged.
- The `catch` branch (src/App.js:65-67) is left out. For a string `notes`
  the `try` body cannot throw, so the branch cannot be reached.
- The unmount cleanup effect (src/App.js:11-18) is React lifecycle code.
- The synthesizer itself is left out: audio, the timing of `onend`, and the
  utterance object. `onend` is the explicit event `UtteranceEnded`. The
  model does not cover a cancelled utterance whose late `onend` clears
  `speaking` while a newer utterance is playing.
- React batches the two `setSummarizing` calls of one handler
  (src/App.js:44, 70). The model assigns `true` and then `false` within the
  same method, so no observer ever sees the intermediate `true`.
- Characters: strings are sequences of Unicode scalar values, while
  JavaScript strings are UTF-16 code units. This does not matter here:
  every character the pattern and `trim()` test for is in the Basic
  Multilingual Plane, and a surrogate half is never a space, a terminator
  or a line terminator.
- PDF upload and text extraction, speech-rate selection and a theme toggle
  do not appear in `src/App.js`, so they are not part of this model.
- Facts about the code that the model keeps: (1) the summary read button has
  no `disabled` attribute, and while something is spoken it stops that
  utterance, like the notes button (src/App.js:79-83, 130-135); (2) the
  notes read button has no guard against empty notes, so blank notes reach
  the notice branch (src/App.js:32-35, 109-114); (3) no rate is passed to
  the utterance, so the synthesizer's default is used (src/App.js:37, 90).
