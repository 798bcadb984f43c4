# Code assistant chat clients: extractor, highlighter and streaming session

This project models the shared logic of three Tkinter chat clients that
talk to a local language model.

- `GUImemStrThread32b.py` is a single-window chat.
- `Canvas/14b_canvas_4.py` is a chat beside one highlighting code editor.
- `Canvas/14b_canvas_5.py` is a chat beside a notebook of editor tabs.

The model proves properties of that logic. It has three parts.

- **Code-block extractor.**
  - `extract_code_from_response` runs three fence patterns one after another with `re.finditer` under `re.DOTALL`. For each, it keeps the stripped, non-empty group 1.
  - The older `extract_code_blocks` runs one pattern whose `python` tag is optional.
  - `re.finditer` is modelled as a left-to-right scanner over a matcher:
    - it reports the leftmost match;
    - a body is the shortest run up to the first closer;
    - scanning resumes at the end of the match.
  - `str.strip` removes leading and trailing Unicode whitespace.
- **Syntax indexer.** `highlight_syntax` / `_do_highlight` turn the editor text into `(tag, start, end)` spans in five passes:
  - whole-word keywords from the fixed list of 27, found by a search loop;
  - quoted strings;
  - `#` comments;
  - the name after `def`;
  - whole-word numbers.

  Tk indices `"1.0+Nc"` are integer offsets. In the tabbed client the visible lines are an input range `[lo, hi)`.
- **Streaming session.**
  - The model's stream is a `ChunkSource`: the chunk texts, and the pull (if any) at which the stream raises.
  - The moment at which the user's cancel clears the flag is a `Moment` (`Never` or `At(i)`: after `i` chunks have been appended).
  - `Stream` defines what the worker loop consumes (`Consumed`) and accumulates (`Received`), and whether `finally` commits (`Commits`).
  - Each program's `stream_model_response` is a method over its own state, proved against those functions:
    - `MemChat.ChatSession`;
    - `Canvas4.ChatCodeEditor`, whose editor is refreshed after every chunk;
    - `Canvas5.ChatCodeEditor`, which opens one tab per distinct fragment.

Modules:

- `Wrappers` and `PyStr` (`pystr.dfy`): whitespace, `strip`, substring search and character-class runs.
- `Regex` (`regex.dfy`): the patterns, and `finditer` as `Scan`/`FindAll`.
- `CodeBlocks` (`extractor.dfy`): the extractors, the message that embeds the editor's code, and de-duplication.
- `Syntax` (`syntax.dfy`): the five highlighting passes.
- `Stream` (`stream.dfy`): the worker loop's specification.
- `MemChat` (`memchat.dfy`), `Canvas4` (`canvas4.dfy`) and `Canvas5` (`canvas5.dfy`): the three programs.

Where the code and its documentation disagree, the model follows the code:

- When the stream raises while the flag is still set, `finally` commits the partial response as an assistant message. The code does not skip the commit on error.
- A cancel never commits. `cancel_stream` clears the flag before the `finally` block reads it.

## Model

| member | source | states |
|---|---|---|
| PyStr.IsSpace | Canvas/14b_canvas_5.py:342 | `str.isspace` on one character: the Unicode whitespace code points (tab to carriage return, the file/group/record/unit separators, space, U+0085, U+00A0, U+1680, U+2000–U+200A, U+2028, U+2029, U+202F, U+205F, U+3000). It has no contract of its own; `Strip` is stated in its terms. |
| PyStr.Strip | Canvas/14b_canvas_5.py:342 | The result has no whitespace at either end. It is a contiguous slice of the input with only whitespace on both sides. It is empty exactly when the input is all whitespace. Already-stripped text is returned unchanged. |
| PyStr.StripIdempotent | Canvas/14b_canvas_5.py:342 | Stripping twice is stripping once. |
| PyStr.StripPadded | Canvas/14b_canvas_5.py:342 | Stripping a stripped non-empty text followed by whitespace gives the text back. |
| PyStr.FindFrom | Canvas/14b_canvas_5.py:333-335 | Returns the first occurrence of a pattern at or after an offset, with no occurrence before it. When there is none, there is no occurrence anywhere after the offset. |
| PyStr.SkipRun | Canvas/14b_canvas_4.py:58 | A greedy `\s+`/`\w+`-style run: every character in it belongs to the class, and the next character does not. |
| Regex.FenceMatch | Canvas/14b_canvas_5.py:333-335 | A match at `i` is the opener, then the shortest body up to the first closer (non-greedy under DOTALL), then the closer. No match means the opener is absent or no closer follows it. |
| Regex.OptionalPythonFenceAt | Canvas/14b_canvas_5.py:197 | A match with an optional `python` tag: the tagged form is tried first. Otherwise the untagged form. No match means neither form closes. |
| Regex.AnyFenceAt | Canvas/14b_canvas_5.py:332-336 | The three fence forms as one alternation. It matches exactly when one of the forms matches there, and it prefers the tagged form. |
| Regex.QuotedStringAt | Canvas/14b_canvas_4.py:45 | A string match opens and closes with the same quote, with neither that quote nor a newline in between. It is the shortest such run. No match means no closing quote on the same line. |
| Regex.LineCommentAt | Canvas/14b_canvas_4.py:52 | It matches exactly at a `#`. The match ends at the end of the line or of the text and never crosses a newline. |
| Regex.FunctionNameAt | Canvas/14b_canvas_4.py:58 | Group 1 is the identifier between `def\s+` and `\s*(`. No match means no such shape starts there. |
| Regex.DefShapeIsGreedy | Canvas/14b_canvas_4.py:58 | Any `def` head shape has exactly the boundaries that the greedy runs find, so the function-name match is unique. |
| Regex.NumberAt | Canvas/14b_canvas_4.py:64 | A match is a run of digits with a word boundary on both sides. No match means no such run starts there. |
| Regex.MatchAt | Canvas/14b_canvas_4.py:45-64 | Any match of any pattern starts at the given offset, is non-empty and lies inside the text. |
| Regex.Scan | Canvas/14b_canvas_5.py:340 | Every reported match is the matcher's match at its own start. The matches lie inside the text, in increasing order, without overlap. |
| Regex.ScanLeftmost | Canvas/14b_canvas_5.py:340 | The scan reports first the leftmost match at or after the start, then continues from that match's end. |
| Regex.ScanNoMatch | Canvas/14b_canvas_5.py:340 | Where the matcher matches nowhere, the scan reports nothing. |
| Regex.ScanCovers | Canvas/14b_canvas_5.py:340 | Every offset where the matcher matches lies inside some reported match. |
| Regex.FindAll | Canvas/14b_canvas_5.py:340 | `re.finditer`: each reported match is the pattern's match at its start. The matches are ordered and do not overlap. |
| Regex.FindAllLeftmost | Canvas/14b_canvas_5.py:340 | The leftmost match of the pattern comes first, and scanning resumes at its end. |
| Regex.FindAllNoMatch | Canvas/14b_canvas_5.py:340 | A pattern that matches nowhere yields no matches. |
| Regex.FindAllCovers | Canvas/14b_canvas_5.py:340 | No match of the pattern is skipped without being covered by a reported one. |
| CodeBlocks.DropEmpty | Canvas/14b_canvas_5.py:343-344 | Keeps exactly the non-empty elements, and the result is no longer than the input. |
| CodeBlocks.DropEmptyAppend | Canvas/14b_canvas_5.py:343-344 | Dropping blanks distributes over concatenation. So the kept elements stay in their order, and each keeps its multiplicity. |
| CodeBlocks.DropEmptyExtremes | Canvas/14b_canvas_5.py:343-344 | A list with no blank element is kept whole, and a list of blanks only is dropped whole. |
| CodeBlocks.Fragments | Canvas/14b_canvas_5.py:340-344 | Every fragment of one pattern is stripped and non-empty. |
| CodeBlocks.FragmentsMembers | Canvas/14b_canvas_5.py:340-344 | A string is a fragment of a pattern exactly when it is non-empty and is the stripped group 1 of one of the pattern's matches. |
| CodeBlocks.FragmentsInOrder | Canvas/14b_canvas_5.py:340-344 | When no body is blank, the fragments are the stripped group-1 texts of the matches, one for one, in document order. |
| CodeBlocks.FragmentsOfOneMatch | Canvas/14b_canvas_5.py:340-344 | A pattern that matches once yields that match's stripped body, or nothing if the body is blank. |
| CodeBlocks.ExtractCodeFromResponse | Canvas/14b_canvas_5.py:329-346 | Every fragment returned is stripped and non-empty. |
| CodeBlocks.PatternOrder | Canvas/14b_canvas_5.py:332-345 | A non-blank body found by an earlier pattern of the list (tagged, untagged, bare) is reported before a non-blank body found by a later one, wherever the two fences lie in the text. |
| CodeBlocks.ExtractCodeBlocks | Canvas/14b_canvas_5.py:195-198 | One element per match of the optionally tagged pattern, in document order. Element `k` is the stripped group 1 of match `k`, and empty bodies are kept. |
| CodeBlocks.FencePatternsNeedFence | Canvas/14b_canvas_5.py:333-335 | No fence pattern matches at an offset where no triple backtick starts. |
| CodeBlocks.NoFenceNoFragments | Canvas/14b_canvas_5.py:339-346 | A text without a triple backtick yields no fragments, from either extractor or from the corrected one. |
| CodeBlocks.Combine | Canvas/14b_canvas_5.py:265-267 | Without code, the message is the user input alone. |
| CodeBlocks.CombinedTaggedScans | Canvas/14b_canvas_5.py:265-267 | In the message `send_message` builds, the tagged, optional-tag and alternation patterns each match exactly once, at the embedded fence. |
| CodeBlocks.CombinedOtherScans | Canvas/14b_canvas_5.py:265-267 | In the same message the untagged pattern matches nowhere. The bare pattern matches once, over the same fence. |
| CodeBlocks.ExtractFromThreeScans | Canvas/14b_canvas_5.py:339-346 | When the tagged and bare patterns match once each and the untagged one not at all, the extractor returns the two stripped bodies in pattern order. |
| CodeBlocks.CombinedExtraction | Canvas/14b_canvas_5.py:329-346 | Round trip of the combined message when neither the input nor the stripped code holds a triple backtick. The first fragment is the code. The second is `"python\n"` followed by the code (see Findings). |
| CodeBlocks.CombinedBlocks | Canvas/14b_canvas_5.py:195-198 | The older extractor reads the same message back as exactly the code. |
| CodeBlocks.ExtractCodeCorrected | Canvas/14b_canvas_5.py:329-346 | The corrected extractor: every fragment is stripped and non-empty. |
| CodeBlocks.CorrectedCombinedExtraction | Canvas/14b_canvas_5.py:329-346 | The corrected extractor reads the combined message back as exactly the code. |
| CodeBlocks.Dedup | Canvas/14b_canvas_5.py:315-320 | The `seen_blocks` filter: the result holds no repeats and has exactly the input's elements. It is no longer than the input. |
| CodeBlocks.DedupPrefix | Canvas/14b_canvas_5.py:315-320 | First-occurrence order: de-duplicating a longer list extends the de-duplication of its prefix. |
| CodeBlocks.DedupDistinct | Canvas/14b_canvas_5.py:315-320 | A list without repeats is left unchanged, so each distinct fragment opens exactly one tab. |
| Syntax.KeywordList | Canvas/14b_canvas_4.py:29-32 | The keyword list holds 27 entries, from `def` to `lambda`, each a word. |
| Syntax.SearchFrom | Canvas/14b_canvas_4.py:37 | Returns the first whole-word occurrence at or after the start, with none before it. When there is none, there is none anywhere after the start. |
| Syntax.WordOccurrences | Canvas/14b_canvas_4.py:34-42 | The occurrences are whole-word occurrences at or after the start, strictly increasing. |
| Syntax.OccurrencesComplete | Canvas/14b_canvas_4.py:34-42 | Every whole-word occurrence at or after the start is listed. |
| Syntax.OccurrencesSkip | Canvas/14b_canvas_4.py:34-42 | Skipping a stretch with no occurrence changes nothing. |
| Syntax.NoOccurrenceInside | Canvas/14b_canvas_4.py:40-42 | No whole-word occurrence starts inside another, so resuming after the keyword loses nothing. |
| Syntax.SearchStep | Canvas/14b_canvas_4.py:36-42 | One iteration of the search loop: either it finds nothing and the remaining occurrences are none, or it finds the first remaining occurrence and the rest start after its end. |
| Syntax.TagKeyword | Canvas/14b_canvas_4.py:35-42 | The `while True` search loop tags exactly the whole-word occurrences of the keyword, each `len(keyword)` long, in order. |
| Syntax.KeywordPass | Canvas/14b_canvas_4.py:34-42 | The loop over the keyword list yields the keyword spans of every keyword, in list order. |
| Syntax.KeywordSpansValid | Canvas/14b_canvas_4.py:29-42 | Each keyword span is a whole-word occurrence of one of the 27 keywords, exactly that keyword's length. |
| Syntax.KeywordSpansComplete | Canvas/14b_canvas_4.py:29-42 | Every whole-word occurrence of a listed keyword is tagged. |
| Syntax.StringSpansValid | Canvas/14b_canvas_4.py:45-49 | A string span opens and closes with the same quote, with no newline and no closing quote inside. |
| Syntax.CommentSpansValid | Canvas/14b_canvas_4.py:52-55 | A comment span starts at `#` and runs to the end of its line. |
| Syntax.FunctionSpansValid | Canvas/14b_canvas_4.py:58-61 | A function span covers only the identifier after `def` and whitespace, followed by optional whitespace and `(`. |
| Syntax.NumberSpansValid | Canvas/14b_canvas_4.py:64-67 | A number span is a digit run with a word boundary on both sides. |
| Syntax.HighlightSpans | Canvas/14b_canvas_4.py:28-67 | The five passes over one snapshot, in the order the source runs them: keywords, strings, comments, function names, numbers. It has no contract of its own; its meaning is stated by the `…SpansValid`, `…Covers` and `KeywordSpansComplete` lemmas. |
| Syntax.HighlightSpansValid | Canvas/14b_canvas_4.py:23-67 | Every span of the five passes lies within the content and satisfies its tag's shape. |
| Syntax.CommentCovers | Canvas/14b_canvas_4.py:52-55 | Every `#` in the content is covered by a comment span. |
| Syntax.NumberCovers | Canvas/14b_canvas_4.py:64-67 | Every whole-word digit run is exactly a number span. |
| Syntax.NumberStartsAtBoundary | Canvas/14b_canvas_4.py:64 | Two whole-word digit runs that overlap are the same run, so number spans are maximal. |
| Syntax.ShiftedSpansInRange | Canvas/14b_canvas_5.py:49-91 | Spans computed on the visible content and moved by its start lie inside the visible range. |
| Stream.ConcatPrefix | Canvas/14b_canvas_4.py:197-201 | The accumulated response only grows: the text of fewer chunks is a prefix of the text of more. |
| Stream.EndPoint | GUImemStrThread32b.py:43-55 | Without a cancel, the loop consumes every chunk, or those before the pull that raises. |
| Stream.Consumed | GUImemStrThread32b.py:50-52 | The number of chunks appended is the first visit of the loop head at which the cancel has landed, the pull raises or the stream is exhausted. At no earlier visit does any of these hold. |
| Stream.Received | GUImemStrThread32b.py:50-54 | The accumulated response: the consumed chunks joined in order. It has no contract of its own; `ReceivedIsPrefix`, `EarlierCancelReceivesLess` and the `StreamModelResponse` methods state it. |
| Stream.Commits | GUImemStrThread32b.py:64-65 | Whether `finally` still finds the flag set: exactly when no cancel landed while the worker ran. It has no contract of its own; `LoopExit` and the session methods state it. |
| Stream.LoopExit | GUImemStrThread32b.py:50-65 | Whichever way the loop stops, it has consumed `Consumed` chunks. It commits exactly when the stop was not the cancel. |
| Stream.ReceivedIsPrefix | GUImemStrThread32b.py:50-54 | The response is always a prefix of the whole stream's text. |
| Stream.EarlierCancelReceivesLess | GUImemStrThread32b.py:50-54 | A cancel that lands earlier never leaves more text than one that lands later or never. |
| Stream.CompleteStreamCommitsAll | GUImemStrThread32b.py:60-65 | With no failure and no cancel, the whole stream is received and committed. |
| Stream.CancelCommitsNothing | GUImemStrThread32b.py:64-65 | A cancel while the worker runs stops consumption at that point, and no assistant message is committed. |
| Stream.FailureCommitsPartialText | GUImemStrThread32b.py:57-65 | A stream that raises at pull `k`, with no cancel, commits the text of the first `k` chunks. |
| Stream.CancelAfterFirstOfThree | GUImemStrThread32b.py:50-65 | Cancelling after the first of three chunks leaves exactly the first chunk's text, uncommitted. |
| MemChat.Dots | GUImemStrThread32b.py:96 | `"." * k`: `k` characters, all dots. |
| MemChat.ChatSession.constructor | GUImemStrThread32b.py:12-14 | Empty history, flag clear, counter zero. |
| MemChat.ChatSession.UpdateLoadingDots | GUImemStrThread32b.py:93-101 | While streaming, the label is the loading text with `loading_dots % 4` dots. The counter rises by one and one tick is scheduled. Otherwise the label is cleared and nothing is scheduled. |
| MemChat.ChatSession.Tick | GUImemStrThread32b.py:93-101 | A scheduled tick reschedules itself exactly while streaming. Otherwise the chain of ticks ends with the label cleared. |
| MemChat.ChatSession.StartLoadingAnimation | GUImemStrThread32b.py:88-91 | Resets the counter and runs one tick. While streaming, it shows the text with no dots. |
| MemChat.ChatSession.SendMessage | GUImemStrThread32b.py:17-36 | Blank input changes nothing. Otherwise it appends the raw input as a user message and sets the flag, even while a stream runs. From idle, the animation starts before the flag: the counter is reset to 0, the label stays empty and no tick is scheduled (see Findings). While a stream runs, the label shows with no dots, the counter is 1, and a second chain of ticks is scheduled. |
| MemChat.ChatSession.SendMessageCorrected | GUImemStrThread32b.py:17-36 | The same with the flag set first, so the label shows and one tick is scheduled. |
| MemChat.ChatSession.CancelStream | GUImemStrThread32b.py:80-82 | Clears the flag and nothing else. |
| MemChat.ChatSession.StreamModelResponse | GUImemStrThread32b.py:39-77 | The response is the text of the consumed chunks. An assistant message equal to it is appended exactly when the flag is still set in `finally`, the error path included. Afterwards the flag and the label are clear. |
| Canvas4.RefreshUpdatesEditor | Canvas/14b_canvas_4.py:204-207 | When the accumulated text has fragments, the editor shows the last one. Otherwise it is unchanged. |
| Canvas4.RefreshIdempotent | Canvas/14b_canvas_4.py:221-223 | Refreshing twice from the same text is refreshing once. |
| Canvas4.FinalPassChangesNothing | Canvas/14b_canvas_4.py:220-223 | The final pass in `finally` leaves the editor as the last per-chunk update left it. |
| Canvas4.EditorShowsLatestFragment | Canvas/14b_canvas_4.py:204-207 | After any chunk whose accumulated text has fragments, the editor holds the last fragment. |
| Canvas4.TaggedFenceShowsTagLine | Canvas/14b_canvas_4.py:204-207 | A response laid out like the message `send_message` builds, with one python-tagged fence holding the code, leaves the editor with the line `python` above the code (see Findings). |
| Canvas4.SyntaxHighlightingText.constructor | Canvas/14b_canvas_4.py:10-19 | An empty editor with no tags. |
| Canvas4.SyntaxHighlightingText.HighlightSyntax | Canvas/14b_canvas_4.py:21-67 | All old tags are dropped. The new tags are exactly the five passes over the whole content, every span inside it. |
| Canvas4.ChatCodeEditor.constructor | Canvas/14b_canvas_4.py:70-83 | Empty history, flag clear, empty response, and a fresh empty editor. |
| Canvas4.ChatCodeEditor.UpdateCodeEditor | Canvas/14b_canvas_4.py:253-259 | Whitespace-only code leaves the editor and its tags unchanged. Otherwise the editor's whole text is replaced and re-highlighted. |
| Canvas4.ChatCodeEditor.RefreshEditor | Canvas/14b_canvas_4.py:204-207 | The editor shows the last fragment of the text, when it has any. |
| Canvas4.ChatCodeEditor.AppendChunk | Canvas/14b_canvas_4.py:200-207 | One chunk is appended to the response, and the editor moves one step along the per-chunk refresh sequence. |
| Canvas4.ChatCodeEditor.FinalPass | Canvas/14b_canvas_4.py:220-223 | The final extraction leaves the editor text unchanged. |
| Canvas4.ChatCodeEditor.SendMessage | Canvas/14b_canvas_4.py:156-185 | It is ignored while streaming or for blank input. Otherwise it appends one user message (stripped input, plus the editor's stripped code in a python fence) and sets the flag. |
| Canvas4.ChatCodeEditor.CancelStream | Canvas/14b_canvas_4.py:261-262 | Clears the flag and nothing else. |
| Canvas4.ChatCodeEditor.AtLoopHead | Canvas/14b_canvas_4.py:197-199 | The flag is cleared exactly when the cancel lands now. The loop continues exactly when a chunk arrives and the flag is set. |
| Canvas4.ChatCodeEditor.Pull | Canvas/14b_canvas_4.py:197-207 | One iteration: it either appends the next chunk and refreshes the editor, or stops at the end, the failure or the cancel with nothing changed. |
| Canvas4.ChatCodeEditor.ReceiveChunks | Canvas/14b_canvas_4.py:197-208 | The loop ends where the stream ends, raises or is cancelled. The response is the consumed chunks' text, and the editor is at that point of the refresh sequence. |
| Canvas4.ChatCodeEditor.StreamModelResponse | Canvas/14b_canvas_4.py:187-227 | The response is reset and then holds the consumed chunks' text. It is committed exactly when the flag is still set, and the flag ends clear. The editor ends as the per-chunk refreshes over the consumed chunks leave it. |
| Canvas5.VisibleCommentTagged | Canvas/14b_canvas_5.py:75-79 | Every `#` on the visible lines lies in a comment span inside the visible range. |
| Canvas5.CodeTabs | Canvas/14b_canvas_5.py:313-320 | The tabs to open have no repeats and are exactly the extracted fragments, each stripped and non-empty. |
| Canvas5.SyntaxHighlightingText.constructor | Canvas/14b_canvas_5.py:26-34 | An empty editor with no tags and no timer. |
| Canvas5.SyntaxHighlightingText.HighlightSyntax | Canvas/14b_canvas_5.py:36-41 | `after` adds a callback to the pending ones; because the previous one is cancelled first, exactly one is pending afterwards, the one the timer names. |
| Canvas5.SyntaxHighlightingText.DoHighlight | Canvas/14b_canvas_5.py:43-91 | All old tags are dropped over the whole buffer. The new tags are the five passes over the visible content, moved to buffer offsets, so none lies outside the visible range. |
| Canvas5.SyntaxHighlightingText.Fire | Canvas/14b_canvas_5.py:41 | The pending callback runs: nothing is pending any more, and the tags are those of the visible range. |
| Canvas5.ChatCodeEditor.constructor | Canvas/14b_canvas_5.py:112-131 | Empty history, flag clear, and one empty tab selected. |
| Canvas5.ChatCodeEditor.CreateNewTab | Canvas/14b_canvas_5.py:200-235 | Appends one tab holding the code and selects it. |
| Canvas5.ChatCodeEditor.CloseTab | Canvas/14b_canvas_5.py:237-242 | With more than one tab, exactly the chosen tab is removed and the selection follows Tk's rule. With one tab nothing changes, so at least one tab always remains. |
| Canvas5.ChatCodeEditor.CurrentCode | Canvas/14b_canvas_5.py:244-250 | The selected tab's text, stripped. It is empty exactly when that text is all whitespace. |
| Canvas5.ChatCodeEditor.SendMessage | Canvas/14b_canvas_5.py:252-281 | It is ignored while streaming or for blank input. Otherwise it appends one user message built from the stripped input and the selected tab's code, and sets the flag. The tabs are unchanged. |
| Canvas5.ChatCodeEditor.OpenTabs | Canvas/14b_canvas_5.py:315-320 | The `seen_blocks` loop opens one tab per distinct block, in first-occurrence order, and selects the last one opened. |
| Canvas5.ChatCodeEditor.CreateCodeTabs | Canvas/14b_canvas_5.py:313-320 | Opens exactly the tabs `CodeTabs` names for the text. |
| Canvas5.ChatCodeEditor.CancelStream | Canvas/14b_canvas_5.py:358-379 | Clears the flag and opens one tab per distinct fragment of the response so far. The last tab opened is selected; the selection is unchanged when none opens. History and response are unchanged. |
| Canvas5.ChatCodeEditor.AtLoopHead | Canvas/14b_canvas_5.py:294-296 | The flag is cleared, and the tabs opened, exactly when the cancel lands now. The last tab opened is selected; otherwise the selection is unchanged. The loop continues exactly when a chunk arrives and the flag is set. |
| Canvas5.ChatCodeEditor.AppendChunk | Canvas/14b_canvas_5.py:297-298 | One chunk is appended to the response, and nothing else changes. |
| Canvas5.ChatCodeEditor.ReceiveChunks | Canvas/14b_canvas_5.py:294-301 | The loop ends where the stream ends, raises or is cancelled, with the consumed chunks' text. Tabs are opened, and the last of them selected, only if the cancel was the cause. |
| Canvas5.ChatCodeEditor.Finish | Canvas/14b_canvas_5.py:306-327 | If the flag is set, it commits the response, opens its tabs and selects the last one opened. Either way the flag ends clear. |
| Canvas5.ChatCodeEditor.StreamModelResponse | Canvas/14b_canvas_5.py:283-327 | The response holds the consumed chunks' text. It is committed exactly when the flag is still set, and the flag ends clear. Whichever way the session ends, for a single cancel, one tab per distinct fragment of the response is opened exactly once. The last of them ends selected, for the next `send_message` to read; with no fragment the selection is unchanged. |

## Left out

- Widget construction, layout, colours, fonts and key bindings (`setup_ui`, `toggle_ui_state`, `handle_tab`, `CodeTab`) are GUI plumbing.
- What the chat window displays is left out for the same reason.
- The `ollama.chat` call and the chunk dictionaries are replaced by the `ChunkSource` abstraction: the chunk texts plus an optional failing pull.
- Threads, `after(0, …)` marshalling and the unsynchronised flag are not modelled as concurrency. The cancel is an input point between two loop checks.
- Scheduled callbacks are modelled as running in order. The tab creation that `after(100, …)` delays is modelled as immediate.
- The late-bound `code_blocks` captured by the lambda at Canvas/14b_canvas_4.py:207 is not modelled: its effect depends on scheduling. Each refresh uses that chunk's own fragments.
- `time.time()` and the elapsed-time formatting are floating-point and clock input.
- The transcript file append at GUImemStrThread32b.py:69-73 is file I/O.
- `uuid` tab labels are random, so a tab is modelled by its content alone.
- The Tk visible range (`@0,0`, `winfo_height`) is an input pair `[lo, hi)`. The keyword pass searches the slice `text[lo..hi]`, so the range ends count as word boundaries; Tk's `\m…\M` search between `first_line` and `last_line` can differ there when a range end falls inside a word of a wrapped line.
- Tk's `\m`/`\M` and Python's `\b` and `\w` are modelled as ASCII word boundaries and ASCII word characters.
- Python's `\d` is modelled as ASCII digits only. On `str` patterns it also matches the other Unicode decimal digits.
- Offsets are positions in a `seq<char>`. Tk's `+Nc` counts characters in its own way, which differs from Python code-point offsets for characters outside the Basic Multilingual Plane.
- `str.isspace` is modelled on the Unicode whitespace code points. Non-ASCII letters in `\w` are not modelled.
- Debounce timing: only "at most one pending callback" is modelled, not the 500 ms delay.
- The canvas clients' `start_loading_animation` / `update_loading_animation` / `stop_loading_animation` are not modelled. Their code differs from the single-window animation in `MemChat.ChatSession`. `update_loading_animation` has no `else` branch (Canvas/14b_canvas_4.py:274-279, Canvas/14b_canvas_5.py:391-396), so a tick with the flag clear leaves the label as it is instead of clearing it, and the label is cleared only by `stop_loading_animation` from `finally`. The same start-before-flag ordering (Canvas/14b_canvas_4.py:180-181, Canvas/14b_canvas_5.py:276-277) has the same visible outcome: the first tick sees the flag clear, and no tick is ever rescheduled.
- `current_response` is set and never read, so it is not modelled.
- Per-tab highlighting: the tabs are modelled as their texts, and the highlighter is modelled once, in `Canvas5.SyntaxHighlightingText`.
- Tk's trailing newline in `get("1.0", tk.END)` is not modelled: the text is stripped anyway.
- `messagebox.showinfo` on closing the last tab is not modelled; the model keeps only "nothing changes".
- Canvas4.ChatCodeEditor.StreamModelResponse: states the editor's text but not its tags. Each update re-highlights (`UpdateCodeEditor` states that), but the session methods do not track the tags.
- Canvas4.ChatCodeEditor.StreamModelResponse, Canvas5.ChatCodeEditor.StreamModelResponse, MemChat.ChatSession.StreamModelResponse: require the flag to be set on entry, because the worker is only ever started by `send_message` right after it sets the flag.
- Canvas5.ChatCodeEditor.StreamModelResponse: only one cancel per session is modelled. `cancel_stream` (Canvas/14b_canvas_5.py:358-374) does not disable the Cancel button, which only `toggle_ui_state(True)` scheduled from `finally` does, so a second click before then schedules `create_code_tabs` again and opens every fragment's tab a second time.
- CodeBlocks.Combine: its own contract covers only the case without code. The embedded form is stated by the `Combined…` lemmas about the extractor reading it back.

## Findings

| source | as written | input that shows it | evidently intended | confidence | as-written member | corrected member |
|---|---|---|---|---|---|---|
| Canvas/14b_canvas_5.py:332-345 | Three patterns are scanned separately, and the bare pattern also matches a python-tagged fence, so one block is extracted twice. | The message `send_message` builds from input `"fix"` and code `"x = 1"`. It extracts `["x = 1", "python\nx = 1"]`, canvas_5 opens a second tab holding the tag line and the code, and canvas_4's editor, which takes the last fragment, shows a `python` line above the code (`Canvas4.TaggedFenceShowsTagLine`). | Each fence is reported once, without its tag, in document order. | not executed | CodeBlocks.CombinedExtraction | CodeBlocks.CorrectedCombinedExtraction |
| GUImemStrThread32b.py:32-33 | `start_loading_animation()` runs before `is_streaming = True`. The first tick sees the flag clear, so it clears the label and schedules nothing. | Any non-blank message sent while idle: the loading indicator never appears. The same order is at Canvas/14b_canvas_4.py:180-181 and Canvas/14b_canvas_5.py:276-277. | The flag is set first, so the first tick shows the text and the animation keeps running while streaming. | not executed | MemChat.ChatSession.SendMessage | MemChat.ChatSession.SendMessageCorrected |
