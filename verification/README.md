# BetterGemini chat window: conversation store, turns and code-block segmentation

A model, in Dafny, of the logic inside `gemini.py`, a Tkinter chat client for the Gemini
API. Three parts are modelled, with the widget code taken out:

- **The conversation store.** This is the list of `{title, history}` records and the
  current index. It covers `new_chat`, `load_chat_session` and the title branch of
  `send_message_event`.
  - A new conversation gets the placeholder title `New Chat N`.
  - A placeholder is replaced by a derived title. This happens on the first send into an
    empty conversation, or when the user leaves a non-empty conversation.
  - The derived title is the first user text, cut to 30 characters plus `...` when
    longer. With no user text, it is `Chat <timestamp>`.
- **One turn of `get_gemini_response`.** The prompt is appended first. Then either the
  reply is appended, or the trailing prompt is popped on failure.
  - The HTTP and JSON step becomes an `Outcome`: `Reply(text)` or `Failed(why)`.
  - In `Sessions` the turn is one atomic step.
  - `InFlight` splits the turn into its two real phases. This shows what the worker thread
    does when the user switches conversations mid-request (see Findings).
- **`_insert_gemini_parsed_message_content`.** This splits a reply into plain text,
  language labels and code blocks.
  - The regex ```` ```(?P<lang>\w*)\s*\n(?P<code>.*?)\n``` ```` (DOTALL, scanned by
    `finditer`) is stated as declarative predicates. The predicate `Block` says what a
    match is. `Preferred` says which match a backtracking engine reports at a position.
    `IsFindAll` is the leftmost, non-overlapping sequence of matches.
  - A hand-written scanner (`FindAll`) is proved to produce that sequence, and the
    sequence is proved unique.
  - `Segments` is the sequence of what the view shows, in order:
    - `Text` for each gap that is not empty;
    - `Lang` when the language is not empty;
    - `Code(code, payload)`, where `payload` is what the "Save Code to File" button
      would write.

Supporting modules:

- `Strings`: Python's `str.isspace`, `str.strip` and `startswith`, plus decimal
  formatting for `f"New Chat {n}"`.
- `Messages`: history records, the first-user-text search, and the text joining used
  when a history is redrawn.
- `Seqs`: flattening a sequence through a function.
- `Display`: the chat view's entries, both as shown live and as redrawn from the history.

The clock reading (`datetime.now().strftime(...)`) is a `timestamp` parameter. The
service's answer is an `Outcome` parameter.

## Model

| member | source | states |
|---|---|---|
| Strings.Strip | gemini.py:390 | The result is the input with one maximal run of leading whitespace and one of trailing whitespace removed. Whitespace is Python's `str.isspace` set. The result is empty exactly when the input is all whitespace. |
| Strings.StripIdempotent | gemini.py:328 | Stripping an already stripped text changes nothing. |
| Strings.Decimal | gemini.py:185 | The text `{n}` produces: non-empty, decimal digits only, no leading zero, and read back as `n`. |
| Messages.MessageTextAppend | gemini.py:238-239 | The text a message is redrawn with is the parts' texts joined in order. Splitting the parts list anywhere splits the joined text at the same point. |
| Messages.FirstText | gemini.py:172-176 | None exactly when no part has non-empty text. Otherwise the result is the text of the first part that has non-empty text. |
| Messages.FirstUserText | gemini.py:170-179 | None exactly when no user message has a non-empty text part. Otherwise the result is the first such text of the first such message. |
| Titles.Truncate | gemini.py:181 | A text of at most 30 characters is kept as is. A longer one becomes its first 30 characters followed by `...`, exactly 33 characters. The result is never longer than 33 characters and always starts with a prefix of the text. |
| Titles.TruncateIdempotent | gemini.py:395 | Truncating a derived title again gives the same title. |
| Titles.PlaceholderTitle | gemini.py:185 | `New Chat ` followed by the decimal digits of `n`. It starts with `New Chat`. The digits after the space read back as `n` and have no leading zero. |
| Titles.FallbackTitle | gemini.py:183 | The fallback `Chat <timestamp>` never starts with `New Chat`. |
| Titles.DeriveTitle | gemini.py:170-183 | When no user message has text, the result is the timestamp fallback. Otherwise it is the truncated first text of the first user message that has one. |
| Sessions.Finalize | gemini.py:168-183 | The history is never changed. The title changes only when it starts with `New Chat` and the history is non-empty. In that case it becomes the derived title. |
| Sessions.FinalizeIdempotent | gemini.py:212-227 | Finalising an already finalised conversation changes nothing, whatever the clock says. |
| Sessions.Leave | gemini.py:212-227 | Only the current conversation may be renamed, by `Finalize`. All other records and the index are unchanged. |
| Sessions.NewChat | gemini.py:163-189 | Exactly one record is appended: `New Chat <old count + 1>` with an empty history. It becomes current. Every earlier history is unchanged, and every other earlier record is identical. The conversation being left is finalised, except on the initial load. |
| Sessions.LoadChat | gemini.py:206-231 | Picking the current index returns the store unchanged. Otherwise the picked index becomes current, every history is unchanged, and only the conversation being left may be renamed. |
| Sessions.Rollback | gemini.py:420-425 | The result is a prefix of the history. It is exactly one message shorter when the last message is the user's, and the whole history otherwise. |
| Sessions.RollbackUndoesPrompt | gemini.py:408-421 | Rolling back right after the prompt is appended restores the history exactly. |
| Sessions.NameFromPrompt | gemini.py:394-395 | The history is unchanged. An empty conversation whose title starts with `New Chat` gets the truncated prompt as its title. Every other conversation keeps its title. |
| Sessions.NameFromPromptFinal | gemini.py:212-227 | The title a prompt gives an empty placeholder conversation is the one leaving that conversation would give. Once the prompt is in the history, finalising changes nothing. |
| Sessions.Turn | gemini.py:406-425 | On success the history gains exactly `[user(prompt), model(reply)]`. On failure it equals its value before the turn. |
| Sessions.Send | gemini.py:388-425 | Sending an empty-after-strip prompt, or sending while the button is disabled, returns the store unchanged. Otherwise, success appends exactly the prompt and the reply, and failure leaves the history as it was. An empty placeholder conversation is named after the prompt, and the name is not rolled back on failure. Other conversations and the index are untouched. |
| Sessions.StepKeepsInv | gemini.py:163-231 | Every user action keeps all histories made of completed prompt/reply turns. |
| Sessions.RunKeepsInv | gemini.py:406-425 | From start-up and over any sequence of actions, every history holds only completed turns. A failed request the worker catches leaves no trace in any history. |
| Sessions.FallbackUnused | gemini.py:179-183 | In any store meeting the invariant, the title a non-empty conversation would be given is its first prompt, truncated, so the timestamp fallback is never taken. The title it carries may differ (see `Sessions.RetryAfterFailure`). |
| Sessions.RetryAfterFailure | gemini.py:394-425 | Start up, send a prompt that fails, then send a second prompt that succeeds. The only conversation holds the second exchange but keeps the first prompt's title, unless that title itself starts with `New Chat`, in which case the second prompt renames it. |
| Sessions.StartUp | gemini.py:76 | After start-up there is exactly one conversation, `New Chat 1`. It is empty and current. |
| Sessions.FreshChatExchange | gemini.py:394-425 | The first send from a fresh window names the only conversation after the prompt. The history holds the exchange on success and is empty on failure. |
| Sessions.FirstExchange | gemini.py:408-416 | Sending `Hello` and receiving `Hi there` gives the title `Hello` and the history `[user "Hello", model "Hi there"]`. |
| Sessions.FailedExchange | gemini.py:417-425 | Sending `Hello` when the request fails, by timeout or otherwise, gives an empty history, while the title `Hello` stays. |
| Sessions.SwitchNamesLongPrompt | gemini.py:225 | Leaving `New Chat 1` whose one prompt is `Plan my trip to Japan for two weeks` names it `Plan my trip to Japan for two ...`. |
| Segmenter.MatchAt | gemini.py:321 | The match the pattern reports at a position is the one whose language run is longest, then whose whitespace run is longest, then whose body is shortest. If there is none, no match of the pattern starts there. |
| Segmenter.FindAll | gemini.py:323 | The scanner's matches are exactly the leftmost, non-overlapping sequence `finditer` yields. |
| Segmenter.FindAllUnique | gemini.py:323 | That sequence is unique. |
| Segmenter.LayoutTiles | gemini.py:323-348 | The gaps and the matched spans, in order, put back together give the reply exactly. |
| Segmenter.Segments | gemini.py:315-350 | The segments contain no empty text. Every label is non-empty, is made of word characters and is followed by a code block. Every save payload equals the code shown. |
| Segmenter.SegmentsShowBodies | gemini.py:328-338 | Exactly one code block is shown per match, in order. Each holds the match's body with surrounding whitespace stripped. |
| Segmenter.SegmentsShowLabels | gemini.py:327-333 | The labels shown are the matches' languages, in order, with exactly the empty ones left out. |
| Segmenter.SegmentsShowOutside | gemini.py:324-348 | The text segments, joined, are the reply with every matched block cut out. |
| Segmenter.PlainReply | gemini.py:347-348 | A reply the pattern never matches is shown as one text segment, or as nothing when it is empty. |
| Segmenter.ExampleSegments | gemini.py:321-348 | `Use ```python\nprint(1)\n``` now` is shown as text `Use `, label `python`, code `print(1)` (also the payload), and text ` now`. |
| Display.TranscriptAppend | gemini.py:235-240 | Redrawing a history is redrawing its parts in order. |
| Display.TurnRedraw | gemini.py:275-285 | A stored turn redraws as the prompt followed by the segmented reply. |
| Display.RedrawMatchesLive | gemini.py:233-240 | After a successful request, redrawing the conversation shows what the request showed live. After a failed one it shows nothing of it: the prompt and the error notice are gone. |
| InFlight.Begin | gemini.py:388-408 | An empty prompt, or a send while a request is in flight, changes nothing. Otherwise the prompt is appended to the current history, the title rule is applied, and the request records its origin. Nothing else changes. |
| InFlight.Complete | gemini.py:416-425 | Only the target conversation changes, and never its title. Its history gains the reply, or is rolled back. |
| InFlight.FinishAsWritten | gemini.py:406-427 | The outcome is applied to the conversation current when the worker finishes. |
| InFlight.FinishAtOrigin | gemini.py:406-427 | The outcome is applied to the conversation the prompt was sent from. |
| InFlight.BeginThenFinish | gemini.py:388-425 | When nothing happens between sending and finishing, both finishing rules give exactly what the atomic `Send` gives. |
| InFlight.MisfiledReply | gemini.py:416 | As written, the following sequence leaves the first conversation with an unanswered prompt: send `hi`, press New Chat, then receive `hello`. The new conversation starts with a reply. The store no longer consists of completed turns. |
| InFlight.OrphanedPrompt | gemini.py:419-421 | As written, the same sequence with a failure leaves `hi` unanswered in the first conversation. The rollback looked at the new, empty conversation. |
| InFlight.FiledAtOrigin | gemini.py:406-425 | With the outcome applied at the origin, send, New Chat, then finish leaves the first conversation with the whole exchange on success and an empty history on failure. The new conversation stays empty, and every history holds completed turns. |
| InFlight.StepKeepsWindowInv | gemini.py:388-425 | With the outcome applied at the origin, every action keeps the window invariant. Every history holds completed turns, except the origin of the request in flight. That one holds completed turns followed by the prompt. |
| InFlight.RunKeepsWindowInv | gemini.py:406-425 | With the outcome applied at the origin, any interleaving of switches and sends keeps every history made of completed turns whenever no request is in flight. |

## Left out

- Tk layout, colours, fonts, the chat-list buttons and the focus/scroll calls (gemini.py:88-161, 248-273) are pure user interface. The chat view is reduced to the `Display.Entry` sequence.
- Sessions.Turn: a request whose body has the wrong JSON types is not modelled. Examples are `{"candidates": null}` or a top-level list. Reading it at gemini.py:415 raises `TypeError`, which neither handler catches (gemini.py:418, 422), so only the `finally` runs and the prompt appended at gemini.py:408 is never popped. The same holds for a `ValueError` from `response.json()` on a non-JSON body with older `requests` releases. Every `Outcome` of the model is either a reply or a caught failure. So `Sessions.Turn`, `Sessions.Send`, `Sessions.RunKeepsInv` and `InFlight.RunKeepsWindowInv` say nothing about such a request, and there the prompt stays in the history without a reply.
- The thinking spinner (gemini.py:429-475) is cosmetic and uses floating-point trigonometry.
- `requests.post`, `raise_for_status` and the JSON indexing (gemini.py:412-415) are network I/O and a foreign library. They become the `Outcome` parameter. `NetworkError` stands for any transport error, timeout or error status. `MalformedResponse` stands for a `KeyError` or `IndexError` raised while reading `candidates[0].content.parts[0].text` from the body (gemini.py:422).
- Thread start-up and `root.after` dispatch (gemini.py:400-404, 417-427): `Sessions` treats a turn as atomic. `InFlight` has the two phases without modelling threads. The worker's first append (gemini.py:408) is taken to happen before the user can act again.
- `save_code_to_file` (gemini.py:352-386) is a file dialog and disk I/O. The model stops at the payload bound to the button. Its `filetypes` list also lacks commas after two entries, so calling it would raise `TypeError`. That is not modelled.
- The API-key check, `sys.exit` and the `__main__` guard (gemini.py:53-73, 489-495) are environment and process handling.
- `datetime.now().strftime('%H:%M %b %d')` is clock reading and formatting. The formatted string is the `timestamp` parameter.
- The `messagebox.showinfo` after New Chat (gemini.py:198-199) is a dialog with no effect on the store.
- Segmenter.Segments, Segmenter.MatchAt, Segmenter.FindAll: `\w` is modelled as ASCII letters, digits and `_`. Python's Unicode word characters (for example accented letters in a language tag) are not, so a fence whose language tag holds such a letter matches in the program but not in the model. `\s` and `strip()` use the full `str.isspace` set.
- Segmenter.Segments: the decoration the view adds is not part of the segments. That covers the newline before each block, the `Language: ` prefix, the blank lines after the button and the final newline.
- Display.Shown: the status/error branch of `_insert_message_directly_into_display` is not modelled, because the history only ever holds user and model messages. Error notices are `Display.Notice` entries, which carry the failure kind rather than the exception text.
- Sessions.Send requires a store with a current conversation. The `current_chat_index == -1` state exists only inside the constructor, before `new_chat(initial_load=True)` runs.

## Findings

| source | as written | input that shows it | evidently intended | confidence | as-written member | corrected member |
|---|---|---|---|---|---|---|
| gemini.py:406-427 | The worker appends the reply to `self.conversation_history`, or pops from it, when the request finishes. That name is rebound by New Chat and by the chat buttons (gemini.py:189, 231), which stay enabled while a request is in flight (gemini.py:477-482). | Send `hi` from a fresh window, press New Chat before the reply arrives, then receive `hello`. Chat 1 holds an unanswered `hi`, and chat 2 starts with the model's `hello`. With a failure instead, `hi` is never rolled back. | The outcome is applied to the conversation the prompt was sent from. Every history then stays a sequence of completed turns. | medium; not executed | InFlight.FinishAsWritten (InFlight.MisfiledReply, InFlight.OrphanedPrompt) | InFlight.FinishAtOrigin (InFlight.RunKeepsWindowInv, InFlight.FiledAtOrigin) |
